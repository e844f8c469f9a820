/** String primitives of the JavaScript runtime that the landing-page scripts
    rely on: the `\s` / `trim()` whitespace class, `includes`, `String(n)` for
    integers and `padStart`. Strings are sequences of characters. */
module Text {

  /** The characters JavaScript's `\s` class and `String.prototype.trim` treat
      as white space: the WhiteSpace and LineTerminator productions. */
  predicate IsSpace(c: char) {
    || c == '\t' || c == '\n' || c == '\U{000B}' || c == '\U{000C}' || c == '\r'
    || c == ' ' || c == '\U{00A0}' || c == '\U{1680}'
    || ('\U{2000}' <= c <= '\U{200A}')
    || c == '\U{2028}' || c == '\U{2029}' || c == '\U{202F}' || c == '\U{205F}'
    || c == '\U{3000}' || c == '\U{FEFF}'
  }

  predicate NoSpace(s: string) {
    forall i :: 0 <= i < |s| ==> !IsSpace(s[i])
  }

  predicate AllSpace(s: string) {
    forall i :: 0 <= i < |s| ==> IsSpace(s[i])
  }

  /** `sub` occurs in `s` starting at index `i`. */
  predicate OccursAt(s: string, sub: string, i: int) {
    0 <= i && i + |sub| <= |s| && s[i..i + |sub|] == sub
  }

  /** The first index at or after `k` whose character is not white space,
      or `|s|` when there is none. */
  function SkipSpaces(s: string, k: nat): (n: nat)
    requires k <= |s|
    ensures k <= n <= |s|
    ensures forall i :: k <= i < n ==> IsSpace(s[i])
    ensures n < |s| ==> !IsSpace(s[n])
    decreases |s| - k
  {
    if k < |s| && IsSpace(s[k]) then SkipSpaces(s, k + 1) else k
  }

  /** Walking back from `k` but not below `lo`: the index just past the last
      character that is not white space, or `lo` when there is none. */
  function BackSpaces(s: string, lo: nat, k: nat): (m: nat)
    requires lo <= k <= |s|
    ensures lo <= m <= k
    ensures forall i :: m <= i < k ==> IsSpace(s[i])
    ensures m > lo ==> !IsSpace(s[m - 1])
    decreases k
  {
    if k > lo && IsSpace(s[k - 1]) then BackSpaces(s, lo, k - 1) else k
  }

  /** `s.trim()`: the characters between the leading and the trailing white
      space. */
  function Trim(s: string): string {
    var n := SkipSpaces(s, 0);
    s[n..BackSpaces(s, n, |s|)]
  }

  /** A character outside the Basic Multilingual Plane, which a JavaScript
      string holds as a surrogate pair. */
  predicate Astral(c: char) {
    c as int > 0xFFFF
  }

  /** No character of `s` is astral. */
  predicate NoAstral(s: string) {
    forall i :: 0 <= i < |s| ==> !Astral(s[i])
  }

  /** `s.length`: the number of UTF-16 code units, two for each astral
      character and one for every other. */
  function Utf16Length(s: string): nat {
    if s == [] then 0 else (if Astral(s[0]) then 2 else 1) + Utf16Length(s[1..])
  }

  /** A string is one to two code units per character long, one per
      character when none is astral. */
  lemma {:induction false} Utf16LengthBounds(s: string)
    ensures |s| <= Utf16Length(s) <= 2 * |s|
    ensures NoAstral(s) ==> Utf16Length(s) == |s|
  {
    if s != [] {
      Utf16LengthBounds(s[1..]);
    }
  }

  /** `r` sits in `s` at `i` with nothing but white space around it. */
  predicate Surrounded(s: string, r: string, i: int) {
    && OccursAt(s, r, i)
    && (forall k :: 0 <= k < i ==> IsSpace(s[k]))
    && (forall k :: i + |r| <= k < |s| ==> IsSpace(s[k]))
  }

  /** `Trim` returns the infix of `s` between its leading and its trailing
      white space: it neither starts nor ends with white space, and it is
      empty exactly when `s` is all white space. */
  lemma TrimSpec(s: string)
    ensures Surrounded(s, Trim(s), SkipSpaces(s, 0))
    ensures Trim(s) != [] ==> !IsSpace(Trim(s)[0]) && !IsSpace(Trim(s)[|Trim(s)| - 1])
    ensures Trim(s) == [] <==> AllSpace(s)
  {
    var n := SkipSpaces(s, 0);
    var m := BackSpaces(s, n, |s|);
    assert Trim(s) == s[n..m];
    if m > n {
      assert s[n..m][0] == s[n] && s[n..m][m - n - 1] == s[m - 1];
      assert !AllSpace(s) by { assert !IsSpace(s[n]); }
    } else {
      assert AllSpace(s);
    }
  }

  /** White space around an infix that neither starts nor ends with white
      space is exactly what `Trim` removes. */
  lemma TrimUnique(s: string, a: string, r: string, b: string)
    requires s == a + r + b && AllSpace(a) && AllSpace(b)
    requires r != [] ==> !IsSpace(r[0]) && !IsSpace(r[|r| - 1])
    ensures Trim(s) == r
  {
    var e := |a| + |r|;
    forall k | 0 <= k < |a| ensures IsSpace(s[k]) {
      assert s[k] == a[k];
    }
    forall k | e <= k < |s| ensures IsSpace(s[k]) {
      assert s[k] == b[k - e];
    }
    if r == [] {
      SkipSpacesAt(s, 0, |s|);
      assert BackSpaces(s, |s|, |s|) == |s|;
    } else {
      assert s[|a|] == r[0] && s[e - 1] == r[|r| - 1];
      SkipSpacesAt(s, 0, |a|);
      BackSpacesAt(s, |a|, |s|, e);
      assert s[|a|..e] == r;
    }
  }

  lemma {:induction false} SkipSpacesAt(s: string, k: nat, n: nat)
    requires k <= n <= |s|
    requires forall i :: k <= i < n ==> IsSpace(s[i])
    requires n < |s| ==> !IsSpace(s[n])
    ensures SkipSpaces(s, k) == n
    decreases n - k
  {
    if k < n {
      SkipSpacesAt(s, k + 1, n);
    }
  }

  lemma {:induction false} BackSpacesAt(s: string, lo: nat, k: nat, m: nat)
    requires lo <= m <= k <= |s|
    requires forall i :: m <= i < k ==> IsSpace(s[i])
    requires m > lo ==> !IsSpace(s[m - 1])
    ensures BackSpaces(s, lo, k) == m
    decreases k
  {
    if m < k {
      BackSpacesAt(s, lo, k - 1, m);
    }
  }

  /** Padding a string with white space on both sides does not change what
      `Trim` returns. */
  lemma TrimPadded(s: string, pad: string)
    requires AllSpace(pad)
    ensures Trim(pad + s + pad) == Trim(s)
  {
    var r := Trim(s);
    var i := SkipSpaces(s, 0);
    TrimSpec(s);
    SpacedPrefix(pad, s, i);
    SpacedSuffix(s, i + |r|, pad);
    Regroup(pad, s, i, i + |r|);
    TrimUnique(pad + s + pad, pad + s[..i], r, s[i + |r|..] + pad);
  }

  lemma SpacedPrefix(pad: string, s: string, i: nat)
    requires AllSpace(pad) && i <= |s| && forall k :: 0 <= k < i ==> IsSpace(s[k])
    ensures AllSpace(pad + s[..i])
  {
    var a := pad + s[..i];
    forall k | 0 <= k < |a| ensures IsSpace(a[k]) {
      if k >= |pad| { assert a[k] == s[k - |pad|]; }
    }
  }

  lemma SpacedSuffix(s: string, j: nat, pad: string)
    requires AllSpace(pad) && j <= |s| && forall k :: j <= k < |s| ==> IsSpace(s[k])
    ensures AllSpace(s[j..] + pad)
  {
    var b := s[j..] + pad;
    forall k | 0 <= k < |b| ensures IsSpace(b[k]) {
      if k < |s| - j { assert b[k] == s[j + k]; }
    }
  }

  lemma Regroup(pad: string, s: string, i: nat, j: nat)
    requires i <= j <= |s|
    ensures pad + s + pad == (pad + s[..i]) + s[i..j] + (s[j..] + pad)
  {
    assert s == s[..i] + s[i..j] + s[j..];
  }

  /** `s.replace(/\s/g, '')`: every white-space character removed, the other
      characters kept in order. */
  function RemoveSpaces(s: string): (r: string)
    ensures NoSpace(r)
    ensures |r| <= |s|
    ensures NoSpace(s) ==> r == s
    ensures r == [] <==> AllSpace(s)
  {
    if s == [] then []
    else if IsSpace(s[0]) then RemoveSpaces(s[1..])
    else [s[0]] + RemoveSpaces(s[1..])
  }

  /** `s.includes(sub)`, computed by scanning from the left. */
  function Contains(s: string, sub: string): (r: bool)
    ensures r <==> exists i :: OccursAt(s, sub, i)
  {
    if |sub| > |s| then false
    else if s[..|sub|] == sub then assert OccursAt(s, sub, 0); true
    else
      var r := Contains(s[1..], sub);
      ShiftOccurrence(s, sub);
      r
  }

  /** An occurrence past the first position is an occurrence in the tail. */
  lemma ShiftOccurrence(s: string, sub: string)
    requires |sub| <= |s| && s[..|sub|] != sub
    ensures (exists i :: OccursAt(s, sub, i)) <==> exists i :: OccursAt(s[1..], sub, i)
  {
    assert !OccursAt(s, sub, 0);
    if exists i :: OccursAt(s, sub, i) {
      var i :| OccursAt(s, sub, i);
      assert s[1..][i - 1..i - 1 + |sub|] == s[i..i + |sub|];
      assert OccursAt(s[1..], sub, i - 1);
    }
    if exists i :: OccursAt(s[1..], sub, i) {
      var i :| OccursAt(s[1..], sub, i);
      assert s[1..][i..i + |sub|] == s[i + 1..i + 1 + |sub|];
      assert OccursAt(s, sub, i + 1);
    }
  }

  /** `s.indexOf(c)` for a character that occurs: the first position holding it. */
  function IndexOf(s: string, c: char): (r: nat)
    requires c in s
    ensures r < |s| && s[r] == c && c !in s[..r]
  {
    if s[0] == c then 0
    else
      assert c in s[1..] by {
        var k :| 0 <= k < |s| && s[k] == c;
        assert s[1..][k - 1] == c;
      }
      var r := 1 + IndexOf(s[1..], c);
      assert s[..r] == [s[0]] + s[1..][..r - 1];
      r
  }

  predicate IsDigit(c: char) {
    '0' <= c <= '9'
  }

  predicate AllDigits(s: string) {
    forall i :: 0 <= i < |s| ==> IsDigit(s[i])
  }

  function DigitChar(d: nat): (c: char)
    requires d < 10
    ensures IsDigit(c) && c as int - '0' as int == d
  {
    (d + '0' as int) as char
  }

  /** The number a string of decimal digits denotes (what `parseInt` gives
      back for such a string, leading zeros included). */
  function DigitsValue(s: string): (n: nat)
    requires AllDigits(s)
  {
    if s == [] then 0
    else DigitsValue(s[..|s| - 1]) * 10 + (s[|s| - 1] as int - '0' as int)
  }

  /** `String(n)` for a natural number: its shortest decimal spelling. */
  function NatToString(n: nat): (r: string)
    ensures r != [] && AllDigits(r)
    ensures r[0] == '0' ==> n == 0 && |r| == 1
    ensures DigitsValue(r) == n
  {
    if n < 10 then [DigitChar(n)]
    else
      var p := NatToString(n / 10);
      var r := p + [DigitChar(n % 10)];
      assert r[..|r| - 1] == p;
      r
  }

  /** `String(i)` for an integer: a minus sign before the digits of a
      negative number. */
  function IntToString(i: int): (r: string)
    ensures r != []
    ensures i >= 0 ==> AllDigits(r) && DigitsValue(r) == i
    ensures i < 0 ==> r[0] == '-' && AllDigits(r[1..]) && DigitsValue(r[1..]) == -i
  {
    if i < 0 then "-" + NatToString(-i) else NatToString(i)
  }

  function Repeat(c: char, n: nat): (r: string)
    ensures |r| == n && forall i :: 0 <= i < n ==> r[i] == c
  {
    if n == 0 then [] else [c] + Repeat(c, n - 1)
  }

  /** `s.padStart(width, [fill])`: `s` itself when it is already `width`
      long, otherwise `s` preceded by enough copies of `fill`. */
  function PadStart(s: string, width: nat, fill: char): string {
    if |s| >= width then s else Repeat(fill, width - |s|) + s
  }

  /** The padded string is `width` long or `s` itself when longer, ends in
      `s`, and is `fill` before it. */
  lemma PadStartSpec(s: string, width: nat, fill: char)
    ensures var r := PadStart(s, width, fill);
      && |r| == (if |s| >= width then |s| else width)
      && r[|r| - |s|..] == s
      && forall i :: 0 <= i < |r| - |s| ==> r[i] == fill
  {
  }

  /** Leading zeros do not change the value of a digit string. */
  lemma {:induction false} LeadingZeros(z: string, s: string)
    requires AllDigits(s) && forall i :: 0 <= i < |z| ==> z[i] == '0'
    ensures AllDigits(z + s) && DigitsValue(z + s) == DigitsValue(s)
  {
    if s == [] {
      assert z + s == z;
      ZerosValue(z);
    } else {
      var t := s[..|s| - 1];
      assert (z + s)[..|z + s| - 1] == z + t;
      LeadingZeros(z, t);
    }
  }

  lemma {:induction false} ZerosValue(z: string)
    requires forall i :: 0 <= i < |z| ==> z[i] == '0'
    ensures AllDigits(z) && DigitsValue(z) == 0
  {
    if z != [] {
      ZerosValue(z[..|z| - 1]);
    }
  }
}
