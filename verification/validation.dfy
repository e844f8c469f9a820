/** The field rules of `FormHandler.validateField`: the two regular
    expressions it tests, written as character-level predicates, and the
    verdict its `else if` chain reaches for a field. */
module Validation {
  import opened Common
  import opened Text

  /** A form control as `validateField` sees it: its `name` attribute, its
      `type`, whether it carries `required`, and its current value. */
  datatype Field = Field(name: string, kind: string, required: bool, value: string)

  const RequiredMessage: string := "Este campo é obrigatório"
  const EmailMessage: string := "Por favor, insira um email válido"
  const PhoneMessage: string := "Por favor, insira um telefone válido"
  const NameMessage: string := "Nome deve ter pelo menos 2 caracteres"

  /** A character of the class `[^\s@]`. */
  predicate EmailChar(c: char) {
    !IsSpace(c) && c != '@'
  }

  predicate EmailChars(s: string) {
    forall i :: 0 <= i < |s| ==> EmailChar(s[i])
  }

  /** `s` matches `^[^\s@]+@[^\s@]+\.[^\s@]+$`: the `@` at `i` and the
      literal dot at `j` split it into three non-empty runs of `[^\s@]`. */
  ghost predicate EmailRegex(s: string) {
    exists i, j :: EmailSplit(s, i, j)
  }

  ghost predicate EmailSplit(s: string, i: int, j: int) {
    && 0 < i && i + 1 < j && j + 1 < |s|
    && s[i] == '@' && s[j] == '.'
    && EmailChars(s[..i]) && EmailChars(s[i + 1..j]) && EmailChars(s[j + 1..])
  }

  /** The email test, decided by a single scan: the first `@` is not the
      first character, nothing before or after it is white space or another
      `@`, and the part after it holds a dot with a character on each side. */
  function EmailValid(s: string): (r: bool)
    ensures r <==> EmailRegex(s)
  {
    if '@' !in s then
      EmailRegexNeedsAt(s);
      false
    else
      var i := IndexOf(s, '@');
      var d := s[i + 1..];
      var r := i > 0 && EmailChars(s[..i]) && EmailChars(d) && |d| >= 3 && '.' in d[1..|d| - 1];
      EmailValidAt(s, i, r);
      r
  }

  lemma EmailRegexNeedsAt(s: string)
    ensures EmailRegex(s) ==> '@' in s
  {
    if EmailRegex(s) {
      var i, j :| EmailSplit(s, i, j);
      assert s[i] in s;
    }
  }

  lemma EmailValidAt(s: string, i: nat, r: bool)
    requires i < |s| && s[i] == '@' && '@' !in s[..i]
    requires var d := s[i + 1..];
      r == (i > 0 && EmailChars(s[..i]) && EmailChars(d) && |d| >= 3 && '.' in d[1..|d| - 1])
    ensures r <==> EmailRegex(s)
  {
    var d := s[i + 1..];
    if r {
      var k :| 0 <= k < |d| - 2 && d[1..|d| - 1][k] == '.';
      var j := i + 2 + k;
      assert s[j] == '.';
      assert s[i + 1..j] == d[..k + 1];
      assert s[j + 1..] == d[k + 2..];
      assert EmailSplit(s, i, j);
    }
    if EmailRegex(s) {
      var i', j :| EmailSplit(s, i', j);
      AtIsFirst(s, i, i', j);
      SplitDomain(s, i, j);
    }
  }

  /** The `@` of a split is the first `@` of the address. */
  lemma AtIsFirst(s: string, i: nat, i': int, j: int)
    requires i < |s| && s[i] == '@' && '@' !in s[..i]
    requires EmailSplit(s, i', j)
    ensures i' == i
  {
  }

  /** What follows the `@` of a split holds no white space and no `@`, and
      has a dot with a character on each side. */
  lemma SplitDomain(s: string, i: nat, j: int)
    requires EmailSplit(s, i, j)
    ensures var d := s[i + 1..]; EmailChars(d) && |d| >= 3 && '.' in d[1..|d| - 1]
  {
    var d := s[i + 1..];
    forall k | 0 <= k < |d| ensures EmailChar(d[k]) {
      if k < j - i - 1 {
        assert d[k] == s[i + 1..j][k];
      } else if k > j - i - 1 {
        assert d[k] == s[j + 1..][k - (j - i)];
      }
    }
    assert d[1..|d| - 1][j - i - 2] == '.';
  }

  /** `t` matches `^[\+]?[1-9][\d]{0,15}$`: an optional plus sign (`o` is
      its length), a non-zero digit, then at most fifteen digits. */
  ghost predicate PhoneRegex(t: string) {
    exists o :: PhoneSplit(t, o)
  }

  ghost predicate PhoneSplit(t: string, o: int) {
    && 0 <= o <= 1 && o < |t| <= o + 16
    && (o == 1 ==> t[0] == '+')
    && '1' <= t[o] <= '9' && AllDigits(t[o + 1..])
  }

  /** The phone test: strip one leading `+`, then a non-zero digit and up to
      fifteen further digits. */
  function PhoneValid(t: string): (r: bool)
    ensures r <==> PhoneRegex(t)
  {
    var o := if t != [] && t[0] == '+' then 1 else 0;
    var rest := t[o..];
    var r := 1 <= |rest| <= 16 && '1' <= rest[0] <= '9' && AllDigits(rest[1..]);
    PhoneValidAt(t, o, r);
    r
  }

  lemma PhoneValidAt(t: string, o: nat, r: bool)
    requires o == if t != [] && t[0] == '+' then 1 else 0
    requires var rest := t[o..]; r == (1 <= |rest| <= 16 && '1' <= rest[0] <= '9' && AllDigits(rest[1..]))
    ensures r <==> PhoneRegex(t)
  {
    var rest := t[o..];
    if r {
      assert t[o + 1..] == rest[1..];
      assert PhoneSplit(t, o);
    }
    if PhoneRegex(t) {
      var o' :| PhoneSplit(t, o');
      assert o' == o;
      assert t[o + 1..] == rest[1..];
    }
  }

  /** The message `validateField` shows for a field, or `None` when the
      field passes: the value is trimmed first, and the first applicable
      rule of the chain decides. */
  ghost function Verdict(f: Field): Option<string> {
    var v := Trim(f.value);
    if f.required && v == [] then Some(RequiredMessage)
    else if f.kind == "email" && v != [] then (if EmailRegex(v) then None else Some(EmailMessage))
    else if f.name == "phone" && v != [] then (if PhoneRegex(RemoveSpaces(v)) then None else Some(PhoneMessage))
    else if f.name == "name" && v != [] then (if Utf16Length(v) >= 2 then None else Some(NameMessage))
    else None
  }

  /** A required field holding only white space fails with the required
      message, whatever its type and name. */
  lemma RequiredBlankFails(f: Field)
    requires f.required && AllSpace(f.value)
    ensures Verdict(f) == Some(RequiredMessage)
  {
  }

  /** A field that is not required and holds only white space passes. */
  lemma OptionalBlankPasses(f: Field)
    requires !f.required && AllSpace(f.value)
    ensures Verdict(f) == None
  {
  }

  /** An email field with content passes exactly when its trimmed value
      matches the email expression; otherwise it gets the email message. */
  lemma EmailRule(f: Field)
    requires f.kind == "email" && !AllSpace(f.value)
    ensures Verdict(f) == None <==> EmailRegex(Trim(f.value))
    ensures Verdict(f) != None ==> Verdict(f) == Some(EmailMessage)
  {
  }

  /** A phone field (not of type email) with content passes exactly when
      its trimmed value, white space removed, matches the phone expression. */
  lemma PhoneRule(f: Field)
    requires f.kind != "email" && f.name == "phone" && !AllSpace(f.value)
    ensures Verdict(f) == None <==> PhoneRegex(RemoveSpaces(Trim(f.value)))
    ensures Verdict(f) != None ==> Verdict(f) == Some(PhoneMessage)
  {
  }

  /** A name field (not of type email) with content passes exactly when its
      trimmed value is at least two UTF-16 code units long; without astral
      characters that is at least two characters. */
  lemma NameRule(f: Field)
    requires f.kind != "email" && f.name == "name" && !AllSpace(f.value)
    ensures Verdict(f) == None <==> Utf16Length(Trim(f.value)) >= 2
    ensures NoAstral(Trim(f.value)) ==> (Verdict(f) == None <==> |Trim(f.value)| >= 2)
    ensures Verdict(f) != None ==> Verdict(f) == Some(NameMessage)
  {
    Utf16LengthBounds(Trim(f.value));
  }

  /** A name of one astral character (an emoji, say) is two code units long,
      so it passes the name rule. */
  lemma AstralNamePasses(f: Field, c: char)
    requires f.kind != "email" && f.name == "name" && f.value == [c] && Astral(c)
    ensures Verdict(f) == None
  {
    assert !IsSpace(c);
    TrimUnique([c], [], [c], []);
  }

  /** Fields with no rule of their own pass once they hold something. */
  lemma UnruledFieldPasses(f: Field)
    requires f.kind != "email" && f.name != "phone" && f.name != "name" && !AllSpace(f.value)
    ensures Verdict(f) == None
  {
  }

  /** Surrounding white space never changes the verdict. */
  lemma {:induction false} PaddingIgnored(f: Field, pad: string)
    requires AllSpace(pad)
    ensures Verdict(f.(value := pad + f.value + pad)) == Verdict(f)
  {
    TrimPadded(f.value, pad);
  }
}
