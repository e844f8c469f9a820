/** Small value-level helpers shared by the modules of the model. */
module Common {

  datatype Option<T> = None | Some(value: T)

  /** The last `n` elements of `s` in their original order, or all of `s`
      when it is shorter: what `a.slice(-n)` gives for a positive `n`, and
      what a first-in-first-out buffer capped at `n` holds. */
  function LastN<T>(s: seq<T>, n: nat): (r: seq<T>)
    ensures |r| == if |s| < n then |s| else n
    ensures s == s[..|s| - |r|] + r
  {
    if |s| <= n then s else s[|s| - n..]
  }

  /** Keeping only the last `n` after every append gives the same buffer as
      keeping the last `n` of the whole history. */
  lemma LastNAppend<T>(s: seq<T>, x: T, n: nat)
    requires n > 0
    ensures LastN(LastN(s, n) + [x], n) == LastN(s + [x], n)
  {
    var t := LastN(s, n);
    if |s| >= n {
      assert t == s[|s| - n..];
      assert (t + [x])[1..] == s[|s| - n + 1..] + [x];
      assert (s + [x])[|s| + 1 - n..] == s[|s| - n + 1..] + [x];
    }
  }

  /** The larger of `start` and every element of `s`: `Math.max` folded
      over `s` from the left. */
  function RunningMax(start: int, s: seq<int>): (m: int)
    ensures m >= start
    ensures forall i :: 0 <= i < |s| ==> s[i] <= m
    ensures m == start || exists i :: 0 <= i < |s| && s[i] == m
  {
    if s == [] then start
    else
      var m := RunningMax(start, s[..|s| - 1]);
      if m >= s[|s| - 1] then m else s[|s| - 1]
  }

  /** One more observation raises the running maximum to it, if higher. */
  lemma RunningMaxSnoc(start: int, s: seq<int>, x: int)
    ensures RunningMax(start, s + [x]) == if x > RunningMax(start, s) then x else RunningMax(start, s)
  {
    assert (s + [x])[..|s|] == s;
  }

  /** Counts per key, folded from the left the way `events.reduce` builds
      `acc[key] = (acc[key] || 0) + 1`: a key is present exactly when it
      occurs, and its count is its number of occurrences. */
  function CountByKey(keys: seq<string>): (counts: map<string, nat>)
    ensures forall k :: k in counts <==> k in keys
    ensures forall k :: k in counts ==> counts[k] == multiset(keys)[k]
  {
    if keys == [] then map[]
    else
      var init := keys[..|keys| - 1];
      var k := keys[|keys| - 1];
      assert keys == init + [k];
      var counts := CountByKey(init);
      counts[k := (if k in counts then counts[k] else 0) + 1]
  }

  /** The sum of all counts in a map. */
  ghost function Total(m: map<string, nat>): nat
    decreases |m|
  {
    if m == map[] then 0
    else
      var k :| k in m;
      m[k] + Total(m - {k})
  }

  /** `Total` may single out any key, not only the one it happens to pick. */
  lemma {:induction false} TotalRemove(m: map<string, nat>, k: string)
    requires k in m
    ensures Total(m) == m[k] + Total(m - {k})
    decreases |m|
  {
    var j :| j in m && Total(m) == m[j] + Total(m - {j});
    if j != k {
      var mj := m - {j};
      var mk := m - {k};
      assert |mj| < |m| && |mk| < |m|;
      TotalRemove(mj, k);
      TotalRemove(mk, j);
      assert mj - {k} == mk - {j};
    }
  }

  /** Bumping one count raises the total by one. */
  lemma TotalBump(m: map<string, nat>, k: string)
    ensures Total(m[k := (if k in m then m[k] else 0) + 1]) == Total(m) + 1
  {
    var m' := m[k := (if k in m then m[k] else 0) + 1];
    TotalRemove(m', k);
    if k in m {
      TotalRemove(m, k);
      assert m' - {k} == m - {k};
    } else {
      assert m' - {k} == m;
    }
  }

  /** The counts sum to the number of keys counted. */
  lemma {:induction false} CountsSumToLength(keys: seq<string>)
    ensures Total(CountByKey(keys)) == |keys|
  {
    if keys != [] {
      var init := keys[..|keys| - 1];
      var k := keys[|keys| - 1];
      var c := CountByKey(init);
      assert CountByKey(keys) == c[k := (if k in c then c[k] else 0) + 1];
      CountsSumToLength(init);
      TotalBump(c, k);
    }
  }
}
