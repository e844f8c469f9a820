/** The threshold loops of the analytics layer (`trackScroll` and
    `trackTimeOnPage`): on each observation the list of thresholds is walked
    in order, and every threshold the value has reached that is not yet in
    the tracked set is added to it and reported. This module states what one
    walk and a run of walks report. */
module Milestones {

  /** Scroll-depth thresholds, in percent. */
  const ScrollMilestones: seq<int> := [25, 50, 75, 90, 100]

  /** Time-on-page thresholds, in seconds. */
  const TimeIntervals: seq<int> := [10, 30, 60, 120, 300]

  predicate Ascending(s: seq<int>) {
    forall i, j :: 0 <= i < j < |s| ==> s[i] < s[j]
  }

  predicate Distinct(s: seq<int>) {
    forall i, j :: 0 <= i < j < |s| ==> s[i] != s[j]
  }

  /** The thresholds one walk over `list` reports when the tracked set is
      `tracked` and the observed value is `v`, in the order it reports them.
      A threshold reported earlier in the same walk counts as tracked. */
  function Crossed(list: seq<int>, tracked: set<int>, v: int): (fired: seq<int>)
    ensures forall m :: m in fired <==> m in list && m <= v && m !in tracked
    ensures Distinct(fired)
    ensures Ascending(list) ==> Ascending(fired)
  {
    if list == [] then []
    else
      var m := list[0];
      if v >= m && m !in tracked then
        var rest := Crossed(list[1..], tracked + {m}, v);
        assert forall x :: x in list <==> x == m || x in list[1..];
        AscendingCons(list, rest);
        [m] + rest
      else
        var rest := Crossed(list[1..], tracked, v);
        assert forall x :: x in list <==> x == m || x in list[1..];
        AscendingCons(list, []);
        rest
  }

  /** The tail of an ascending list is ascending, and anything drawn from the
      tail can follow the head. */
  lemma AscendingCons(list: seq<int>, rest: seq<int>)
    requires list != [] && forall x :: x in rest ==> x in list[1..]
    ensures Ascending(list) ==> Ascending(list[1..])
    ensures Ascending(list) && Ascending(rest) ==> Ascending([list[0]] + rest)
  {
    if Ascending(list) {
      forall i, j | 0 <= i < j < |list[1..]| ensures list[1..][i] < list[1..][j] {
        assert list[1..][i] == list[i + 1] && list[1..][j] == list[j + 1];
      }
      if Ascending(rest) {
        var r := [list[0]] + rest;
        forall i, j | 0 <= i < j < |r| ensures r[i] < r[j] {
          if i == 0 {
            assert r[j] == rest[j - 1] && rest[j - 1] in rest;
            var k :| 0 <= k < |list[1..]| && list[1..][k] == r[j];
            assert list[k + 1] == r[j];
          } else {
            assert r[i] == rest[i - 1] && r[j] == rest[j - 1];
          }
        }
      }
    }
  }

  /** The tracked set after one walk. */
  function Reach(list: seq<int>, tracked: set<int>, v: int): (r: set<int>)
    ensures tracked <= r
    ensures forall m :: m in r <==> m in tracked || (m in list && m <= v)
  {
    tracked + set m | m in list && m <= v
  }

  /** Appending a threshold to the list appends it to what the walk reports
      exactly when the value reaches it and neither the tracked set nor the
      shorter list holds it. */
  lemma {:induction false} CrossedSnoc(list: seq<int>, m: int, tracked: set<int>, v: int)
    ensures Crossed(list + [m], tracked, v)
      == Crossed(list, tracked, v) + (if v >= m && m !in tracked && m !in list then [m] else [])
  {
    if list == [] {
      assert [m][1..] == [];
    } else {
      var x := list[0];
      var rest := list[1..];
      assert (list + [m])[0] == x && (list + [m])[1..] == rest + [m];
      assert m in list <==> m == x || m in rest;
      if v >= x && x !in tracked {
        CrossedSnoc(rest, m, tracked + {x}, v);
      } else {
        CrossedSnoc(rest, m, tracked, v);
      }
    }
  }

  /** Walking from the thresholds below `lo` leaves tracked those below the
      larger of `lo` and the value. */
  lemma ReachBelow(list: seq<int>, lo: int, v: int)
    ensures Reach(list, Below(list, lo), v) == Below(list, if v > lo then v else lo)
  {
  }

  /** Everything a run of walks reports, one walk per observed value. */
  function FiredOver(list: seq<int>, tracked: set<int>, vs: seq<int>): seq<int>
    decreases |vs|
  {
    if vs == [] then []
    else Crossed(list, tracked, vs[0]) + FiredOver(list, Reach(list, tracked, vs[0]), vs[1..])
  }

  /** Over any run, no threshold is reported twice and none that was already
      tracked is reported at all. */
  lemma {:induction false} ReportedAtMostOnce(list: seq<int>, tracked: set<int>, vs: seq<int>)
    ensures Distinct(FiredOver(list, tracked, vs))
    ensures forall m :: m in FiredOver(list, tracked, vs) ==> m in list && m !in tracked
    decreases |vs|
  {
    if vs != [] {
      var f := Crossed(list, tracked, vs[0]);
      var t := Reach(list, tracked, vs[0]);
      ReportedAtMostOnce(list, t, vs[1..]);
      var g := FiredOver(list, t, vs[1..]);
      assert FiredOver(list, tracked, vs) == f + g;
      forall i, j | 0 <= i < j < |f + g| ensures (f + g)[i] != (f + g)[j] {
        if i < |f| && j >= |f| {
          assert (f + g)[i] in f && (f + g)[j] in g;
        }
      }
    }
  }

  /** The thresholds of `list` in `(lo, hi]`, in list order. */
  function Between(list: seq<int>, lo: int, hi: int): seq<int> {
    if list == [] then []
    else if lo < list[0] <= hi then [list[0]] + Between(list[1..], lo, hi)
    else Between(list[1..], lo, hi)
  }

  /** The thresholds of `list` at or below `v`. */
  function Below(list: seq<int>, v: int): set<int> {
    set m | m in list && m <= v
  }

  /** On a list without repetitions, a walk from the tracked set `Below(list, lo)`
      reports exactly the thresholds in `(lo, v]`. */
  lemma {:induction false} CrossedFromBelow(list: seq<int>, tracked: set<int>, lo: int, v: int)
    requires Distinct(list)
    requires forall m :: m in list ==> (m in tracked <==> m <= lo)
    ensures Crossed(list, tracked, v) == Between(list, lo, v)
  {
    if list != [] {
      var m := list[0];
      assert Distinct(list[1..]) by {
        forall i, j | 0 <= i < j < |list[1..]| ensures list[1..][i] != list[1..][j] {
          assert list[1..][i] == list[i + 1] && list[1..][j] == list[j + 1];
        }
      }
      assert forall x :: x in list[1..] ==> x in list && x != m by {
        forall x | x in list[1..] ensures x in list && x != m {
          var k :| 0 <= k < |list[1..]| && list[1..][k] == x;
          assert list[k + 1] == x;
        }
      }
      if v >= m && m !in tracked {
        CrossedFromBelow(list[1..], tracked + {m}, lo, v);
      } else {
        CrossedFromBelow(list[1..], tracked, lo, v);
      }
    }
  }

  /** Splitting an ascending list's window `(a, c]` at `b`. */
  lemma {:induction false} BetweenSplit(list: seq<int>, a: int, b: int, c: int)
    requires Ascending(list) && a <= b <= c
    ensures Between(list, a, b) + Between(list, b, c) == Between(list, a, c)
  {
    if list != [] {
      var m := list[0];
      assert Ascending(list[1..]) by {
        forall i, j | 0 <= i < j < |list[1..]| ensures list[1..][i] < list[1..][j] {
          assert list[1..][i] == list[i + 1] && list[1..][j] == list[j + 1];
        }
      }
      BetweenSplit(list[1..], a, b, c);
      if m > b {
        BetweenEmpty(list[1..], a, b, m);
      }
    }
  }

  lemma {:induction false} BetweenEmpty(list: seq<int>, a: int, b: int, floor: int)
    requires forall x :: x in list ==> x > floor
    requires b <= floor
    ensures Between(list, a, b) == []
  {
    if list != [] {
      assert list[0] in list;
      assert forall x :: x in list[1..] ==> x in list;
      BetweenEmpty(list[1..], a, b, floor);
    }
  }

  /** Ascending is established pair of neighbours by pair of neighbours. */
  lemma {:induction false} StepwiseAscending(s: seq<int>)
    requires forall i :: 0 <= i < |s| - 1 ==> s[i] < s[i + 1]
    ensures Ascending(s)
  {
    if |s| > 1 {
      var t := s[1..];
      forall i | 0 <= i < |t| - 1 ensures t[i] < t[i + 1] {
        assert t[i] == s[i + 1] && t[i + 1] == s[i + 2];
      }
      StepwiseAscending(t);
      forall i, j | 0 <= i < j < |s| ensures s[i] < s[j] {
        if i > 0 {
          assert s[i] == t[i - 1] && s[j] == t[j - 1];
        } else if j > 1 {
          assert s[1] == t[0] && s[j] == t[j - 1];
        }
      }
    }
  }

  predicate NonDecreasing(vs: seq<int>) {
    forall i, j :: 0 <= i < j < |vs| ==> vs[i] <= vs[j]
  }

  /** When the observed values never go down, a run starting from the tracked
      set `Below(list, lo)` reports every threshold in `(lo, last]` once, in
      ascending order, where `last` is the final value observed. */
  lemma {:induction false} MonotoneRun(list: seq<int>, lo: int, vs: seq<int>)
    requires Ascending(list) && NonDecreasing(vs) && vs != []
    ensures FiredOver(list, Below(list, lo), vs) == Between(list, lo, vs[|vs| - 1])
    decreases |vs|
  {
    var v := vs[0];
    var hi := if v > lo then v else lo;
    var tail := vs[1..];
    assert Distinct(list);
    CrossedFromBelow(list, Below(list, lo), lo, v);
    assert Reach(list, Below(list, lo), v) == Below(list, hi);
    if v <= lo {
      BetweenEmptyWindow(list, lo, v);
    }
    if tail == [] {
      assert FiredOver(list, Below(list, hi), tail) == [];
    } else {
      assert NonDecreasing(tail) by {
        forall i, j | 0 <= i < j < |tail| ensures tail[i] <= tail[j] {
          assert tail[i] == vs[i + 1] && tail[j] == vs[j + 1];
        }
      }
      MonotoneRun(list, hi, tail);
      assert tail[|tail| - 1] == vs[|vs| - 1] && vs[0] <= vs[|vs| - 1];
      if v > lo {
        BetweenSplit(list, lo, v, vs[|vs| - 1]);
      }
    }
  }

  lemma {:induction false} BetweenEmptyWindow(list: seq<int>, lo: int, hi: int)
    requires hi <= lo
    ensures Between(list, lo, hi) == []
  {
    if list != [] {
      BetweenEmptyWindow(list[1..], lo, hi);
    }
  }

  /** From a fresh page (nothing tracked), a run whose observed values never
      go down reports each positive threshold the final value has reached,
      once each, in ascending order. */
  lemma RunFromStart(list: seq<int>, vs: seq<int>)
    requires Ascending(list) && forall m :: m in list ==> m > 0
    requires NonDecreasing(vs) && vs != []
    ensures FiredOver(list, {}, vs) == Between(list, 0, vs[|vs| - 1])
  {
    assert Below(list, 0) == {};
    MonotoneRun(list, 0, vs);
  }

  /** Both threshold lists qualify for `RunFromStart`. */
  lemma ThresholdListsAscending()
    ensures Ascending(ScrollMilestones) && forall m :: m in ScrollMilestones ==> m > 0
    ensures Ascending(TimeIntervals) && forall m :: m in TimeIntervals ==> m > 0
  {
    var s := ScrollMilestones;
    assert forall i :: 0 <= i < |s| - 1 ==> s[i] < s[i + 1];
    StepwiseAscending(s);
    var t := TimeIntervals;
    assert forall i :: 0 <= i < |t| - 1 ==> t[i] < t[i + 1];
    StepwiseAscending(t);
  }
}
