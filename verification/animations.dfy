/** State kept by the decorative animations: the mouse trail's recent
    points, the hue counter of the animated gradients, and the
    `requestAnimationFrame` throttle of the scroll effects. */
module Animations {
  import opened Common

  /** One `mousemove` sample: the pointer position and `Date.now()`. */
  datatype TrailPoint = TrailPoint(x: int, y: int, time: int)

  const MaxTrailLength := 10

  /** The `trail` array of `createMouseTrail`'s handler. */
  class MouseTrail {
    var trail: seq<TrailPoint>
    /** Every point the handler has received, oldest first. */
    ghost var moves: seq<TrailPoint>

    /** The trail is the last ten points received. */
    ghost predicate Valid()
      reads this
    {
      trail == LastN(moves, MaxTrailLength)
    }

    constructor ()
      ensures trail == [] && moves == []
      ensures Valid()
    {
      trail := [];
      moves := [];
    }

    /** The `mousemove` handler: push the point, then drop the oldest one
        when the trail has grown past ten. */
    method OnMouseMove(p: TrailPoint)
      requires Valid()
      modifies this
      ensures moves == old(moves) + [p]
      ensures Valid()
      ensures |trail| <= MaxTrailLength && trail[|trail| - 1] == p
    {
      LastNAppend(moves, p, MaxTrailLength);
      moves := moves + [p];
      trail := trail + [p];
      if |trail| > MaxTrailLength {
        trail := trail[1..];
      }
      assert trail == LastN(trail, MaxTrailLength);
    }
  }

  /** The `hue` counter of one animated gradient element. */
  class GradientHue {
    var hue: int
    /** How many times the interval has fired. */
    ghost var ticks: nat

    /** The hue is the number of ticks modulo 360. */
    ghost predicate Valid()
      reads this
    {
      hue == ticks % 360
    }

    constructor ()
      ensures hue == 0 && ticks == 0
      ensures Valid()
    {
      hue := 0;
      ticks := 0;
    }

    /** One interval tick: `hue = (hue + 1) % 360`. */
    method Tick()
      requires Valid()
      modifies this
      ensures ticks == old(ticks) + 1
      ensures Valid()
      ensures 0 <= hue < 360
      ensures hue == if old(hue) == 359 then 0 else old(hue) + 1
    {
      hue := (hue + 1) % 360;
      ticks := ticks + 1;
    }
  }

  /** What reaches the scroll throttle: a `scroll` event, or the requested
      frame running. */
  datatype ScrollInput = Scroll | Frame

  /** Whether a frame is requested and not yet run after a run of inputs
      that started with `ticking`: a scroll sets it and a frame clears it. */
  function TickingAfter(ticking: bool, inputs: seq<ScrollInput>): bool {
    if inputs == [] then ticking else inputs[|inputs| - 1] == Scroll
  }

  /** How many frames a run of inputs requests, starting with `ticking`:
      a scroll requests one only when none is outstanding. */
  function Requests(ticking: bool, inputs: seq<ScrollInput>): nat
    decreases |inputs|
  {
    if inputs == [] then 0
    else
      var init := inputs[..|inputs| - 1];
      Requests(ticking, init)
        + (if inputs[|inputs| - 1] == Scroll && !TickingAfter(ticking, init) then 1 else 0)
  }

  /** How many frames run in a run of inputs. */
  function Frames(inputs: seq<ScrollInput>): nat
    decreases |inputs|
  {
    if inputs == [] then 0
    else Frames(inputs[..|inputs| - 1]) + (if inputs[|inputs| - 1] == Frame then 1 else 0)
  }

  /** However many scroll events arrive, each frame that runs allows at most
      one more request: the requests, plus the one outstanding at the start,
      never exceed the frames run plus the one outstanding at the end. So a
      run requests at most one frame more than it runs, and none more when a
      frame was already outstanding. */
  lemma {:induction false} ScrollCoalesced(ticking: bool, inputs: seq<ScrollInput>)
    ensures Requests(ticking, inputs) + (if ticking then 1 else 0)
      <= Frames(inputs) + (if TickingAfter(ticking, inputs) then 1 else 0)
    ensures Requests(ticking, inputs) <= Frames(inputs) + (if ticking then 0 else 1)
    decreases |inputs|
  {
    if inputs != [] {
      ScrollCoalesced(ticking, inputs[..|inputs| - 1]);
    }
  }

  /** A burst of scroll events with no frame in between requests one frame. */
  lemma {:induction false} BurstRequestsOnce(n: nat)
    requires n > 0
    ensures Requests(false, seq(n, _ => Scroll)) == 1
    decreases n
  {
    var s := seq(n, _ => Scroll);
    assert s[..n - 1] == seq(n - 1, _ => Scroll);
    if n > 1 {
      BurstRequestsOnce(n - 1);
    }
  }

  /** The scroll handler's throttle: `ticking` is set while an animation
      frame is requested and has not run yet. */
  class ScrollEffects {
    var lastScrollY: int
    var ticking: bool
    /** The scroll events and frames so far, in order. */
    ghost var history: seq<ScrollInput>
    /** How many frames `onScroll` has requested. */
    ghost var requested: nat

    /** `ticking` says whether the last input was a scroll, the requests are
        those of the history, and every request but the outstanding one has
        had its frame run. */
    ghost predicate Valid()
      reads this
    {
      && ticking == TickingAfter(false, history)
      && requested == Requests(false, history)
      && requested == Frames(history) + (if ticking then 1 else 0)
    }

    constructor (scrollY: int)
      ensures lastScrollY == scrollY && !ticking && history == [] && requested == 0
      ensures Valid()
    {
      lastScrollY := scrollY;
      ticking := false;
      history := [];
      requested := 0;
    }

    /** `onScroll`: request a frame unless one is already requested. */
    method OnScroll() returns (request: bool)
      requires Valid()
      modifies this`ticking, this`history, this`requested
      ensures request <==> !old(ticking)
      ensures requested == old(requested) + (if request then 1 else 0)
      ensures history == old(history) + [Scroll]
      ensures ticking
      ensures Valid()
    {
      assert (history + [Scroll])[..|history|] == history;
      history := history + [Scroll];
      request := false;
      if !ticking {
        request := true;
        requested := requested + 1;
        ticking := true;
      }
    }

    /** `updateScrollEffects`, run as the requested frame: remember the
        position and allow the next request. */
    method OnAnimationFrame(scrollY: int)
      requires Valid() && ticking
      modifies this`lastScrollY, this`ticking, this`history
      ensures history == old(history) + [Frame]
      ensures lastScrollY == scrollY && !ticking
      ensures Valid()
    {
      assert (history + [Frame])[..|history|] == history;
      history := history + [Frame];
      lastScrollY := scrollY;
      ticking := false;
    }
  }
}
