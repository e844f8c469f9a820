/** The offer countdown of the landing page (`updateCountdown`): three
    counters read from the page once, decremented every second with
    borrowing from minutes and hours, restarted at 5:00:00 after 0:00:00,
    and written back as two-digit texts. */
module Countdown {
  import opened Text

  /** The three counters the interval callback closes over. */
  datatype Clock = Clock(hours: int, minutes: int, seconds: int)

  /** The hours the countdown restarts from. */
  const RestartHours := 5

  /** One run of the callback's arithmetic. */
  function Step(c: Clock): Clock {
    var s := c.seconds - 1;
    if s >= 0 then Clock(c.hours, c.minutes, s)
    else
      var m := c.minutes - 1;
      if m >= 0 then Clock(c.hours, m, 59)
      else
        var h := c.hours - 1;
        if h >= 0 then Clock(h, 59, 59)
        else Clock(RestartHours, 0, 0)
  }

  /** No counter is negative. */
  predicate NonNegative(c: Clock) {
    c.hours >= 0 && c.minutes >= 0 && c.seconds >= 0
  }

  /** Minutes and seconds are below 60. */
  predicate InRange(c: Clock) {
    NonNegative(c) && c.minutes < 60 && c.seconds < 60
  }

  /** The time left, in seconds. */
  function ToSeconds(c: Clock): int {
    c.hours * 3600 + c.minutes * 60 + c.seconds
  }

  /** The in-range clock showing `t` seconds. */
  function FromSeconds(t: nat): (c: Clock)
    ensures InRange(c)
  {
    Clock(t / 3600, t % 3600 / 60, t % 60)
  }

  /** `FromSeconds` undoes `ToSeconds` on in-range clocks. */
  lemma FromToSeconds(c: Clock)
    requires InRange(c)
    ensures FromSeconds(ToSeconds(c)) == c
  {
    var t, below := ToSeconds(c), c.minutes * 60 + c.seconds;
    var h, r := t / 3600, t % 3600;
    assert t == h * 3600 + r && t == c.hours * 3600 + below;
    assert h == c.hours && r == below;
    var m, s := r / 60, r % 60;
    assert r == m * 60 + s;
    assert m == c.minutes && s == c.seconds;
  }

  /** `ToSeconds` undoes `FromSeconds`. */
  lemma ToFromSeconds(t: nat)
    ensures ToSeconds(FromSeconds(t)) == t
  {
    var h, r := t / 3600, t % 3600;
    var m, s := r / 60, r % 60;
    assert FromSeconds(t) == Clock(h, m, s);
    assert t == h * 3600 + r;
    assert r == m * 60 + s;
  }

  /** Each tick takes one second off a clock with no negative counter, and a
      clock at zero restarts at 5:00:00; a tick keeps counters non-negative
      and keeps an in-range clock in range. */
  lemma StepSpec(c: Clock)
    requires NonNegative(c)
    ensures ToSeconds(c) > 0 ==> ToSeconds(Step(c)) == ToSeconds(c) - 1
    ensures ToSeconds(c) == 0 ==> Step(c) == Clock(RestartHours, 0, 0)
    ensures NonNegative(Step(c))
    ensures InRange(c) ==> InRange(Step(c))
  {
  }

  /** `n` ticks in a row. */
  function Iterate(c: Clock, n: nat): Clock
    decreases n
  {
    if n == 0 then c else Iterate(Step(c), n - 1)
  }

  /** A clock with no negative counter reaches 0:00:00 after exactly as many
      ticks as it has seconds left, and the next tick restarts it at
      5:00:00. */
  lemma RunsOutThenRestarts(c: Clock)
    requires NonNegative(c)
    ensures ToSeconds(c) >= 0
    ensures Iterate(c, ToSeconds(c)) == Clock(0, 0, 0)
    ensures Iterate(c, ToSeconds(c) + 1) == Clock(RestartHours, 0, 0)
  {
    RunsOut(c);
    IterateSnoc(c, ToSeconds(c));
  }

  lemma {:induction false} RunsOut(c: Clock)
    requires NonNegative(c)
    ensures ToSeconds(c) >= 0 && Iterate(c, ToSeconds(c)) == Clock(0, 0, 0)
    decreases ToSeconds(c)
  {
    StepSpec(c);
    if ToSeconds(c) > 0 {
      RunsOut(Step(c));
    }
  }

  /** One more tick after `n` ticks. */
  lemma {:induction false} IterateSnoc(c: Clock, n: nat)
    ensures Iterate(c, n + 1) == Step(Iterate(c, n))
    decreases n
  {
    if n > 0 {
      IterateSnoc(Step(c), n - 1);
    }
  }

  /** `String(n).padStart(2, '0')`. */
  function Pad2(n: int): string {
    PadStart(IntToString(n), 2, '0')
  }

  /** The text written for a counter reads back as the same number (what
      `parseInt` sees if the countdown is started again), and it is two
      characters for values below 100. */
  lemma Pad2RoundTrip(n: int)
    requires n >= 0
    ensures AllDigits(Pad2(n)) && DigitsValue(Pad2(n)) == n
    ensures n < 100 ==> |Pad2(n)| == 2
  {
    var d := NatToString(n);
    assert IntToString(n) == d;
    if n < 10 {
      assert Pad2(n) == "0" + d;
      LeadingZeros("0", d);
    } else {
      var p := NatToString(n / 10);
      assert d == p + [DigitChar(n % 10)];
      assert Pad2(n) == d;
      if n < 100 {
        assert p == [DigitChar(n / 10)];
      }
    }
  }

  /** The countdown widget: the counters and the texts of the three
      `countdown-*` elements. */
  class Countdown {
    var clock: Clock
    var hoursText: string
    var minutesText: string
    var secondsText: string

    /** The counters `parseInt` read from the page; the elements show them
        padded, as the markup does (`05`, `00`, `00`). */
    constructor (hours: int, minutes: int, seconds: int)
      ensures clock == Clock(hours, minutes, seconds)
      ensures hoursText == Pad2(hours) && minutesText == Pad2(minutes) && secondsText == Pad2(seconds)
    {
      clock := Clock(hours, minutes, seconds);
      hoursText := Pad2(hours);
      minutesText := Pad2(minutes);
      secondsText := Pad2(seconds);
    }

    /** One run of the interval callback: the counters take one step and the
        three texts show them. */
    method Tick()
      modifies this
      ensures clock == Step(old(clock))
      ensures hoursText == Pad2(clock.hours) && minutesText == Pad2(clock.minutes)
      ensures secondsText == Pad2(clock.seconds)
    {
      var hours, minutes, seconds := clock.hours, clock.minutes, clock.seconds;
      seconds := seconds - 1;
      if seconds < 0 {
        seconds := 59;
        minutes := minutes - 1;
        if minutes < 0 {
          minutes := 59;
          hours := hours - 1;
          if hours < 0 {
            hours := RestartHours;
            minutes := 0;
            seconds := 0;
          }
        }
      }
      clock := Clock(hours, minutes, seconds);
      Show();
    }

    /** The three elements are given the counters' two-digit texts. */
    method Show()
      modifies this`hoursText, this`minutesText, this`secondsText
      ensures hoursText == Pad2(clock.hours) && minutesText == Pad2(clock.minutes)
      ensures secondsText == Pad2(clock.seconds)
    {
      hoursText := Pad2(clock.hours);
      minutesText := Pad2(clock.minutes);
      secondsText := Pad2(clock.seconds);
    }
  }
}
