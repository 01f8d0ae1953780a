/** The dashboard's focus (Pomodoro) timer: a countdown that alternates
    between a 25-minute focus period and a 5-minute break. The page keeps it
    in four state cells and changes them from a one-second tick, the two mode
    buttons and the start/pause button. */
module Pomodoro {
  import opened Text

  datatype Mode = Focus | Break

  /** The minutes a mode starts with. */
  function Duration(m: Mode): nat {
    match m
    case Focus => 25
    case Break => 5
  }

  /** The mode that follows `m` when its countdown elapses. */
  function Other(m: Mode): Mode {
    match m
    case Focus => Break
    case Break => Focus
  }

  /** A snapshot of the four state cells. */
  datatype TimerState = TimerState(mode: Mode, minutes: int, seconds: int, running: bool)

  /** The state the page starts in: focus, 25:00, paused. */
  const Initial := TimerState(Focus, 25, 0, false)

  /** The bounds every reachable state keeps. */
  predicate InRange(t: TimerState) {
    0 <= t.seconds <= 59 && 0 <= t.minutes <= 25
  }

  /** The countdown value in seconds. */
  function Remaining(t: TimerState): int {
    60 * t.minutes + t.seconds
  }

  /** The effect of one tick of the interval. No interval is registered while
      the timer is paused, so a paused state is left as it is. A running state
      counts down by one second; at 0:00 the timer stops and loads the other
      mode's full duration. */
  function NextTick(t: TimerState): (r: TimerState)
    ensures !t.running ==> r == t
    ensures t.running && t.seconds >= 0 && Remaining(t) > 0 ==>
              r.mode == t.mode && r.running && r.seconds >= 0 && Remaining(r) == Remaining(t) - 1
    ensures t.running && t.minutes <= 0 && t.seconds <= 0 ==>
              !r.running && r.mode != t.mode && r.minutes == Duration(r.mode) && r.seconds == t.seconds
    ensures InRange(t) ==> InRange(r)
  {
    if !t.running then t
    else if t.seconds > 0 then t.(seconds := t.seconds - 1)
    else if t.minutes > 0 then t.(minutes := t.minutes - 1, seconds := 59)
    else TimerState(Other(t.mode), Duration(Other(t.mode)), t.seconds, false)
  }

  /** The Focus and Break buttons: a hard reset into mode `m`, paused, that
      discards whatever the state was before. */
  function ResetTo(m: Mode): (r: TimerState)
    ensures r.mode == m && r.minutes == Duration(m) && r.seconds == 0 && !r.running
    ensures InRange(r)
  {
    TimerState(m, Duration(m), 0, false)
  }

  /** The start/pause button: only `running` changes. */
  function Toggled(t: TimerState): (r: TimerState)
    ensures r.running != t.running
    ensures r.mode == t.mode && r.minutes == t.minutes && r.seconds == t.seconds
  {
    t.(running := !t.running)
  }

  /** Pressing start/pause twice restores the state. */
  lemma StartPauseTwice(t: TimerState)
    ensures Toggled(Toggled(t)) == t
  {
  }

  /** Everything that can happen to the timer. */
  datatype Event = Second | FocusButton | BreakButton | StartPauseButton

  function Apply(t: TimerState, e: Event): TimerState {
    match e
    case Second => NextTick(t)
    case FocusButton => ResetTo(Focus)
    case BreakButton => ResetTo(Break)
    case StartPauseButton => Toggled(t)
  }

  /** The state after the events `es`, in order. */
  function Run(t: TimerState, es: seq<Event>): TimerState
    decreases |es|
  {
    if es == [] then t else Run(Apply(t, es[0]), es[1..])
  }

  /** No sequence of events leaves the bounds. */
  lemma {:induction false} RunInRange(t: TimerState, es: seq<Event>)
    requires InRange(t)
    ensures InRange(Run(t, es))
    decreases |es|
  {
    if es != [] {
      RunInRange(Apply(t, es[0]), es[1..]);
    }
  }

  /** Every state reachable from the initial one has 0 <= seconds <= 59 and
      0 <= minutes <= 25. */
  lemma ReachableInRange(es: seq<Event>)
    ensures InRange(Run(Initial, es))
  {
    RunInRange(Initial, es);
  }

  /** `n` consecutive ticks. */
  function Ticks(t: TimerState, n: nat): TimerState
    decreases n
  {
    if n == 0 then t else Ticks(NextTick(t), n - 1)
  }

  /** Ticks do nothing while the timer is paused. */
  lemma {:induction false} PausedTicks(t: TimerState, n: nat)
    requires !t.running
    ensures Ticks(t, n) == t
    decreases n
  {
    if n > 0 {
      PausedTicks(t, n - 1);
    }
  }

  /** One more tick after `n` ticks. */
  lemma {:induction false} TicksStep(t: TimerState, n: nat)
    ensures Ticks(t, n + 1) == NextTick(Ticks(t, n))
    decreases n
  {
    if n > 0 {
      TicksStep(NextTick(t), n - 1);
    }
  }

  /** A running countdown reaches 0:00, still running and in the same mode,
      after exactly as many ticks as it has seconds remaining. */
  lemma {:induction false} CountdownReachesZero(t: TimerState, n: nat)
    requires t.running && t.minutes >= 0 && t.seconds >= 0 && Remaining(t) == n
    ensures Ticks(t, n) == TimerState(t.mode, 0, 0, true)
    decreases n
  {
    if n > 0 {
      var u := NextTick(t);
      assert u.minutes >= 0;
      CountdownReachesZero(u, n - 1);
    }
  }

  /** Started from the initial state, the timer shows 0:00 after 1500 ticks
      and has switched to a paused 5-minute break after 1501. */
  lemma FocusSession()
    ensures Ticks(Toggled(Initial), 1500) == TimerState(Focus, 0, 0, true)
    ensures Ticks(Toggled(Initial), 1501) == TimerState(Break, 5, 0, false)
  {
    CountdownReachesZero(Toggled(Initial), 1500);
    TicksStep(Toggled(Initial), 1500);
  }

  /** `String(n).padStart(2, "0")`. */
  function Pad2(n: nat): string {
    PadStart(Decimal(n), 2, '0')
  }

  /** The clock face, minutes and seconds each padded to two digits. */
  function Clock(minutes: nat, seconds: nat): string {
    Pad2(minutes) + ":" + Pad2(seconds)
  }

  /** A number below 100 padded to two digits reads back as itself. */
  lemma Pad2ReadsBack(n: nat)
    requires n < 100
    ensures |Pad2(n)| == 2 && AllDigits(Pad2(n)) && ParseDecimal(Pad2(n)) == n
  {
    var d := Decimal(n);
    if n < 10 {
      var p := Pad2(n);
      assert p == ['0'] + d;
      assert p[..1] == ['0'];
    }
  }

  /** For values below 100 the clock face is five characters with the colon
      in the middle, and each half reads back as the number it shows. */
  lemma ClockReadsBack(minutes: nat, seconds: nat)
    requires minutes < 100 && seconds < 100
    ensures |Clock(minutes, seconds)| == 5 && Clock(minutes, seconds)[2] == ':'
    ensures Clock(minutes, seconds)[..2] == Pad2(minutes) && Clock(minutes, seconds)[3..] == Pad2(seconds)
    ensures AllDigits(Pad2(minutes)) && ParseDecimal(Pad2(minutes)) == minutes
    ensures AllDigits(Pad2(seconds)) && ParseDecimal(Pad2(seconds)) == seconds
  {
    Pad2ReadsBack(minutes);
    Pad2ReadsBack(seconds);
    Halves(Pad2(minutes), Pad2(seconds));
  }

  /** The two halves of a two-character string, a colon and another
      two-character string. */
  lemma Halves(m: string, s: string)
    requires |m| == 2 && |s| == 2
    ensures var r := m + ":" + s;
            |r| == 5 && r[2] == ':' && r[..2] == m && r[3..] == s
  {
    var r := m + ":" + s;
    assert r[..2] == m;
    assert r[3..] == s;
  }

  /** The four state cells of the page. */
  class Timer {
    var mode: Mode
    var minutes: int
    var seconds: int
    var running: bool

    function State(): TimerState
      reads this
    {
      TimerState(mode, minutes, seconds, running)
    }

    ghost predicate Valid()
      reads this
    {
      InRange(State())
    }

    constructor ()
      ensures Valid() && State() == Initial
    {
      mode, minutes, seconds, running := Focus, 25, 0, false;
    }

    /** The interval callback, run once per second while running. */
    method Tick()
      requires Valid()
      modifies this
      ensures Valid() && State() == NextTick(old(State()))
    {
      if !running {
        return;
      }
      if seconds > 0 {
        seconds := seconds - 1;
      } else if minutes > 0 {
        minutes := minutes - 1;
        seconds := 59;
      } else {
        running := false;
        if mode == Focus {
          mode := Break;
          minutes := 5;
        } else {
          mode := Focus;
          minutes := 25;
        }
      }
    }

    /** The Focus button (`m == Focus`) or the Break button (`m == Break`). */
    method SelectMode(m: Mode)
      modifies this
      ensures Valid() && State() == ResetTo(m)
    {
      mode := m;
      minutes := Duration(m);
      seconds := 0;
      running := false;
    }

    /** The start/pause button. */
    method StartPause()
      requires Valid()
      modifies this
      ensures Valid() && State() == Toggled(old(State()))
    {
      running := !running;
    }

    /** The text the page shows for the countdown. */
    function Display(): (r: string)
      reads this
      requires Valid()
      ensures |r| == 5 && r[2] == ':'
      ensures r[..2] == Pad2(minutes) && r[3..] == Pad2(seconds)
    {
      ClockReadsBack(minutes, seconds);
      Clock(minutes, seconds)
    }
  }
}
