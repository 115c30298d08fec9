/** The session timer (components/PomodoroTimer.tsx): a FOCUS/BREAK countdown
    that recomputes the time left from an absolute deadline on every tick.

    As for the engagement tracker, the timer is given as a value with one
    transition function per handler, and as the class `PomodoroTimer` whose
    methods perform those transitions in place. A transition also says what
    the timer reported to its parent (`onStateChange`) and whether it invoked
    the completion callback (`onPomodoroComplete`). Times are milliseconds;
    `timeLeft` is in seconds. */
module Pomodoro {
  import opened Common
  import opened Types
  import opened Constants

  datatype Mode = FocusMode | BreakMode

  datatype TimerState = TimerState(mode: Mode, timeLeft: int, isActive: bool, targetTime: int)

  datatype Transition = Transition(state: TimerState, reported: Option<PomodoroState>, completed: bool)

  /** The state when the timer mounts. */
  function InitialTimer(): (s: TimerState)
    ensures s.mode == FocusMode && s.timeLeft == FocusDuration && !s.isActive
  {
    TimerState(FocusMode, FocusDuration, false, 0)
  }

  /** `Math.ceil(ms / 1000)` for a positive number of milliseconds. */
  function CeilSeconds(ms: int): (r: int)
    requires ms > 0
    ensures r >= 1 && (r - 1) * 1000 < ms <= r * 1000
  {
    (ms + 999) / 1000
  }

  /** switchMode: the phase is over. */
  function AfterSwitchMode(s: TimerState): (t: Transition)
    ensures !t.state.isActive && t.reported == Some(Stopped)
    ensures t.completed <==> s.mode == FocusMode
    ensures s.mode == FocusMode ==> t.state.mode == BreakMode && t.state.timeLeft == BreakDuration
    ensures s.mode == BreakMode ==> t.state.mode == FocusMode && t.state.timeLeft == FocusDuration
    ensures t.state.targetTime == s.targetTime
  {
    match s.mode
    case FocusMode => Transition(TimerState(BreakMode, BreakDuration, false, s.targetTime), Some(Stopped), true)
    case BreakMode => Transition(TimerState(FocusMode, FocusDuration, false, s.targetTime), Some(Stopped), false)
  }

  /** One run of the one-second interval. The interval only exists while the
      timer is active, so a tick of an inactive timer changes nothing. */
  function AfterTick(s: TimerState, now: int): (t: Transition)
    ensures !s.isActive ==> t == Transition(s, None, false)
    // before the deadline: the time left is the remaining time rounded up to seconds
    ensures s.isActive && s.targetTime - now > 0 ==>
      t.reported.None? && !t.completed &&
      t.state.mode == s.mode && t.state.isActive && t.state.targetTime == s.targetTime &&
      (t.state.timeLeft - 1) * 1000 < s.targetTime - now <= t.state.timeLeft * 1000
    // at or after the deadline: the phase switches
    ensures s.isActive && s.targetTime - now <= 0 ==> t == AfterSwitchMode(s.(timeLeft := 0))
  {
    if !s.isActive then Transition(s, None, false)
    else
      var remainingTime := s.targetTime - now;
      if remainingTime <= 0 then AfterSwitchMode(s.(timeLeft := 0))
      else Transition(s.(timeLeft := CeilSeconds(remainingTime)), None, false)
  }

  /** handleStartPause */
  function AfterStartPause(s: TimerState, now: int): (t: Transition)
    ensures !t.completed
    // pausing keeps the time left and the phase
    ensures s.isActive ==> t.state == s.(isActive := false) && t.reported == Some(Paused)
    // starting sets the deadline and reports the phase
    ensures !s.isActive ==> t.state == s.(isActive := true, targetTime := now + s.timeLeft * 1000)
    ensures !s.isActive ==> t.reported == Some(if s.mode == FocusMode then Focus else Break)
  {
    if s.isActive then Transition(s.(isActive := false), Some(Paused), false)
    else
      Transition(s.(isActive := true, targetTime := now + s.timeLeft * 1000),
                 Some(if s.mode == FocusMode then Focus else Break), false)
  }

  /** handleReset: back to a full focus phase, stopped. */
  function AfterTimerReset(s: TimerState): (t: Transition)
    ensures t.state.mode == FocusMode && t.state.timeLeft == FocusDuration && !t.state.isActive
    ensures t.state.targetTime == s.targetTime
    ensures t.reported == Some(Stopped) && !t.completed
  {
    Transition(s.(isActive := false, mode := FocusMode, timeLeft := FocusDuration), Some(Stopped), false)
  }

  // ---------------------------------------------------------------------------
  // Runs of ticks

  datatype TickRun = TickRun(state: TimerState, completions: nat)

  /** The interval firing at each of the given times, in order. */
  function RunTicks(s: TimerState, times: seq<int>): TickRun
    decreases |times|
  {
    if times == [] then TickRun(s, 0)
    else
      var t := AfterTick(s, times[0]);
      var rest := RunTicks(t.state, times[1..]);
      TickRun(rest.state, rest.completions + if t.completed then 1 else 0)
  }

  lemma {:induction false} RunTicksAppend(s: TimerState, a: seq<int>, b: seq<int>)
    ensures RunTicks(s, a + b) ==
      TickRun(RunTicks(RunTicks(s, a).state, b).state,
              RunTicks(s, a).completions + RunTicks(RunTicks(s, a).state, b).completions)
    decreases |a|
  {
    if a == [] {
      assert a + b == b;
    } else {
      assert (a + b)[0] == a[0];
      assert (a + b)[1..] == a[1..] + b;
      RunTicksAppend(AfterTick(s, a[0]).state, a[1..], b);
    }
  }

  /** A stopped timer stays as it is, however many times a tick would fire. */
  lemma {:induction false} InactiveTicksChangeNothing(s: TimerState, times: seq<int>)
    requires !s.isActive
    ensures RunTicks(s, times) == TickRun(s, 0)
    decreases |times|
  {
    if times != [] {
      InactiveTicksChangeNothing(s, times[1..]);
    }
  }

  /** Ticks before the deadline, however late or irregular, keep the phase
      running and leave the time left at the rounded-up remaining time of the
      last tick. */
  lemma {:induction false} TicksBeforeDeadline(s: TimerState, times: seq<int>)
    requires s.isActive
    requires forall i :: 0 <= i < |times| ==> times[i] < s.targetTime
    ensures var r := RunTicks(s, times);
      r.completions == 0 && r.state.isActive && r.state.mode == s.mode && r.state.targetTime == s.targetTime &&
      (times == [] ==> r.state == s) &&
      (times != [] ==> r.state.timeLeft == CeilSeconds(s.targetTime - times[|times| - 1]))
    decreases |times|
  {
    if times != [] {
      var s' := AfterTick(s, times[0]).state;
      assert forall i :: 0 <= i < |times[1..]| ==> times[1..][i] == times[i + 1];
      TicksBeforeDeadline(s', times[1..]);
      if |times| > 1 {
        assert times[1..][|times[1..]| - 1] == times[|times| - 1];
      }
    }
  }

  /** The first tick at or after the deadline ends the phase: the completion
      callback has fired once if it was a focus phase and never if it was a
      break, and later ticks change nothing. */
  lemma DeadlineEndsPhaseOnce(s: TimerState, early: seq<int>, t: int, late: seq<int>)
    requires s.isActive
    requires forall i :: 0 <= i < |early| ==> early[i] < s.targetTime
    requires t >= s.targetTime
    ensures RunTicks(s, early + [t] + late) ==
      TickRun(AfterSwitchMode(s).state, if s.mode == FocusMode then 1 else 0)
  {
    TicksBeforeDeadline(s, early);
    var mid := RunTicks(s, early).state;
    RunTicksAppend(s, early, [t] + late);
    assert early + [t] + late == early + ([t] + late);
    RunTicksAppend(mid, [t], late);
    var ended := AfterTick(mid, t).state;
    assert RunTicks(mid, [t]) == TickRun(ended, if s.mode == FocusMode then 1 else 0);
    InactiveTicksChangeNothing(ended, late);
  }

  /** A focus session started from a fresh timer at t0, with the interval
      firing at t0, t0 + 1s, ..., t0 + 1500s: after the n-th tick the time
      left is 1501 - n (1500, 1499, ..., 1), then the completion callback fires exactly once and
      the timer stops in a full break phase. */
  lemma FullFocusSession(t0: int)
    ensures var s := AfterStartPause(InitialTimer(), t0).state;
      var times := seq(1501, k => t0 + 1000 * k);
      (forall n :: 1 <= n <= 1500 ==> RunTicks(s, times[..n]).state.timeLeft == 1501 - n) &&
      RunTicks(s, times) == TickRun(TimerState(BreakMode, BreakDuration, false, t0 + 1500000), 1)
  {
    var s := AfterStartPause(InitialTimer(), t0).state;
    var times := seq(1501, k => t0 + 1000 * k);
    assert s.targetTime == t0 + 1500000;
    forall n | 1 <= n <= 1500
      ensures RunTicks(s, times[..n]).state.timeLeft == 1501 - n
    {
      var prefix := times[..n];
      assert forall i :: 0 <= i < |prefix| ==> prefix[i] == t0 + 1000 * i;
      TicksBeforeDeadline(s, prefix);
      assert prefix[|prefix| - 1] == t0 + 1000 * (n - 1);
      var r := CeilSeconds(s.targetTime - (t0 + 1000 * (n - 1)));
      assert (r - 1) * 1000 < 1000 * (1501 - n) <= r * 1000;
    }
    var early := times[..1500];
    assert forall i :: 0 <= i < |early| ==> early[i] == t0 + 1000 * i;
    assert times == early + [t0 + 1500000] + [];
    DeadlineEndsPhaseOnce(s, early, t0 + 1500000, []);
  }

  /** Once started, a tick that does not end the phase never shows more time
      left than there was at the start, as long as the clock has not gone back. */
  lemma TimeLeftNeverExceedsStart(s: TimerState, start: int, now: int)
    requires !s.isActive && now >= start
    ensures var running := AfterStartPause(s, start).state;
      running.targetTime - now > 0 ==> AfterTick(running, now).state.timeLeft <= s.timeLeft
  {
  }

  /** Of two ticks before the deadline, the later never shows more time left. */
  lemma TimeLeftNonIncreasing(s: TimerState, earlier: int, later: int)
    requires s.isActive && earlier <= later < s.targetTime
    ensures AfterTick(s, later).state.timeLeft <= AfterTick(s, earlier).state.timeLeft
  {
  }

  // ---------------------------------------------------------------------------
  // formatTime

  function DigitChar(d: nat): (c: char)
    requires d < 10
    ensures '0' <= c <= '9' && c as int - '0' as int == d
  {
    "0123456789"[d]
  }

  /** `n.toString()` for a whole number: a non-empty digit string denoting n,
      one character below 10 and at most two below 100. */
  function NatToString(n: nat): (r: string)
    ensures 1 <= |r| && (n < 10 ==> |r| == 1) && (n < 100 ==> |r| <= 2)
    decreases n
  {
    if n < 10 then [DigitChar(n)]
    else
      var init := NatToString(n / 10);
      var r := init + [DigitChar(n % 10)];
      assert r[..|r| - 1] == init;
      r
  }

  /** The digits of `n.toString()` denote n. */
  lemma {:induction false} NatToStringDigits(n: nat)
    ensures IsDigits(NatToString(n)) && DigitsValue(NatToString(n)) == n
    decreases n
  {
    if n >= 10 {
      NatToStringDigits(n / 10);
      var s := NatToString(n);
      assert s[..|s| - 1] == NatToString(n / 10);
    }
  }

  predicate IsDigits(s: string)
  {
    forall i :: 0 <= i < |s| ==> '0' <= s[i] <= '9'
  }

  /** The number a string of decimal digits denotes. */
  function DigitsValue(s: string): nat
    requires IsDigits(s)
    decreases |s|
  {
    if s == [] then 0 else DigitsValue(s[..|s| - 1]) * 10 + (s[|s| - 1] as int - '0' as int)
  }

  /** `s.padStart(2, '0')`: zeros in front of s up to length two. */
  function PadStart2(s: string): (r: string)
    ensures |r| == Max(2, |s|) && r[|r| - |s|..] == s
    ensures forall i :: 0 <= i < |r| - |s| ==> r[i] == '0'
  {
    if |s| >= 2 then s else seq(2 - |s|, _ => '0') + s
  }

  /** formatTime: minutes and seconds, each at least two digits, separated by a
      colon; FormatTimeShape states its shape and FormatTimeRoundTrip its meaning. */
  function FormatTime(seconds: nat): (r: string)
  {
    PadStart2(NatToString(seconds / 60)) + ":" + PadStart2(NatToString(seconds % 60))
  }

  /** Reads "M…M:SS" back into seconds. */
  function ParseTime(text: string): Option<nat>
  {
    if |text| < 3 || text[|text| - 3] != ':' then None
    else
      var mins := text[..|text| - 3];
      var secs := text[|text| - 2..];
      if IsDigits(mins) && IsDigits(secs) then Some(DigitsValue(mins) * 60 + DigitsValue(secs)) else None
  }

  lemma {:induction false} LeadingZero(s: string)
    requires IsDigits(s)
    ensures IsDigits("0" + s) && DigitsValue("0" + s) == DigitsValue(s)
    decreases |s|
  {
    var z := "0" + s;
    if s == [] {
      assert z[..|z| - 1] == [];
    } else {
      assert z[..|z| - 1] == "0" + s[..|s| - 1];
      LeadingZero(s[..|s| - 1]);
    }
  }

  lemma PadStart2Value(s: string)
    requires IsDigits(s)
    ensures IsDigits(PadStart2(s)) && DigitsValue(PadStart2(s)) == DigitsValue(s)
    ensures |PadStart2(s)| == Max(2, |s|)
  {
    if |s| == 1 {
      assert PadStart2(s) == "0" + s;
      LeadingZero(s);
    } else if |s| == 0 {
      assert PadStart2(s) == "0" + "0";
      LeadingZero("0");
      LeadingZero([]);
    }
  }

  /** f reads "M…M:SS": the digits of mins minutes, a colon at the third
      position from the end, and the two digits of secs seconds. */
  predicate Shows(f: string, mins: nat, secs: nat)
  {
    |f| >= 5 && f[|f| - 3] == ':' &&
    IsDigits(f[..|f| - 3]) && IsDigits(f[|f| - 2..]) &&
    DigitsValue(f[..|f| - 3]) == mins && DigitsValue(f[|f| - 2..]) == secs
  }

  /** The shape of formatTime's result: whole minutes and the remaining
      seconds; five characters for anything under 100 minutes. */
  lemma FormatTimeShape(seconds: nat)
    ensures Shows(FormatTime(seconds), seconds / 60, seconds % 60)
    ensures seconds < 6000 ==> |FormatTime(seconds)| == 5
  {
    var q, rem := seconds / 60, seconds % 60;
    assert seconds == q * 60 + rem && rem < 60;
    MinutesAndSeconds(q, rem);
    assert seconds < 6000 ==> q < 100;
  }

  /** The display built from q minutes and rem seconds, rem under a minute. */
  lemma MinutesAndSeconds(q: nat, rem: nat)
    requires rem < 60
    ensures var f := PadStart2(NatToString(q)) + ":" + PadStart2(NatToString(rem));
      Shows(f, q, rem) && (q < 100 ==> |f| == 5)
  {
    var mins, secs := NatToString(q), NatToString(rem);
    NatToStringDigits(q);
    NatToStringDigits(rem);
    PadStart2Value(mins);
    PadStart2Value(secs);
    ColonShape(PadStart2(mins) + ":" + PadStart2(secs), PadStart2(mins), PadStart2(secs), q, rem);
  }

  /** The parts of "m:ss" when the seconds part is two digits. */
  lemma ColonShape(f: string, m: string, ss: string, q: nat, rem: nat)
    requires f == m + ":" + ss && |ss| == 2 && |m| >= 2
    requires IsDigits(m) && DigitsValue(m) == q && IsDigits(ss) && DigitsValue(ss) == rem
    ensures Shows(f, q, rem) && |f| == |m| + 3
  {
    assert f[..|f| - 3] == m;
    assert f[|f| - 2..] == ss;
  }

  /** Reading the display back gives the seconds it was made from. */
  lemma FormatTimeRoundTrip(seconds: nat)
    ensures ParseTime(FormatTime(seconds)) == Some(seconds)
  {
    var q, rem := seconds / 60, seconds % 60;
    assert rem < 60 && q * 60 + rem == seconds;
    var f := FormatTime(seconds);
    MinutesAndSeconds(q, rem);
    ParseParts(f, q, rem);
  }

  /** ParseTime reads the two parts of a well-shaped display. */
  lemma ParseParts(f: string, q: nat, rem: nat)
    requires Shows(f, q, rem)
    ensures ParseTime(f) == Some(q * 60 + rem)
  {
  }

  // ---------------------------------------------------------------------------
  // The component as an object

  class PomodoroTimer {
    var mode: Mode
    var timeLeft: int
    var isActive: bool
    var targetTime: int

    function State(): TimerState
      reads this
    {
      TimerState(mode, timeLeft, isActive, targetTime)
    }

    ghost predicate Valid()
      reads this
    {
      timeLeft >= 0
    }

    constructor ()
      ensures Valid() && State() == InitialTimer()
    {
      mode := FocusMode;
      timeLeft := FocusDuration;
      isActive := false;
      targetTime := 0;
    }

    method SwitchMode() returns (reported: Option<PomodoroState>, completed: bool)
      requires Valid()
      modifies this
      ensures Valid()
      ensures Transition(State(), reported, completed) == AfterSwitchMode(old(State()))
    {
      isActive := false;
      if mode == FocusMode {
        completed := true;
        mode := BreakMode;
        timeLeft := BreakDuration;
        reported := Some(Stopped);
      } else {
        completed := false;
        mode := FocusMode;
        timeLeft := FocusDuration;
        reported := Some(Stopped);
      }
    }

    /** One run of the interval (a no-op while the timer is not active, when
        no interval exists). */
    method Tick(now: int) returns (reported: Option<PomodoroState>, completed: bool)
      requires Valid()
      modifies this
      ensures Valid()
      ensures Transition(State(), reported, completed) == AfterTick(old(State()), now)
    {
      reported, completed := None, false;
      if isActive {
        var remainingTime := targetTime - now;
        if remainingTime <= 0 {
          timeLeft := 0;
          reported, completed := SwitchMode();
        } else {
          timeLeft := CeilSeconds(remainingTime);
        }
      }
    }

    method HandleStartPause(now: int) returns (reported: Option<PomodoroState>)
      requires Valid()
      modifies this
      ensures Valid()
      ensures Transition(State(), reported, false) == AfterStartPause(old(State()), now)
    {
      if isActive {
        isActive := false;
        reported := Some(Paused);
      } else {
        targetTime := now + timeLeft * 1000;
        isActive := true;
        reported := Some(if mode == FocusMode then Focus else Break);
      }
    }

    method HandleReset() returns (reported: Option<PomodoroState>)
      requires Valid()
      modifies this
      ensures Valid()
      ensures Transition(State(), reported, false) == AfterTimerReset(old(State()))
    {
      isActive := false;
      mode := FocusMode;
      timeLeft := FocusDuration;
      reported := Some(Stopped);
    }
  }
}
