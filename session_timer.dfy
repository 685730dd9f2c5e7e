/**
 * The training session timer of `TrainingSessionScreen`: a countdown from the
 * workout's duration, or a stopwatch from zero, ticking once a second while it
 * runs, with a Pause/Resume toggle, a Restart button and a Finish or End Session
 * button.
 *
 * The transitions are first given as functions on a `TimerState` value, and the
 * properties of the screen are proved about those; the class `Session` then holds
 * the screen's two mutable variables, `running` and `seconds`, and each of its
 * methods is proved to make exactly the transition its function describes.
 */
module SessionTimer {
  import opened Workouts
  import opened Text
  import opened Clock

  /** Everything the screen's timer depends on: the fixed mode and duration, and the two mutable variables. */
  datatype TimerState = TimerState(mode: TimerMode, totalSeconds: int, running: bool, seconds: int)

  /** The buttons at the bottom of the screen. */
  datatype Button = FinishButton | RestartButton | EndSessionButton

  /** `minutes.coerceAtLeast(0) * 60`: a negative duration counts as none. */
  function TotalSeconds(minutes: int): (t: nat)
    ensures t % 60 == 0
    ensures minutes <= 0 ==> t == 0
    ensures minutes >= 0 ==> t == minutes * 60
  {
    (if minutes < 0 then 0 else minutes) * 60
  }

  /** Where `seconds` starts, and where Restart puts it back: the full duration for a countdown, zero for a stopwatch. */
  function InitialSeconds(mode: TimerMode, totalSeconds: int): int {
    if mode == Countdown then totalSeconds else 0
  }

  /**
   * The invariant of the screen's state: a countdown stays within `[0, totalSeconds]`,
   * a stopwatch never goes below zero.
   */
  ghost predicate Consistent(s: TimerState) {
    && s.totalSeconds >= 0
    && (s.mode == Countdown ==> 0 <= s.seconds <= s.totalSeconds)
    && (s.mode == Stopwatch ==> s.seconds >= 0)
  }

  /** A countdown that has run out: the screen then offers Finish instead of Restart and End Session. */
  predicate Completed(s: TimerState): (b: bool)
    ensures b && Consistent(s) ==> s.seconds == 0
  {
    s.mode == Countdown && s.seconds <= 0
  }

  /** The state when the screen opens: running, at the full duration (countdown) or at zero (stopwatch). */
  function Start(minutes: int, mode: TimerMode): (s: TimerState)
    ensures Consistent(s) && s.running && s.mode == mode
    ensures s.totalSeconds == TotalSeconds(minutes)
    ensures s.seconds == InitialSeconds(mode, s.totalSeconds)
    ensures Completed(s) <==> mode == Countdown && minutes <= 0
  {
    var total := TotalSeconds(minutes);
    TimerState(mode, total, true, InitialSeconds(mode, total))
  }

  /**
   * One firing of the tick effect: nothing while paused, nothing once a countdown
   * is at zero, otherwise one second down (countdown) or up (stopwatch).
   */
  function AfterTick(s: TimerState): (r: TimerState)
    ensures r.mode == s.mode && r.totalSeconds == s.totalSeconds && r.running == s.running
    ensures r.seconds != s.seconds <==> s.running && !Completed(s)
    ensures s.mode == Countdown ==> s.seconds - 1 <= r.seconds <= s.seconds
    ensures s.mode == Stopwatch ==> s.seconds <= r.seconds <= s.seconds + 1
    ensures Consistent(s) ==> Consistent(r)
  {
    if !s.running then s
    else if s.mode == Countdown && s.seconds <= 0 then s
    else s.(seconds := if s.mode == Countdown then s.seconds - 1 else s.seconds + 1)
  }

  /** The Pause/Resume button: flips `running` and nothing else. */
  function AfterToggle(s: TimerState): (r: TimerState)
    ensures r.running == !s.running
    ensures r.(running := s.running) == s
    ensures Consistent(s) ==> Consistent(r)
  {
    s.(running := !s.running)
  }

  /** The Restart button: back to the mode's starting value, running, whatever came before. */
  function AfterRestart(s: TimerState): (r: TimerState)
    ensures r.running && r.mode == s.mode && r.totalSeconds == s.totalSeconds
    ensures r.seconds == InitialSeconds(s.mode, s.totalSeconds)
    ensures s.totalSeconds >= 0 ==> Consistent(r)
  {
    s.(seconds := InitialSeconds(s.mode, s.totalSeconds), running := true)
  }

  /** The label of the toggle button. */
  function ToggleLabel(s: TimerState): (caption: string)
    ensures caption == "Pause" <==> s.running
    ensures caption == "Resume" <==> !s.running
  {
    if s.running then "Pause" else "Resume"
  }

  /** The buttons the screen shows: Finish alone once a countdown has run out, Restart and End Session otherwise. */
  function Buttons(s: TimerState): (bs: seq<Button>)
    ensures FinishButton in bs <==> Completed(s)
    ensures RestartButton in bs <==> !Completed(s)
    ensures EndSessionButton in bs <==> !Completed(s)
  {
    if Completed(s) then [FinishButton] else [RestartButton, EndSessionButton]
  }

  /** `n` ticks in a row with no button pressed in between. */
  function RunTicks(s: TimerState, n: nat): TimerState
    decreases n
  {
    if n == 0 then s else RunTicks(AfterTick(s), n - 1)
  }

  /** Ticking keeps the invariant, and never moves the mode, the duration or the running flag. */
  lemma {:induction false} RunTicksConsistent(s: TimerState, n: nat)
    requires Consistent(s)
    ensures Consistent(RunTicks(s, n))
    ensures RunTicks(s, n).(seconds := s.seconds) == s
    decreases n
  {
    if n > 0 {
      RunTicksConsistent(AfterTick(s), n - 1);
    }
  }

  /** While paused, ticks change nothing. */
  lemma {:induction false} RunTicksPaused(s: TimerState, n: nat)
    requires !s.running
    ensures RunTicks(s, n) == s
    decreases n
  {
    if n > 0 {
      RunTicksPaused(AfterTick(s), n - 1);
    }
  }

  /** A running countdown goes down one second per tick and then stays at zero. */
  lemma {:induction false} RunTicksCountdown(s: TimerState, n: nat)
    requires s.mode == Countdown && s.running && s.seconds >= 0
    ensures RunTicks(s, n) == s.(seconds := if n <= s.seconds then s.seconds - n else 0)
    decreases n
  {
    if n > 0 {
      RunTicksCountdown(AfterTick(s), n - 1);
    }
  }

  /** A running stopwatch goes up one second per tick, without end. */
  lemma {:induction false} RunTicksStopwatch(s: TimerState, n: nat)
    requires s.mode == Stopwatch && s.running
    ensures RunTicks(s, n) == s.(seconds := s.seconds + n)
    decreases n
  {
    if n > 0 {
      RunTicksStopwatch(AfterTick(s), n - 1);
    }
  }

  /** A stopwatch never goes back, running or paused. */
  lemma StopwatchNeverDecreases(s: TimerState, n: nat)
    requires s.mode == Stopwatch
    ensures RunTicks(s, n).seconds >= s.seconds
  {
    if s.running { RunTicksStopwatch(s, n); } else { RunTicksPaused(s, n); }
  }

  /**
   * A countdown opened with a duration of `T` seconds is completed after exactly
   * `T` ticks, not before, and shows `00:00` with only the Finish button from then on.
   */
  lemma CountdownCompletes(minutes: int, n: nat)
    ensures var s := RunTicks(Start(minutes, Countdown), n);
      && (Completed(s) <==> n >= TotalSeconds(minutes))
      && (n >= TotalSeconds(minutes) ==> s.seconds == 0 && Format(s.seconds) == "00:00" && Buttons(s) == [FinishButton])
      && (n < TotalSeconds(minutes) ==> s.seconds == TotalSeconds(minutes) - n)
  {
    RunTicksCountdown(Start(minutes, Countdown), n);
    FormatExamples();
  }

  /** Pausing, letting any number of ticks go by, and resuming gives back exactly the state before the pause. */
  lemma PauseResumeKeepsState(s: TimerState, n: nat)
    requires s.running
    ensures AfterToggle(RunTicks(AfterToggle(s), n)) == s
  {
    RunTicksPaused(AfterToggle(s), n);
  }

  /** Toggling twice changes nothing. */
  lemma ToggleTwice(s: TimerState)
    ensures AfterToggle(AfterToggle(s)) == s
  {
  }

  /** Restart forgets the history: from any two states of one session it reaches the same state, the one the screen opened in. */
  lemma RestartIsStart(minutes: int, mode: TimerMode, s: TimerState)
    requires s.mode == mode && s.totalSeconds == TotalSeconds(minutes)
    ensures AfterRestart(s) == Start(minutes, mode)
  {
  }

  /** The Restart button is never on screen once a countdown has run out. */
  lemma NoRestartWhenCompleted(s: TimerState)
    requires Completed(s)
    ensures Buttons(s) == [FinishButton]
  {
  }

  /** The stopwatch walk-through: three ticks, pause at `00:03`, resume, two more ticks to `00:05`. */
  lemma StopwatchScenario()
    ensures var paused := AfterToggle(RunTicks(Start(0, Stopwatch), 3));
      && !paused.running && Format(paused.seconds) == "00:03"
      && Format(RunTicks(AfterToggle(paused), 2).seconds) == "00:05"
  {
    var s0 := Start(0, Stopwatch);
    RunTicksStopwatch(s0, 3);
    var paused := AfterToggle(RunTicks(s0, 3));
    RunTicksStopwatch(AfterToggle(paused), 2);
    FormatExamples();
  }

  /** The countdown walk-through: two minutes, ten ticks, then Restart gives back 120 seconds, running. */
  lemma RestartScenario()
    ensures var s := AfterRestart(RunTicks(Start(2, Countdown), 10));
      s.seconds == 120 && s.running
  {
    RunTicksCountdown(Start(2, Countdown), 10);
  }

  /**
   * The state of one open session screen. `mode` and `totalSeconds` are fixed when
   * the screen opens; `running` and `seconds` are the screen's two mutable variables.
   */
  class Session {
    const mode: TimerMode
    const totalSeconds: int
    var running: bool
    var seconds: int

    /** The session's state as a value. */
    function State(): TimerState
      reads this
    {
      TimerState(mode, totalSeconds, running, seconds)
    }

    ghost predicate Valid()
      reads this
    {
      Consistent(State())
    }

    /** Opening the screen with a duration in minutes and a mode. */
    constructor (minutes: int, mode: TimerMode)
      ensures Valid() && State() == Start(minutes, mode)
    {
      var total := (if minutes < 0 then 0 else minutes) * 60;
      this.mode := mode;
      totalSeconds := total;
      running := true;
      seconds := if mode == Countdown then total else 0;
    }

    /** One firing of the screen's tick effect, taken as one step. */
    method Tick()
      requires Valid()
      modifies this
      ensures Valid() && State() == AfterTick(old(State()))
    {
      if !running {
        return;
      }
      if mode == Countdown && seconds <= 0 {
        return;
      }
      seconds := if mode == Countdown then seconds - 1 else seconds + 1;
    }

    /** The Pause/Resume button. */
    method Toggle()
      requires Valid()
      modifies this
      ensures Valid() && State() == AfterToggle(old(State()))
    {
      running := !running;
    }

    /** The Restart button, which is only on screen while the countdown has not run out. */
    method Restart()
      requires Valid() && !Completed(State())
      modifies this
      ensures Valid() && State() == AfterRestart(old(State()))
    {
      seconds := if mode == Countdown then totalSeconds else 0;
      running := true;
    }

    /** The big time display. */
    function Display(): (d: string)
      reads this
      requires Valid()
      ensures |d| >= 5 && d[|d| - 3] == ':'
      ensures AllDigits(d[..|d| - 3]) && AllDigits(d[|d| - 2..]) && Value(d[|d| - 2..]) < 60
      ensures ReadClock(d) == seconds
      ensures seconds < 6000 <==> |d| == 5
      ensures d[0] == '0' <==> seconds < 600
    {
      var elapsed: nat := seconds;
      Format(elapsed)
    }
  }

  /** The stopwatch walk-through run against a `Session` object. */
  method StopwatchSession() returns (atPause: string, runningAtPause: bool, afterResume: string)
    ensures atPause == "00:03" && !runningAtPause && afterResume == "00:05"
  {
    var session := new Session(0, Stopwatch);
    session.Tick();
    session.Tick();
    session.Tick();
    session.Toggle();
    assert session.seconds == 3;
    atPause, runningAtPause := session.Display(), session.running;
    session.Toggle();
    session.Tick();
    session.Tick();
    assert session.seconds == 5;
    afterResume := session.Display();
    FormatExamples();
  }
}
