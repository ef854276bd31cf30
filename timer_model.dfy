/**
 * The countdown-timer state machine of the active-task panel, as values.
 *
 * A `Snapshot` is the panel's four pieces of state; `Step` is what each
 * handler writes; `Enabled` is what the rendered view lets happen (the
 * completed view offers only "Start New Task", and the one-second interval
 * is armed only while the timer runs with time left); `Run` plays a
 * sequence of events from a state, failing at the first one not enabled.
 * The class in `TimerPanel` is proved against these functions.
 */
module TimerModel {
  import opened Wrappers
  import CountdownStyle

  /** The length of a session: two hours, in seconds. */
  const TotalTime: nat := 7200

  datatype Snapshot = Snapshot(
    timeRemaining: int,
    isRunning: bool,
    isCompleted: bool,
    countdownStyle: string)

  /** The user's actions, and `Tick` for one firing of the interval. */
  datatype Event =
    | Start | Pause | Stop | Complete | Tick | StartNewTask
    | SelectStyle(style: CountdownStyle.Display)

  /** The state the panel mounts with. */
  function Initial(): Snapshot {
    Snapshot(TotalTime, false, false, CountdownStyle.StyleName(CountdownStyle.Digital))
  }

  /**
   * The states the panel can be in: the remaining time lies within the
   * session, the timer is never running and completed at once, and a timer
   * that has run out has completed.
   */
  predicate Invariant(s: Snapshot) {
    && 0 <= s.timeRemaining <= TotalTime
    && !(s.isRunning && s.isCompleted)
    && (s.timeRemaining == 0 ==> s.isCompleted)
  }

  /** What each handler, and the interval callback, writes. */
  function Step(s: Snapshot, e: Event): Snapshot {
    match e
    case Start => s.(isRunning := true)
    case Pause => s.(isRunning := false)
    case Stop => s.(isRunning := false, timeRemaining := TotalTime)
    case Complete => s.(isCompleted := true, isRunning := false)
    case Tick =>
      if s.timeRemaining <= 1 then s.(isRunning := false, isCompleted := true, timeRemaining := 0)
      else s.(timeRemaining := s.timeRemaining - 1)
    case StartNewTask => s.(isCompleted := false, timeRemaining := TotalTime)
    case SelectStyle(d) => s.(countdownStyle := CountdownStyle.StyleName(d))
  }

  /**
   * The events the rendered panel can deliver. The interval exists only
   * while the timer runs with time left; the completed view shows only the
   * "Start New Task" button, and the running view shows every other button
   * and the style menu.
   */
  predicate Enabled(s: Snapshot, e: Event) {
    match e
    case Tick => s.isRunning && s.timeRemaining > 0
    case StartNewTask => s.isCompleted
    case _ => !s.isCompleted
  }

  /** Plays `evs` from `s`; `None` when some event was not enabled when it came. */
  function Run(s: Snapshot, evs: seq<Event>): Option<Snapshot>
    decreases |evs|
  {
    if evs == [] then Some(s)
    else if Enabled(s, evs[0]) then Run(Step(s, evs[0]), evs[1..])
    else None
  }

  /** `n` firings of the interval. */
  function Ticks(n: nat): (evs: seq<Event>)
    ensures |evs| == n && forall i :: 0 <= i < n ==> evs[i] == Tick
  {
    if n == 0 then [] else [Tick] + Ticks(n - 1)
  }

  /** The share of the session that has elapsed, as a percentage. */
  function Progress(s: Snapshot): real {
    ((TotalTime - s.timeRemaining) as real / TotalTime as real) * 100.0
  }

  ghost predicate Reachable(s: Snapshot) {
    exists evs :: Run(Initial(), evs) == Some(s)
  }

  // ---------------------------------------------------------------------
  // Single transitions
  // ---------------------------------------------------------------------

  /** The panel mounts with the full session left, stopped, not completed, at 0%. */
  lemma InitialState()
    ensures var s := Initial();
      Invariant(s) && s.timeRemaining == TotalTime && !s.isRunning && !s.isCompleted &&
      Progress(s) == 0.0
  {
  }

  /** Every enabled event keeps the invariant. */
  lemma StepKeepsInvariant(s: Snapshot, e: Event)
    requires Invariant(s) && Enabled(s, e)
    ensures Invariant(Step(s, e))
  {
  }

  /**
   * Start is the one event the completed view must hold back: starting a
   * completed timer would make it running and completed at once.
   */
  lemma StartWhenCompletedBreaksInvariant(s: Snapshot)
    requires s.isCompleted
    ensures !Invariant(Step(s, Start))
  {
  }

  /**
   * Of all events, from any state keeping the invariant, the only one whose
   * effect breaks it is Start on a completed timer.
   */
  lemma BreaksInvariantExactly(s: Snapshot, e: Event)
    requires Invariant(s)
    ensures !Invariant(Step(s, e)) <==> (e == Start && s.isCompleted)
  {
  }

  /**
   * While completed, the only event that can happen is Start New Task;
   * while not completed, that is the one event that cannot.
   */
  lemma CompletedGatesEvents(s: Snapshot, e: Event)
    requires Invariant(s)
    ensures s.isCompleted ==> (Enabled(s, e) <==> e == StartNewTask)
    ensures !s.isCompleted ==> !Enabled(s, StartNewTask)
  {
  }

  /** The interval is armed whenever the timer runs. */
  lemma RunningMeansTicking(s: Snapshot)
    requires Invariant(s) && s.isRunning
    ensures Enabled(s, Tick)
  {
  }

  /**
   * One tick: above one second left it takes off exactly one second and
   * changes nothing else; at one second or less it ends the session, at
   * zero, stopped and completed.
   */
  lemma TickEffect(s: Snapshot)
    requires Invariant(s) && Enabled(s, Tick)
    ensures var t := Step(s, Tick);
      t.countdownStyle == s.countdownStyle &&
      (s.timeRemaining > 1 ==> t == s.(timeRemaining := s.timeRemaining - 1) && t.isRunning) &&
      (s.timeRemaining <= 1 ==> t.timeRemaining == 0 && !t.isRunning && t.isCompleted)
  {
  }

  /** Pause stops the timer, keeps the time and the completion, and is idempotent. */
  lemma PauseEffect(s: Snapshot)
    ensures var t := Step(s, Pause);
      !t.isRunning && t.timeRemaining == s.timeRemaining && t.isCompleted == s.isCompleted &&
      t.countdownStyle == s.countdownStyle && Step(t, Pause) == t
  {
  }

  /**
   * Start and Pause are offered as one toggling button; pressing Start on a
   * running timer, or Pause on a stopped one, changes nothing.
   */
  lemma ToggleNoOp(s: Snapshot)
    ensures s.isRunning ==> Step(s, Start) == s
    ensures !s.isRunning ==> Step(s, Pause) == s
  {
  }

  /** Stop stops the timer and refills the session, leaving completion alone. */
  lemma StopEffect(s: Snapshot)
    ensures var t := Step(s, Stop);
      !t.isRunning && t.timeRemaining == TotalTime && t.isCompleted == s.isCompleted &&
      t.countdownStyle == s.countdownStyle && Progress(t) == 0.0
  {
  }

  /** Complete ends the session early, keeping whatever time was left. */
  lemma CompleteEffect(s: Snapshot)
    ensures var t := Step(s, Complete);
      t.isCompleted && !t.isRunning && t.timeRemaining == s.timeRemaining &&
      t.countdownStyle == s.countdownStyle
  {
  }

  /**
   * Start New Task, from the completed view, returns the timer to the state
   * the panel mounted with; only the chosen display style is kept.
   */
  lemma StartNewTaskRestoresInitial(s: Snapshot)
    requires Invariant(s) && Enabled(s, StartNewTask)
    ensures Step(s, StartNewTask) == Initial().(countdownStyle := s.countdownStyle)
  {
  }

  /**
   * Choosing a display style records its name, which renders as that
   * style, and leaves the three timer fields as they were.
   */
  lemma SelectStyleEffect(s: Snapshot, d: CountdownStyle.Display)
    ensures var t := Step(s, SelectStyle(d));
      CountdownStyle.RenderStyle(t.countdownStyle) == d &&
      t.timeRemaining == s.timeRemaining && t.isRunning == s.isRunning &&
      t.isCompleted == s.isCompleted
  {
    CountdownStyle.RenderChosenStyle(d);
  }

  /**
   * Progress lies between 0 and 100; it is 0 exactly when the whole session
   * is left and 100 exactly when none is; each second that passes adds
   * 1/72 of a percent.
   */
  lemma ProgressBounds(s: Snapshot)
    requires 0 <= s.timeRemaining <= TotalTime
    ensures 0.0 <= Progress(s) <= 100.0
    ensures Progress(s) == 0.0 <==> s.timeRemaining == TotalTime
    ensures Progress(s) == 100.0 <==> s.timeRemaining == 0
    ensures s.timeRemaining > 0 ==>
      Progress(s.(timeRemaining := s.timeRemaining - 1)) == Progress(s) + 1.0 / 72.0
  {
  }

  // ---------------------------------------------------------------------
  // Sequences of events
  // ---------------------------------------------------------------------

  /** Playing one sequence after another is playing their concatenation. */
  lemma {:induction false} RunAppend(s: Snapshot, a: seq<Event>, b: seq<Event>)
    ensures Run(s, a + b) == if Run(s, a).Some? then Run(Run(s, a).value, b) else None
    decreases |a|
  {
    if a != [] {
      assert (a + b)[0] == a[0];
      assert (a + b)[1..] == a[1..] + b;
      if Enabled(s, a[0]) {
        RunAppend(Step(s, a[0]), a[1..], b);
      }
    } else {
      assert a + b == b;
    }
  }

  /** Any sequence the panel can deliver keeps the invariant. */
  lemma {:induction false} RunKeepsInvariant(s: Snapshot, evs: seq<Event>)
    requires Invariant(s)
    ensures Run(s, evs).Some? ==> Invariant(Run(s, evs).value)
    decreases |evs|
  {
    if evs != [] && Enabled(s, evs[0]) {
      StepKeepsInvariant(s, evs[0]);
      RunKeepsInvariant(Step(s, evs[0]), evs[1..]);
    }
  }

  /**
   * Every state the panel can reach keeps the invariant, so its progress
   * lies in [0, 100] and it is never running and completed at once.
   */
  lemma ReachableInvariant(s: Snapshot)
    requires Reachable(s)
    ensures Invariant(s) && 0.0 <= Progress(s) <= 100.0
  {
    var evs :| Run(Initial(), evs) == Some(s);
    InitialState();
    RunKeepsInvariant(Initial(), evs);
    ProgressBounds(s);
  }

  /** While more than n seconds are left, n ticks take off exactly n seconds. */
  lemma {:induction false} TicksCountDown(s: Snapshot, n: nat)
    requires s.isRunning && n < s.timeRemaining
    ensures Run(s, Ticks(n)) == Some(s.(timeRemaining := s.timeRemaining - n))
    decreases n
  {
    if n > 0 {
      var t := Step(s, Tick);
      assert Ticks(n)[1..] == Ticks(n - 1);
      TicksCountDown(t, n - 1);
    }
  }

  /**
   * A running timer with k seconds left completes after exactly k ticks,
   * stopped at zero, and then the interval is no longer armed.
   */
  lemma {:induction false} TicksComplete(s: Snapshot)
    requires s.isRunning && s.timeRemaining >= 1
    ensures Run(s, Ticks(s.timeRemaining)) ==
      Some(s.(timeRemaining := 0, isRunning := false, isCompleted := true))
    ensures !Enabled(Run(s, Ticks(s.timeRemaining)).value, Tick)
    decreases s.timeRemaining
  {
    var n := s.timeRemaining;
    var t := Step(s, Tick);
    assert Ticks(n)[1..] == Ticks(n - 1);
    if n > 1 {
      TicksComplete(t);
    }
  }

  /** A session with three seconds left completes on the third tick; a fourth cannot come. */
  lemma ThreeTicksComplete(s: Snapshot)
    requires s.isRunning && s.timeRemaining == 3
    ensures Run(s, [Tick, Tick, Tick]) ==
      Some(s.(timeRemaining := 0, isRunning := false, isCompleted := true))
    ensures Run(s, [Tick, Tick, Tick, Tick]) == None
  {
    assert Ticks(3) == [Tick, Tick, Tick];
    TicksComplete(s);
    RunAppend(s, [Tick, Tick, Tick], [Tick]);
    assert [Tick, Tick, Tick] + [Tick] == [Tick, Tick, Tick, Tick];
  }

  /** Start, ten ticks and Stop: 7190 seconds after the ticks, the mount state after Stop. */
  lemma StopAfterTenTicks()
    ensures Run(Initial(), [Start] + Ticks(10)) == Some(Initial().(isRunning := true, timeRemaining := 7190))
    ensures Run(Initial(), [Start] + Ticks(10) + [Stop]) == Some(Initial())
  {
    var started := Step(Initial(), Start);
    TicksCountDown(started, 10);
    RunAppend(Initial(), [Start], Ticks(10));
    RunAppend(Initial(), [Start] + Ticks(10), [Stop]);
  }

  /** Completing early with 5000 seconds left keeps the 5000 seconds. */
  lemma CompleteEarly(s: Snapshot)
    requires Invariant(s) && s.isRunning && s.timeRemaining == 5000
    ensures Run(s, [Complete]) == Some(s.(isCompleted := true, isRunning := false))
  {
  }
}
