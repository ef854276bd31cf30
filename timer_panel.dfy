/**
 * The active-task panel's timer as an object whose handlers overwrite its
 * fields in place. Each method is proved to write exactly what `Step` says
 * for its event and to keep the invariant of `TimerModel`.
 */
module TimerPanel {
  import TimerModel
  import CountdownStyle
  import TimeFormat
  import opened Wrappers

  class ActiveTaskPanel {
    var isRunning: bool
    var timeRemaining: int
    var isCompleted: bool
    var countdownStyle: string

    /** The four fields as one value. */
    function State(): TimerModel.Snapshot
      reads this
    {
      TimerModel.Snapshot(timeRemaining, isRunning, isCompleted, countdownStyle)
    }

    predicate Valid()
      reads this
    {
      TimerModel.Invariant(State())
    }

    /** Mounting the panel: the whole session left, stopped, digital display. */
    constructor ()
      ensures Valid() && State() == TimerModel.Initial()
    {
      isRunning := false;
      timeRemaining := TimerModel.TotalTime;
      isCompleted := false;
      countdownStyle := CountdownStyle.StyleName(CountdownStyle.Digital);
    }

    /** The elapsed share of the session, between 0 and 100. */
    function Progress(): (p: real)
      reads this
      requires Valid()
      ensures 0.0 <= p <= 100.0
      ensures p == 0.0 <==> timeRemaining == TimerModel.TotalTime
      ensures p == 100.0 <==> timeRemaining == 0
    {
      TimerModel.ProgressBounds(State());
      TimerModel.Progress(State())
    }

    /** The remaining time as shown: eight characters that read back as the time left. */
    function RemainingText(): (r: string)
      reads this
      requires Valid()
      ensures |r| == 8 && r[2] == ':' && r[5] == ':'
      ensures TimeFormat.ParseTime(r) == Some(timeRemaining)
    {
      TimeFormat.FormatTimeShape(timeRemaining);
      TimeFormat.FormatParseRoundTrip(timeRemaining);
      TimeFormat.FormatTime(timeRemaining)
    }

    /** The display the renderer picks for the stored style name. */
    function Display(): (d: CountdownStyle.Display)
      reads this
      ensures d != CountdownStyle.Digital ==> countdownStyle == CountdownStyle.StyleName(d)
    {
      CountdownStyle.RenderStyle(countdownStyle)
    }

    method HandleStart()
      requires Valid() && TimerModel.Enabled(State(), TimerModel.Start)
      modifies this
      ensures Valid() && State() == TimerModel.Step(old(State()), TimerModel.Start)
      ensures isRunning && timeRemaining == old(timeRemaining) && isCompleted == old(isCompleted)
      ensures countdownStyle == old(countdownStyle)
    {
      isRunning := true;
    }

    method HandlePause()
      requires Valid() && TimerModel.Enabled(State(), TimerModel.Pause)
      modifies this
      ensures Valid() && State() == TimerModel.Step(old(State()), TimerModel.Pause)
      ensures !isRunning && timeRemaining == old(timeRemaining) && isCompleted == old(isCompleted)
      ensures countdownStyle == old(countdownStyle)
    {
      isRunning := false;
    }

    method HandleStop()
      requires Valid() && TimerModel.Enabled(State(), TimerModel.Stop)
      modifies this
      ensures Valid() && State() == TimerModel.Step(old(State()), TimerModel.Stop)
      ensures !isRunning && timeRemaining == TimerModel.TotalTime && isCompleted == old(isCompleted)
      ensures countdownStyle == old(countdownStyle)
    {
      isRunning := false;
      timeRemaining := TimerModel.TotalTime;
    }

    method HandleComplete()
      requires Valid() && TimerModel.Enabled(State(), TimerModel.Complete)
      modifies this
      ensures Valid() && State() == TimerModel.Step(old(State()), TimerModel.Complete)
      ensures !isRunning && isCompleted && timeRemaining == old(timeRemaining)
      ensures countdownStyle == old(countdownStyle)
    {
      isCompleted := true;
      isRunning := false;
    }

    /** One firing of the one-second interval. */
    method Tick()
      requires Valid() && TimerModel.Enabled(State(), TimerModel.Tick)
      modifies this
      ensures Valid() && State() == TimerModel.Step(old(State()), TimerModel.Tick)
      ensures old(timeRemaining) > 1 ==>
        timeRemaining == old(timeRemaining) - 1 && isRunning && !isCompleted
      ensures old(timeRemaining) <= 1 ==> timeRemaining == 0 && !isRunning && isCompleted
      ensures countdownStyle == old(countdownStyle)
    {
      if timeRemaining <= 1 {
        isRunning := false;
        isCompleted := true;
        timeRemaining := 0;
      } else {
        timeRemaining := timeRemaining - 1;
      }
    }

    /** The "Start New Task" button of the completed view. */
    method StartNewTask()
      requires Valid() && TimerModel.Enabled(State(), TimerModel.StartNewTask)
      modifies this
      ensures Valid() && State() == TimerModel.Step(old(State()), TimerModel.StartNewTask)
      ensures State() == TimerModel.Initial().(countdownStyle := old(countdownStyle))
    {
      isCompleted := false;
      timeRemaining := TimerModel.TotalTime;
    }

    /** One item of the settings menu. */
    method SelectStyle(d: CountdownStyle.Display)
      requires Valid() && TimerModel.Enabled(State(), TimerModel.SelectStyle(d))
      modifies this
      ensures Valid() && State() == TimerModel.Step(old(State()), TimerModel.SelectStyle(d))
      ensures Display() == d
      ensures timeRemaining == old(timeRemaining) && isRunning == old(isRunning)
      ensures isCompleted == old(isCompleted)
    {
      countdownStyle := CountdownStyle.StyleName(d);
      CountdownStyle.RenderChosenStyle(d);
    }
  }

  /**
   * A session driven through the panel's methods: start, two ticks, stop;
   * then start again, complete early and begin a new task.
   */
  method StopAndCompleteSession()
  {
    var panel := new ActiveTaskPanel();
    panel.HandleStart();
    panel.Tick();
    panel.Tick();
    assert panel.timeRemaining == 7198 && panel.Progress() > 0.0;
    panel.HandleStop();
    assert panel.State() == TimerModel.Initial();
    panel.HandleStart();
    panel.HandleComplete();
    assert panel.isCompleted && !panel.isRunning && panel.timeRemaining == TimerModel.TotalTime;
    panel.StartNewTask();
    assert panel.State() == TimerModel.Initial();
  }
}
