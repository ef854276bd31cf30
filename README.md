# Countdown timer of the active-task panel

This project models the countdown-timer engine of the study planner's
active-task panel (`ActiveTaskPanel`): a two-hour session (7200 seconds)
whose remaining time, running flag, completed flag and display style are
changed by the Start, Pause, Stop and Complete buttons, by a one-second
interval while the timer runs, and by the "Start New Task" button of the
completed view; together with the two pure helpers beside it, the elapsed
percentage and the `HH:MM:SS` formatter.

Modules:

- `Wrappers` (`wrappers.dfy`): an `Option` datatype.
- `TimeFormat` (`time_format.dfy`): `formatTime`, built from the decimal
  rendering of a number (`Digits`, JavaScript's `toString()`), left padding
  (`PadStart`, JavaScript's `padStart`) and the hours/minutes/seconds split
  (`Split`). `ParseTime` reads the text back and is the partner of the
  round-trip lemma.
- `CountdownStyle` (`countdown_style.dfy`): the four display styles, the
  names the settings menu stores, and the renderer's switch, which falls
  back to the digital display.
- `TimerModel` (`timer_model.dfy`): the panel's state as a value
  (`Snapshot`), what each handler writes (`Step`), which events the rendered
  panel can deliver (`Enabled`), playing a sequence of events (`Run`), the
  invariant every reachable state keeps, and progress as an exact `real`.
- `TimerPanel` (`timer_panel.dfy`): the panel as a class whose fields the
  handlers overwrite in place; each method is proved to write exactly
  `Step` of its event and to keep the invariant.

What the rendered panel lets happen is modelled as `Enabled`: the interval
runs only while `isRunning && timeRemaining > 0`; the completed view shows
only "Start New Task"; the other view shows Start or Pause, Stop, Complete
and the style menu. This gating is what keeps a timer from being running
and completed at once (`BreaksInvariantExactly` shows that Start on a
completed timer is the one step that would break it). The invariant also records
that a timer at zero has completed, so the interval is armed whenever the
timer runs.

The pure layer and the class share one definition of each transition
(`TimerModel.Step`); the class's methods are verified against it.

## Model

| member | source | states |
|---|---|---|
| TimeFormat.FormatTime | src/components/ActiveTaskPanel.jsx:41-46 | no contract of its own; FormatTimeShape, FormatParseRoundTrip, FormatTimeInjective and the example lemmas state it |
| TimeFormat.Digits | src/components/ActiveTaskPanel.jsx:45 | `toString()` of a non-negative integer is a non-empty digit string without a leading zero, one digit exactly below 10 and at most two exactly below 100 |
| TimeFormat.ValueOfDigits | src/components/ActiveTaskPanel.jsx:45 | the decimal rendering of n reads back as n |
| TimeFormat.PadStart | src/components/ActiveTaskPanel.jsx:45 | `padStart` gives length max(width, length), ends with the original string, and the added prefix is all fill; it never truncates |
| TimeFormat.ValueOfZeroPadded | src/components/ActiveTaskPanel.jsx:45 | zero-padding a digit string keeps it a digit string denoting the same number |
| TimeFormat.Pad2Field | src/components/ActiveTaskPanel.jsx:45 | each clock field has at least two digits, reads back as its number, and has exactly two exactly when the number is below 100 |
| TimeFormat.Split | src/components/ActiveTaskPanel.jsx:42-44 | minutes and seconds are below 60 and hours*3600 + minutes*60 + seconds is the input |
| TimeFormat.SplitUnique | src/components/ActiveTaskPanel.jsx:42-44 | any hours/minutes/seconds with both lower fields below 60 that add up to the input are the split |
| TimeFormat.HoursBelow100 | src/components/ActiveTaskPanel.jsx:42 | the hours field is below 100 exactly for durations under 360000 seconds |
| TimeFormat.FormatTimeShape | src/components/ActiveTaskPanel.jsx:41-46 | separators ':' six and three from the end; length 8 with ':' at indices 2 and 5 exactly for durations under 100 hours (so for every time the timer shows), longer otherwise |
| TimeFormat.FormatParseRoundTrip | src/components/ActiveTaskPanel.jsx:41-46 | reading the formatted text back gives the number of seconds it was made from |
| TimeFormat.FormatTimeInjective | src/components/ActiveTaskPanel.jsx:41-46 | two different durations never format to the same text |
| TimeFormat.FormatTimeWholeAndZero | src/components/ActiveTaskPanel.jsx:41-46 | 7200 formats as "02:00:00" and 0 as "00:00:00" |
| TimeFormat.FormatTimeSeconds | src/components/ActiveTaskPanel.jsx:41-46 | 59 formats as "00:00:59" |
| TimeFormat.FormatTimeMixed | src/components/ActiveTaskPanel.jsx:41-46 | 3661 formats as "01:01:01" |
| CountdownStyle.StyleName | src/components/ActiveTaskPanel.jsx:219-230 | no contract of its own; RenderChosenStyle and StyleNamesDistinct state it |
| CountdownStyle.RenderStyle | src/components/ActiveTaskPanel.jsx:96-159 | a display other than digital is chosen only for exactly its own name |
| CountdownStyle.RenderChosenStyle | src/components/ActiveTaskPanel.jsx:219-230 | each name the settings menu stores renders as the style chosen |
| CountdownStyle.UnrecognisedIsDigital | src/components/ActiveTaskPanel.jsx:147-158 | a name that is none of the four renders as the digital display |
| CountdownStyle.StyleNamesDistinct | src/components/ActiveTaskPanel.jsx:219-230 | different styles are stored under different names |
| TimerModel.Initial | src/components/ActiveTaskPanel.jsx:14-17 | no contract of its own; InitialState and StartNewTaskRestoresInitial state it |
| TimerModel.Step | src/components/ActiveTaskPanel.jsx:27-34 | no contract of its own; models the interval body (27-34) and the handlers (162-171, 187-190, 219-230); TickEffect, PauseEffect, StopEffect, CompleteEffect, StartNewTaskRestoresInitial, SelectStyleEffect and BreaksInvariantExactly state it |
| TimerModel.Enabled | src/components/ActiveTaskPanel.jsx:173-198 | no contract of its own; models the interval condition (25) and the completed-view gate (173-198); CompletedGatesEvents, RunningMeansTicking and StepKeepsInvariant state it |
| TimerModel.Progress | src/components/ActiveTaskPanel.jsx:20 | no contract of its own; ProgressBounds states it |
| TimerModel.InitialState | src/components/ActiveTaskPanel.jsx:14-20 | the mount state has 7200 seconds left, is stopped and not completed, keeps the invariant, and its progress is 0 |
| TimerModel.StepKeepsInvariant | src/components/ActiveTaskPanel.jsx:162-190 | every enabled event keeps 0 <= timeRemaining <= 7200, never running and completed at once, and zero time only when completed |
| TimerModel.StartWhenCompletedBreaksInvariant | src/components/ActiveTaskPanel.jsx:173-198 | starting a completed timer would make it running and completed at once, which is why the completed view withholds Start |
| TimerModel.BreaksInvariantExactly | src/components/ActiveTaskPanel.jsx:162-190 | from a state keeping the invariant, a step breaks it exactly when it is Start on a completed timer |
| TimerModel.CompletedGatesEvents | src/components/ActiveTaskPanel.jsx:173-198 | while completed, an event is enabled exactly when it is Start New Task; while not completed, Start New Task is not enabled |
| TimerModel.RunningMeansTicking | src/components/ActiveTaskPanel.jsx:25 | in every state keeping the invariant, a running timer has its interval armed |
| TimerModel.TickEffect | src/components/ActiveTaskPanel.jsx:27-34 | with more than one second left a tick takes off exactly one and changes nothing else; with one or less it sets 0, stops and completes |
| TimerModel.PauseEffect | src/components/ActiveTaskPanel.jsx:163 | Pause stops the timer, keeps time, completion and style, and pausing again changes nothing |
| TimerModel.ToggleNoOp | src/components/ActiveTaskPanel.jsx:261-280 | Start on a running timer and Pause on a stopped one change nothing |
| TimerModel.StopEffect | src/components/ActiveTaskPanel.jsx:164-167 | Stop stops the timer and restores 7200 seconds (progress 0), leaving completion and style alone |
| TimerModel.CompleteEffect | src/components/ActiveTaskPanel.jsx:168-171 | Complete sets completed, clears running and keeps the remaining time |
| TimerModel.StartNewTaskRestoresInitial | src/components/ActiveTaskPanel.jsx:187-190 | from the completed view, Start New Task gives exactly the mount state except that the chosen style is kept |
| TimerModel.SelectStyleEffect | src/components/ActiveTaskPanel.jsx:219-230 | choosing a style makes the renderer pick it and leaves remaining time, running and completed unchanged |
| TimerModel.ProgressBounds | src/components/ActiveTaskPanel.jsx:20 | progress lies in [0, 100], is 0 exactly at 7200 seconds left and 100 exactly at 0, and each second elapsed adds 1/72 of a percent |
| TimerModel.RunAppend | src/components/ActiveTaskPanel.jsx:162-190 | playing two event sequences one after the other is playing their concatenation |
| TimerModel.RunKeepsInvariant | src/components/ActiveTaskPanel.jsx:162-190 | every sequence of enabled events keeps the invariant |
| TimerModel.ReachableInvariant | src/components/ActiveTaskPanel.jsx:14-34 | every state reachable from the mount state keeps the invariant and has progress in [0, 100] |
| TimerModel.TicksCountDown | src/components/ActiveTaskPanel.jsx:27-34 | while more than n seconds are left, n ticks take off exactly n seconds and change nothing else |
| TimerModel.TicksComplete | src/components/ActiveTaskPanel.jsx:25-34 | a running timer with k seconds left is at 0, stopped and completed after exactly k ticks, and no further tick is enabled |
| TimerModel.ThreeTicksComplete | src/components/ActiveTaskPanel.jsx:25-34 | from 3 seconds, three ticks complete the session and a fourth is not enabled |
| TimerModel.StopAfterTenTicks | src/components/ActiveTaskPanel.jsx:164-167 | Start then ten ticks from the mount state leave 7190 seconds; Stop then returns to the mount state |
| TimerModel.CompleteEarly | src/components/ActiveTaskPanel.jsx:168-171 | completing a running timer with 5000 seconds left keeps 5000 and completes it |
| TimerPanel.ActiveTaskPanel.constructor | src/components/ActiveTaskPanel.jsx:14-17 | the panel mounts in the initial state, which keeps the invariant |
| TimerPanel.ActiveTaskPanel.Progress | src/components/ActiveTaskPanel.jsx:20 | the panel's progress lies in [0, 100], is 0 exactly with the whole session left and 100 exactly with none |
| TimerPanel.ActiveTaskPanel.RemainingText | src/components/ActiveTaskPanel.jsx:84 | the shown remaining time is eight characters with ':' at 2 and 5 and reads back as the remaining seconds |
| TimerPanel.ActiveTaskPanel.Display | src/components/ActiveTaskPanel.jsx:96 | the renderer's display for the stored style; a display other than digital only when the stored name is exactly its own |
| TimerPanel.ActiveTaskPanel.HandleStart | src/components/ActiveTaskPanel.jsx:162 | sets running, changes nothing else, keeps the invariant |
| TimerPanel.ActiveTaskPanel.HandlePause | src/components/ActiveTaskPanel.jsx:163 | clears running, changes nothing else, keeps the invariant |
| TimerPanel.ActiveTaskPanel.HandleStop | src/components/ActiveTaskPanel.jsx:164-167 | clears running and restores 7200 seconds, keeps completion and style and the invariant |
| TimerPanel.ActiveTaskPanel.HandleComplete | src/components/ActiveTaskPanel.jsx:168-171 | sets completed, clears running, keeps the time and the invariant |
| TimerPanel.ActiveTaskPanel.Tick | src/components/ActiveTaskPanel.jsx:26-34 | decrements by one above one second, otherwise sets 0, stops and completes; keeps the invariant |
| TimerPanel.ActiveTaskPanel.StartNewTask | src/components/ActiveTaskPanel.jsx:187-190 | returns to the mount state except for the chosen style, keeping the invariant |
| TimerPanel.ActiveTaskPanel.SelectStyle | src/components/ActiveTaskPanel.jsx:219-230 | stores the chosen style so it is rendered, and leaves the three timer fields unchanged |

## Left out

- The scheduling of the interval (`setInterval`, `clearInterval` and the effect's cleanup, ActiveTaskPanel.jsx:22-39) is event-loop timing; one firing is the `Tick` event, enabled exactly when the effect arms the interval.
- React's batching of the three state updates inside the interval callback is not modelled; a tick writes its fields as one step.
- The circular-progress geometry (`Math.PI`, ActiveTaskPanel.jsx:48-93) and `Math.round(progress)` in the labels are floating-point display; progress is an exact `real`.
- JSX rendering, CSS classes, the fullscreen layout and `onToggleFullscreen`, and the dropdown widgets are presentation; only the enabling of events they imply is modelled.
- The Start/Pause toggle (ActiveTaskPanel.jsx:261-280) is not part of `Enabled`: `ToggleNoOp` shows that pressing the absent button would change nothing, so leaving it in changes no reachable state.
- JavaScript numbers are modelled as unbounded integers; every value the timer holds lies in [0, 7200], far inside the exactly representable range. `formatTime` is modelled on non-negative integers, the only arguments it receives.
- Progress is not clamped: the code computes it unclamped (ActiveTaskPanel.jsx:20); the invariant keeps it in [0, 100].
- The session length is the constant 7200 of the code, not a configurable positive duration, so there is no configuration error path.
- src/pages/ManageTasks.jsx (filtering a fixed mock list, host date comparison, class-name lookups, an authentication redirect) and src/components/UpcomingTasksPanel.tsx (a mock list returned for today only, and date-library navigation) are not part of this model.
