# time_tracker Pomodoro core, in Dafny

This project models the small, pure core shared by the versions of the
time_tracker Pomodoro app: the GTK/relm4 desktop app, two Yew front-ends and
the Tauri backend plugin. Every piece is an immutable record plus a pure step
function, `(state, message, clock) -> (state, outputs)`.

- `Stages` (stages.dfy) holds the session-stage machine `Status`. The
  repository has three copies of it. They share the variants `Focus(n)`,
  `ShortBreak(n)` and `LongBreak`, the transition table `try_next`, the
  threshold 3 and the lengths 45/5/15 minutes, and differ in the rest:
  - the GTK copy (src/pomodoro.rs) stores the lengths in seconds as `u32`,
    and alone has `EXTEND_DURATION`. It has `next` and derives `Debug`, which
    its label prints;
  - the Tauri front-end copy (src/components/pomodoro.rs) multiplies `u64`
    minutes by 60. It alone has `Default`, has `Display` and no `next`;
  - the second Yew front-end copy (ui/src/components/pomodoro.rs) multiplies
    `u32` minutes by 60, and has `next` and `Display`.

  `Status` is defined once. `Duration` gives every copy's length in seconds,
  and `Display` gives the text of the two Yew copies.
- `GtkApp` (gtk_app.dfy) is the GTK `AppModel` controller: its eight messages,
  `reset_timer_if_empty`, `show_time`, and the confirmation dialog. Every
  message keeps the invariant `0 < timer <= status.time_duration()`, whatever
  the stage, and that keeps `timer -= 1` from underflowing.
- `WallTimer` (wall_timer.dfy) is the wall-clock countdown component. It
  recomputes the time left from `SystemTime` on every tick. Durations are
  nanoseconds, with `Duration::MAX` saturation written out.
- `TickTimer` (tick_timer.dfy) is the decrement countdown of the second Yew
  front-end. `UiPomodoro` (ui_pomodoro.dfy) is the stage controller that
  drives it.
- `Frontend` (frontend.dfy) is the Yew function component of the Tauri
  front-end: its hook state, its tick listener and its two effects.
  `TimerPlugin` (timer_plugin.dfy) is the backend loop it talks to.
- `Base` and `Format` hold machine-integer ranges, `Option`, saturating
  subtraction, and decimal rendering/parsing of numbers.

Clocks, timeouts, notifications and plugin calls are inputs and outputs:
- `now` / `elapsed` arguments stand for the clock.
- An `armed` flag stands for the `Option<Timeout>` handle.
- The output flag `notify` and the `Command` values stand for `notify`,
  `invoke` and `emit_all`.
- The wall-clock timer's output flag `finished` means the time ran out. The
  optional `on_finish` callback is emitted then, when the parent set one.

Behaviours of the code worth noting:
- `ResetTimer` accepts a zero duration. Nothing rejects it.
- The wall-clock timer finishes only when the elapsed time strictly exceeds
  `max_time + paused_time`. The tick at exactly zero left still reports 0
  without finishing (`WallTimer.PauseResumeScenario`).
- A clock rewind is a panic (`ClockRewound`), not a clamp to zero.
- The time left can exceed `max_time`, because a reset keeps `paused_time`.
  See Findings.
- In the GTK app with auto-next off, the last `CountDown` of a stage already
  moves to the following stage. The dialog's "Start Next Task" then sends
  `NextStage`, which moves on again, so the confirmed stage is skipped. See
  Findings. "Extend Timer" gives five minutes to the stage that has just
  begun, not to the one that ran out.

## Model

| member | source | states |
|---|---|---|
| `Stages.TryNext` | src/pomodoro.rs:45-57 | the next stage of a stage in the round is again in the round, and every transition alternates between a focus session and a break (the same table is at src/components/pomodoro.rs:46-58 and ui/src/components/pomodoro.rs:48-60) |
| `Stages.Duration` | src/pomodoro.rs:27-43 | Focus lasts 2700 s, LongBreak 900 s, ShortBreak 300 s; every length is a whole number of minutes equal to the minutes the Yew copies multiply by 60, and is at least `EXTEND_DURATION` (300), the shortest stage |
| `Stages.Default` | src/components/pomodoro.rs:16-20 | the default stage, defined as the stage after a long break, is `Focus(0)` |
| `Stages.CycleClosed` | src/components/pomodoro.rs:46-58 | each of the eight stages of the round is followed by the next one in the round, and `LongBreak` by `Focus(0)` |
| `Stages.NextNFromStart` | src/pomodoro.rs:33-57 | after `k` calls of `next` from `Focus(0)` the stage is entry `k mod 8` of the round |
| `Stages.RoundTrip` | src/pomodoro.rs:45-57 | eight calls of `next` from `Focus(0)` return to `Focus(0)`; the `k`-th call lands on `LongBreak` exactly when `k mod 8 == 7`, so once per round |
| `Stages.InCycleIsReachable` | ui/src/components/pomodoro.rs:48-60 | a stage is reachable from `Focus(0)` (within eight steps) exactly when its counter is at most 3 for Focus and below 3 for ShortBreak |
| `Stages.NextNStaysInCycle` | ui/src/components/pomodoro.rs:36-38 | any number of `next` calls from a stage of the round stays in the round, so the `u32` counter never grows past 3 |
| `Stages.Display` | src/components/pomodoro.rs:22-30 | the text opens with "Focus Session " exactly for a focus session, with "Short Break " exactly for a short break, and is "Long Break !!!" exactly for the long break (same text at ui/src/components/pomodoro.rs:20-28) |
| `Stages.DisplayRoundTrip` | src/components/pomodoro.rs:22-30 | "Focus Session n", "Long Break !!!" and "Short Break n" name the stage unambiguously: parsing the text gives back the stage (same text at ui/src/components/pomodoro.rs:20-28) |
| `GtkApp.Default` | src/pomodoro.rs:68-79 | the app starts at `Focus(0)` with 2700 s on the timer, running, notification on, auto-next off; it satisfies the invariant and its stage is in the round |
| `GtkApp.SplitTime` | src/pomodoro.rs:83-88 | hours, minutes and seconds with minutes and seconds below 60 and `h*3600 + m*60 + s` equal to the duration |
| `GtkApp.ShowTime` | src/pomodoro.rs:83-88 | the label is digits and colons only, at least five characters, with a digit at each end; `GtkApp.ShowTimeRoundTrip` gives that it reads back as the duration |
| `GtkApp.ShowTimeRoundTrip` | src/pomodoro.rs:83-88 | the "h:m:s" label reads back as exactly the duration shown |
| `GtkApp.ResetTimerIfEmpty` | src/pomodoro.rs:105-117 | a non-empty timer is left unchanged and false returned; an empty one advances the stage once and is refilled with the new stage's length; it pauses iff auto-next is off and returns true iff auto-next is off and notification is on; the refilled timer satisfies the invariant, and a stage in the round gives way to one in the round |
| `GtkApp.OnCountDown` | src/pomodoro.rs:276-281 | the decrement panics exactly on a zero timer; under the invariant it takes one second off, or at the last second advances the stage, pauses unless auto-next is on and shows the dialog iff auto-next is off and notification on |
| `GtkApp.OnResume` | src/pomodoro.rs:282-286 | under the invariant only `is_paused` changes (to false) and the timer thread is told to tick twice; on an empty timer the stage advances |
| `GtkApp.OnReset` | src/pomodoro.rs:287-291 | keeps the stage and flags, refills the timer with the stage's length and runs, so the invariant holds for any stage |
| `GtkApp.OnNextStage` | src/pomodoro.rs:295-299 | the stage becomes `try_next` of the old one, the timer that stage's length, `is_paused` false, no dialog, flags unchanged; the invariant holds afterwards whatever the stage before |
| `GtkApp.OnExtend` | src/pomodoro.rs:300-303 | the timer becomes 300 s and the app runs, with the stage unchanged; the invariant survives because 300 s is the shortest stage |
| `GtkApp.Update` | src/pomodoro.rs:274-311 | every message keeps `0 < timer <= status.time_duration()`, so the decrement never underflows; the decrement panics exactly on `CountDown` at 0; a stage in the round gives way to one in the round; the last flag sent to the timer thread is `!is_paused`; only `CountDown` shows the dialog; pause and the two toggles change only their own field |
| `GtkApp.RunKeepsInvariant` | src/pomodoro.rs:274-311 | from a model satisfying the invariant, no sequence of messages panics and the invariant holds at the end |
| `GtkApp.RunStaysInCycle` | src/pomodoro.rs:45-57 | from a stage of the round, any sequence of messages ends on a stage of the round, so the `u32` break counter stays at most 3 |
| `GtkApp.DefaultNeverUnderflows` | src/pomodoro.rs:68-78 | from `Default`, every sequence of messages runs without underflow, ends with `0 < timer <= time_duration()`, and on a stage of the round |
| `GtkApp.DialogInit` | src/pomodoro.rs:223-225 | the dialog starts hidden |
| `GtkApp.DialogUpdate` | src/pomodoro.rs:228-248 | `Show` alone makes the dialog visible; "Start Next Task" sends exactly `NextStage`, "Extend Timer" exactly `ExtendStage`, and `Show` and "Pause Timer" send nothing |
| `GtkApp.ConfirmSkipsStage` | src/pomodoro.rs:106-110 | as written, at the last second with auto-next off and notification on, `CountDown` moves to `try_next` of the stage, pauses and shows the dialog; "Start Next Task" then lands on `try_next` of that, a different stage; "Extend Timer" puts 300 s on the new stage and runs; "Pause Timer" changes nothing |
| `GtkApp.FirstFocusConfirmed` | src/pomodoro.rs:237-240 | a concrete run: `Focus(0)` at 1 s runs out into `ShortBreak(0)`, and confirming lands on `Focus(1)` |
| `GtkApp.DialogUpdateCorrected` | src/pomodoro.rs:237-240 | the corrected dialog: "Start Next Task" sends `ResumeTimer`; the other buttons behave as written |
| `GtkApp.ConfirmStartsFollowingStage` | src/pomodoro.rs:274-286 | with the corrected dialog, confirming at the end of a stage runs `try_next` of that stage from its full length, flags unchanged |
| `WallTimer.Default` | src/components/timer.rs:8-15 | the default timer has no start time, zero durations and no timeout |
| `WallTimer.Resume` | src/components/timer.rs:58-74 | always leaves a timeout armed; while ticking, returns false and changes nothing; when paused with a start time, sets `paused_time = (now - start) + time_left - max_time` (0 if negative, `Duration::MAX - max_time` if the sum saturates) and returns true; when paused without a start time, returns false; a clock rewind panics |
| `WallTimer.Pause` | src/components/timer.rs:75 | drops the timeout, returns whether one was armed (so a second pause returns false), changes nothing else |
| `WallTimer.Reset` | src/components/timer.rs:76-82 | starts from `now` with `max_time = time_left = secs`, armed, returns true, and leaves `paused_time` untouched |
| `WallTimer.CountDown` | src/components/timer.rs:83-109 | without a start time nothing changes and false is returned; otherwise the timer re-arms and `time_left` becomes `max + paused - (now - start)`, returning true iff that differs from the stored value; past that budget it finishes (emitting `on_finish`, if set), drops the timeout and the start time |
| `WallTimer.Update` | src/components/timer.rs:56-111 | the time runs out only on `CountDown`, which leaves no start time; no message but `ResetTimer` gives a stopped timer a start time; panics happen only on a clock earlier than the start |
| `WallTimer.StoppedNeverFinishes` | src/components/timer.rs:83-84 | a timer without a start time never finishes before the next `ResetTimer` |
| `WallTimer.FinishAtMostOncePerReset` | src/components/timer.rs:98-106 | over any sequence of messages without `ResetTimer`, the timer finishes at most once, so `on_finish` is emitted at most once |
| `WallTimer.PauseCostsNothing` | src/components/timer.rs:58-97 | after a resume at `t_r` (with the elapsed-plus-left sum at least `max_time`), a `CountDown` at `t'` shows `time_left - (t' - t_r)`, and finishes only once that is used up: paused time costs no countdown time |
| `WallTimer.PauseResumeScenario` | src/components/timer.rs:56-109 | reset to 5 s, 2 s left after 3 s, 10 s paused, then 2 s later 0 left without finishing, and finishing one second later |
| `WallTimer.ResetKeepsPausedTime` | src/components/timer.rs:76-82 | as written, a reset after a paused period carries the old `paused_time`, so the next `CountDown` reports `max_time + paused_time` left, more than `max_time` |
| `WallTimer.StalePausedTimeLengthensNextPeriod` | src/components/timer.rs:76-82 | a concrete run: 10 s period paused from 1 s to 6 s, reset to 5 s at 20 s, and 9 s left of 5 s one second later |
| `WallTimer.ResetCleared` | src/components/timer.rs:76-82 | the corrected reset: the same as `ResetTimer` but with `paused_time` cleared |
| `WallTimer.UpdateCorrected` | src/components/timer.rs:56-109 | `update` with the corrected reset; it agrees with the as-written update on every other message |
| `WallTimer.ResetClearedCountsFromMax` | src/components/timer.rs:76-97 | with the corrected reset, `k` ns after the reset the time left is `max_time - k`, never above `max_time`, and the period finishes once `k` exceeds it |
| `WallTimer.CorrectedStepKeepsSound` | src/components/timer.rs:56-109 | one corrected step at a clock no earlier than the last keeps `time_left <= max_time` and `paused_time <= last - start`, and never panics |
| `WallTimer.CorrectedRunBounded` | src/components/timer.rs:56-109 | over any run whose clock never goes backwards, the corrected timer never panics and its time left never exceeds `max_time` |
| `WallTimer.DefaultCorrectedRunBounded` | src/components/timer.rs:8-15 | the same from the default timer, with the clock starting anywhere |
| `TickTimer.Create` | ui/src/components/timer.rs:41-52 | starts with `max_time = time_left = 0`, no timeout and `stop_notify` set |
| `TickTimer.Update` | ui/src/components/timer.rs:54-86 | every message keeps `time_left <= max_time`; `CountDown` re-arms, takes exactly one second off a non-zero timer and never goes below 0; the notification fires iff a `CountDown` finds 0 with `stop_notify` clear, and sets it; pause and resume change only the timeout; `ResetTimer(m)` sets both times to `m`, arms and clears `stop_notify` |
| `TickTimer.CountDownsEffect` | ui/src/components/timer.rs:71-84 | `k` `CountDown`s take `min(k, time_left)` seconds off and notify once iff they go past zero with notification due, zero times otherwise |
| `TickTimer.ResetThenCountDown` | ui/src/components/timer.rs:64-84 | after `ResetTimer(m)`, `k <= m` `CountDown`s leave `m - k`; the `m`-th reaches 0 without notifying, the next notifies, and later ones never notify again |
| `TickTimer.NotifyAtMostOncePerReset` | ui/src/components/timer.rs:72-78 | without a reset, any sequence of messages notifies at most once, and never once `stop_notify` is set |
| `TickTimer.RunKeepsInvariant` | ui/src/components/timer.rs:54-86 | `time_left <= max_time` holds after any sequence of messages |
| `UiPomodoro.Create` | ui/src/components/pomodoro.rs:75-81 | the controller starts at `Focus(0)` |
| `UiPomodoro.Update` | ui/src/components/pomodoro.rs:83-99 | `NextStage` advances the stage exactly once, announces the stage that ended, and sends `ResetTimer` with the new stage's length; the three `todo!()` messages are excluded by the precondition |
| `UiPomodoro.Rendered` | ui/src/components/pomodoro.rs:101-107 | sends `ResetTimer(current length)` exactly on the first render |
| `UiPomodoro.NextStageRefillsTimer` | ui/src/components/pomodoro.rs:92-95 | after `NextStage` the timer holds the new stage's full length, armed, with its notification due again |
| `UiPomodoro.StartUp` | ui/src/components/pomodoro.rs:101-105 | the first render arms the timer with the 2700 s focus session |
| `Frontend.Initial` | src/components/pomodoro.rs:68-70 | the hooks start at `Focus(0)`, 2700 s left, running |
| `Frontend.Mount` | src/components/pomodoro.rs:71-125 | the first render keeps that state and sends exactly one `start_timer(2700)` |
| `Frontend.OnTick` | src/components/pomodoro.rs:96-107 | a payload of 0 sets 0 s left, stops running, advances the stage once and notifies "<stage> ended"; any other payload only sets the seconds left |
| `Frontend.Dispatch` | src/components/pomodoro.rs:71-136 | any change of stage refills the seconds left with the new stage's length; a final tick stops the backend; other ticks change only the seconds left; ticks while not running are unheard; the button flips `running` and starts (with the seconds left) or stops the backend |
| `Frontend.StageHandOver` | src/components/pomodoro.rs:96-117 | the final tick makes the front-end send `stop_timer`, which the idle backend ignores; the next click starts the backend on the following stage's full length |
| `TimerPlugin.StartTimerPayload` | src-tauri/src/timer_plugin.rs:11-16 | `start_timer` sends its duration unchanged |
| `TimerPlugin.StartTimerStarts` | src-tauri/src/timer_plugin.rs:11-16 | that payload starts an idle plugin counting from the instant it arrives iff it is non-zero, and mid-count, while time is left, replaces the duration from the same start instant |
| `TimerPlugin.StopTimerPayload` | src-tauri/src/timer_plugin.rs:18-23 | `stop_timer` sends 0 |
| `TimerPlugin.Receive` | src-tauri/src/timer_plugin.rs:32-34 | a duration received while idle starts a countdown from `now` iff it is non-zero |
| `TimerPlugin.Step` | src-tauri/src/timer_plugin.rs:36-50 | the tick is `duration` less the elapsed seconds, never negative and never above `duration`; the loop ends iff the time is up or 0 arrived; otherwise it continues with the received duration, or the old one |
| `TimerPlugin.TickNonIncreasing` | src-tauri/src/timer_plugin.rs:36-37 | for a fixed duration the tick does not grow with elapsed time, does not depend on the incoming message, and is 0 once the duration has elapsed |
| `TimerPlugin.Iterate` | src-tauri/src/timer_plugin.rs:34-50 | at instant `now` the tick is the duration less the whole seconds since the start; the task goes idle iff those reach the duration or 0 arrived; otherwise it continues with the received duration, or the old one, from the same start instant |
| `TimerPlugin.SamplesFrom` | src-tauri/src/timer_plugin.rs:36-37 | each iteration's elapsed seconds are measured from the loop's start instant |
| `TimerPlugin.Drive` | src-tauri/src/timer_plugin.rs:32-53 | the task driven one iteration per clock instant emits at most one tick per instant, at least one before going idle, and one for every instant if it never goes idle; `TimerPlugin.DriveIsRun` equates it with `Run` |
| `TimerPlugin.DriveIsRun` | src-tauri/src/timer_plugin.rs:32-53 | driving the task one iteration at a time from clock instants gives exactly `Run`'s trace over the seconds elapsed since the original start, so a replaced duration never restarts the clock |
| `TimerPlugin.Run` | src-tauri/src/timer_plugin.rs:35-53 | iteration `i` ticks its current duration less its elapsed seconds, where the duration is the starting one replaced by each command received; every iteration but the last continues; the loop has exited iff its last iteration breaks, and otherwise it runs every sample |
| `TimerPlugin.QuietDurations` | src-tauri/src/timer_plugin.rs:41-46 | with no commands received, every iteration counts down the starting duration |
| `TimerPlugin.QuietRun` | src-tauri/src/timer_plugin.rs:35-53 | with no commands, every tick is the duration less that iteration's elapsed seconds, whatever the iteration count; the loop exits iff some iteration's elapsed time reaches the duration, and at the first such one |
| `TimerPlugin.StopTimerEndsCountdown` | src-tauri/src/timer_plugin.rs:41-50 | receiving `stop_timer`'s 0 mid-count ends the loop in that iteration, and an idle plugin ignores it |

## Left out

- Widget trees and views (the GTK `view!`, the dialog's widgets and its response mapping, the Yew `view` functions, the title bar, the app shell): UI rendering.
- The progress-bar fraction `timer as f64 / duration as f64`: floating point.
- `get_label` in the GTK app is string assembly around `show_time` and `Debug` output; only `show_time` is modelled.
- The GTK `TimerHandler` thread loop, the Tauri async channel, `thread::sleep`, and the `Timeout` handles: concurrency and scheduling. A timeout is a boolean `armed` flag, and the clock is an explicit `now` or `elapsed` argument.
- The Tauri and JavaScript bindings (`notify`, `invoke`, `listen`, `emit_all`): foreign calls. They appear only as output values. `notify(..).expect(..)` failing is not modelled.
- `WeakComponentLink` wiring and `print_duration` formatting: library code that is not shown.
- Entry points (`main` functions): bootstrapping only.
- `Stages.TryNext`: the counter is unbounded. Rust's `u32` `breaks + 1` would overflow only from `ShortBreak(4294967295)`, and `Stages.NextNStaysInCycle` shows that stage is never reached.
- `GtkApp.OnCountDown`: `timer -= 1` on 0 is modelled as the debug-build panic (`Underflow`). Release-build wrap-around is not modelled. `GtkApp.Update` shows it cannot happen under the invariant.
- `Frontend.Dispatch`: the tick listener reads the stage captured when it was registered. The model reads the current stage. The two agree, because the stage changes only on the final tick, which also stops the listener.
- `WallTimer.PauseCostsNothing`: it assumes the elapsed-plus-left sum is at least `max_time` and does not saturate. Outside that range `paused_time` falls back to 0 or to `Duration::MAX - max_time` (both stated by `WallTimer.Resume`), and no such claim is made.
- `GtkApp.DialogUpdateCorrected`: only "Start Next Task" is corrected. "Extend Timer" still extends the stage that has just begun, since the intent there is unclear.
- `TimerPlugin.Step`: `Instant::elapsed` is taken as whole seconds, saturating at zero. The monotonic clock itself is not modelled.

## Findings

| source | as written | input that shows it | evidently intended | confidence | as-written member | corrected member |
|---|---|---|---|---|---|---|
| src/components/timer.rs:76-82 | `ResetTimer` sets the start, maximum and time left but keeps `paused_time` from the previous period | reset to 10 s at 0 s, `CountDown` at 1 s, pause, resume at 6 s (`paused_time` = 5 s), reset to 5 s at 20 s, `CountDown` at 21 s: 9 s left of a 5 s period | a new period counts down from its own maximum, so `paused_time` is cleared on reset | not executed | `WallTimer.StalePausedTimeLengthensNextPeriod` | `WallTimer.ResetClearedCountsFromMax` |
| src/pomodoro.rs:237-240 | with auto-next off the last `CountDown` has already moved to the following stage (lines 106-110) when the dialog shows; "Start Next Task" sends `NextStage`, which moves on again (lines 295-299) | auto-next off, notification on, `Focus(0)` with 1 s left: `CountDown` gives `ShortBreak(0)`, "Start Next Task" gives `Focus(1)` | "Start Next Task" starts the stage the countdown moved to | not executed | `GtkApp.FirstFocusConfirmed` | `GtkApp.ConfirmStartsFollowingStage` |
