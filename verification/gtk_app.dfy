/** The GTK/relm4 application model: a message-driven controller over the pause,
    notify and auto-next flags, the seconds left on the timer and the current stage.
    The timer thread and the confirmation dialog are collaborators; the model
    records what is sent to them. */
module GtkApp {
  import opened Base
  import opened Format
  import opened Stages

  datatype AppModel = AppModel(
    isPaused: bool,
    isNotify: bool,
    isAutoNextTask: bool,
    timer: u32,
    status: Status)

  datatype AppMsg =
    | ResumeTimer
    | CountDown
    | PauseTimer
    | ResetTimer
    | NotifyToggled(isNotify: bool)
    | AutoNextTaskToggled(isAutoNextTask: bool)
    | ExtendStage
    | NextStage

  /** The result of one `update`: the new model, whether the confirmation dialog
      was told to show, and the flags sent to the timer thread, in order (true
      keeps it ticking, false stops it). `Underflow` is the `timer -= 1` on a zero
      `u32`, which panics. */
  datatype Outcome =
    | Next(model: AppModel, showDialog: bool, handlerSends: seq<bool>)
    | Underflow

  /** The invariant that keeps the decrement in `CountDown` in range: the timer
      holds between one second and the length of the current stage. It holds
      whatever the stage; that the stage stays one of the round is `InCycle`. */
  predicate Inv(m: AppModel) {
    0 < m.timer <= Duration(m.status)
  }

  function Default(): (m: AppModel)
    ensures Inv(m) && InCycle(m.status)
    ensures m.status == Focus(0) && m.timer == 2700
    ensures !m.isPaused && m.isNotify && !m.isAutoNextTask
  {
    AppModel(false, true, false, Duration(Focus(0)), Focus(0))
  }

  /** Hours, minutes and seconds of a duration in seconds. */
  function SplitTime(duration: nat): (hms: (nat, nat, nat))
    ensures hms.1 < 60 && hms.2 < 60
    ensures hms.0 * 3600 + hms.1 * 60 + hms.2 == duration
  {
    ((duration / 60) / 60, (duration / 60) % 60, duration % 60)
  }

  /** `show_time`: "h:m:s" without padding. */
  function ShowTime(duration: nat): (t: string)
    // digits and colons only, with a digit at each end
    ensures |t| >= 5 && IsDigit(t[0]) && IsDigit(t[|t| - 1])
    ensures forall i :: 0 <= i < |t| ==> IsDigit(t[i]) || t[i] == ':'
  {
    var (h, m, s) := SplitTime(duration);
    NatToString(h) + ":" + NatToString(m) + ":" + NatToString(s)
  }

  /** Reads "h:m:s" back into seconds. */
  function ParseTime(text: string): Option<nat> {
    var parts := SplitOn(text, ':');
    if |parts| != 3 then None
    else
      match (ParseNat(parts[0]), ParseNat(parts[1]), ParseNat(parts[2]))
      case (Some(h), Some(m), Some(s)) => Some(h * 3600 + m * 60 + s)
      case _ => None
  }

  lemma NoColon(n: nat)
    ensures forall i :: 0 <= i < |NatToString(n)| ==> NatToString(n)[i] != ':'
  {
  }

  /** The label text shows exactly the duration it was given. */
  lemma ShowTimeRoundTrip(duration: nat)
    ensures ParseTime(ShowTime(duration)) == Some(duration)
  {
    var (h, m, s) := SplitTime(duration);
    var a, b, c := NatToString(h), NatToString(m), NatToString(s);
    NoColon(h);
    NoColon(m);
    NoColon(s);
    SplitOnWhole(c, ':');
    SplitOnPrefix(b, ':', c);
    SplitOnPrefix(a, ':', b + ":" + c);
    assert ShowTime(duration) == a + [':'] + (b + [':'] + c);
    ParseNatToString(h);
    ParseNatToString(m);
    ParseNatToString(s);
  }

  /** The model after `reset_timer_if_empty` and the value it returns (whether
      the dialog should be shown). */
  datatype Reset = Reset(model: AppModel, notify: bool)

  /** `reset_timer_if_empty`: an empty timer moves to the next stage and is
      refilled; without auto-next the timer also pauses, and the caller is asked
      to notify when notification is on. */
  function ResetTimerIfEmpty(m: AppModel): (r: Reset)
    ensures m.timer != 0 ==> r == Reset(m, false)
    ensures m.timer == 0 ==>
      && r.model.status == TryNext(m.status)
      && r.model.timer == Duration(r.model.status)
      && r.model.isPaused == (m.isPaused || !m.isAutoNextTask)
      && r.model.isNotify == m.isNotify
      && r.model.isAutoNextTask == m.isAutoNextTask
    ensures r.notify <==> m.timer == 0 && !m.isAutoNextTask && m.isNotify
    ensures m.timer == 0 ==> Inv(r.model)
    ensures InCycle(m.status) ==> InCycle(r.model.status)
  {
    if m.timer == 0 then
      var status := TryNext(m.status);
      var m1 := m.(status := status, timer := Duration(status));
      if !m1.isAutoNextTask then Reset(m1.(isPaused := true), m1.isNotify)
      else Reset(m1, false)
    else Reset(m, false)
  }

  /** The closing `timer_handler.send(!is_paused)` common to every message. */
  function Finish(m: AppModel, showDialog: bool, sends: seq<bool>): Outcome {
    Next(m, showDialog, sends + [!m.isPaused])
  }

  /** `CountDown`: one second off the timer; on reaching zero the stage advances
      and, without auto-next, the timer pauses and the dialog is shown if
      notification is on. */
  function OnCountDown(m: AppModel): (r: Outcome)
    ensures r.Underflow? <==> m.timer == 0
    ensures Inv(m) ==> r.Next? && Inv(r.model)
    ensures r.Next? && InCycle(m.status) ==> InCycle(r.model.status)
    ensures Inv(m) && m.timer > 1 ==> r == Next(m.(timer := m.timer - 1), false, [!m.isPaused])
    ensures m.timer == 1 ==>
      && r.Next?
      && r.model.status == TryNext(m.status)
      && r.model.timer == Duration(r.model.status)
      && r.model.isPaused == (m.isPaused || !m.isAutoNextTask)
      && r.showDialog == (!m.isAutoNextTask && m.isNotify)
  {
    if m.timer == 0 then Underflow
    else
      var reset := ResetTimerIfEmpty(m.(timer := m.timer - 1));
      Finish(reset.model, reset.notify, [])
  }

  /** `ResumeTimer`: unpauses; with a non-empty timer nothing else changes. */
  function OnResume(m: AppModel): (r: Outcome)
    ensures r.Next? && !r.showDialog
    ensures Inv(m) ==> r == Next(m.(isPaused := false), false, [true, true])
    ensures m.timer == 0 ==> r.model.status == TryNext(m.status) && Inv(r.model)
    ensures InCycle(m.status) ==> InCycle(r.model.status)
  {
    var reset := ResetTimerIfEmpty(m.(isPaused := false));
    Finish(reset.model, false, [true])
  }

  /** `ResetTimer`: the current stage starts over, running. */
  function OnReset(m: AppModel): (r: Outcome)
    ensures r.Next? && !r.showDialog && Inv(r.model)
    ensures r.model.status == m.status && r.model.timer == Duration(m.status) && !r.model.isPaused
    ensures r.model.isNotify == m.isNotify && r.model.isAutoNextTask == m.isAutoNextTask
    ensures r.handlerSends == [true, true]
  {
    Finish(m.(isPaused := false, timer := Duration(m.status)), false, [true])
  }

  /** `NextStage`: skips to the following stage, refilled and running, with no
      dialog. */
  function OnNextStage(m: AppModel): (r: Outcome)
    ensures r.Next? && !r.showDialog && Inv(r.model)
    ensures InCycle(m.status) ==> InCycle(r.model.status)
    ensures r.model.status == TryNext(m.status) && r.model.timer == Duration(r.model.status)
    ensures !r.model.isPaused
    ensures r.model.isNotify == m.isNotify && r.model.isAutoNextTask == m.isAutoNextTask
    ensures r.handlerSends == [true]
  {
    var reset := ResetTimerIfEmpty(m.(timer := 0));
    Finish(reset.model.(isPaused := false), false, [])
  }

  /** `ExtendStage`: five more minutes in the same stage, running; five minutes
      never exceeds a stage's length. */
  function OnExtend(m: AppModel): (r: Outcome)
    ensures r.Next? && !r.showDialog && Inv(r.model)
    ensures r.model == m.(timer := 300, isPaused := false)
    ensures r.handlerSends == [true]
  {
    Finish(m.(timer := EXTEND_DURATION, isPaused := false), false, [])
  }

  /** `AppUpdate::update` for one message. */
  function Update(m: AppModel, msg: AppMsg): (r: Outcome)
    // every message keeps the invariant, so the decrement never underflows
    ensures Inv(m) ==> r.Next? && Inv(r.model)
    ensures r.Underflow? <==> msg.CountDown? && m.timer == 0
    ensures r.Next? && InCycle(m.status) ==> InCycle(r.model.status)
    // the timer thread is last told to tick exactly when the model is running
    ensures r.Next? ==> |r.handlerSends| > 0 && r.handlerSends[|r.handlerSends| - 1] == !r.model.isPaused
    ensures r.Next? && r.showDialog ==> msg.CountDown?
    // pausing and the two toggles change only their own field
    ensures msg.PauseTimer? ==> r.Next? && r.model == m.(isPaused := true)
    ensures msg.NotifyToggled? ==> r.Next? && r.model == m.(isNotify := msg.isNotify)
    ensures msg.AutoNextTaskToggled? ==> r.Next? && r.model == m.(isAutoNextTask := msg.isAutoNextTask)
  {
    match msg
    case CountDown => OnCountDown(m)
    case ResumeTimer => OnResume(m)
    case ResetTimer => OnReset(m)
    case PauseTimer => Finish(m.(isPaused := true), false, [])
    case NextStage => OnNextStage(m)
    case ExtendStage => OnExtend(m)
    case NotifyToggled(b) => Finish(m.(isNotify := b), false, [])
    case AutoNextTaskToggled(b) => Finish(m.(isAutoNextTask := b), false, [])
  }

  /** Applies messages in order; stops at the first panic. */
  function Run(m: AppModel, msgs: seq<AppMsg>): Outcome
    decreases |msgs|
  {
    if |msgs| == 0 then Next(m, false, [])
    else
      match Update(m, msgs[0])
      case Underflow => Underflow
      case Next(m1, _, _) => Run(m1, msgs[1..])
  }

  /** From any model satisfying the invariant, no sequence of messages panics,
      and the invariant still holds at the end. */
  lemma {:induction false} RunKeepsInvariant(m: AppModel, msgs: seq<AppMsg>)
    requires Inv(m)
    ensures Run(m, msgs).Next? && Inv(Run(m, msgs).model)
    decreases |msgs|
  {
    if |msgs| > 0 {
      RunKeepsInvariant(Update(m, msgs[0]).model, msgs[1..]);
    }
  }

  /** A stage of the round only ever gives way to another stage of the round,
      so the break counters stay small. */
  lemma {:induction false} RunStaysInCycle(m: AppModel, msgs: seq<AppMsg>)
    requires InCycle(m.status)
    ensures Run(m, msgs).Next? ==> InCycle(Run(m, msgs).model.status)
    decreases |msgs|
  {
    if |msgs| > 0 && Update(m, msgs[0]).Next? {
      RunStaysInCycle(Update(m, msgs[0]).model, msgs[1..]);
    }
  }

  /** The application, started from `Default`, never underflows its timer and
      stays in the round. */
  lemma DefaultNeverUnderflows(msgs: seq<AppMsg>)
    ensures Run(Default(), msgs).Next?
    ensures 0 < Run(Default(), msgs).model.timer <= Duration(Run(Default(), msgs).model.status)
    ensures InCycle(Run(Default(), msgs).model.status)
  {
    RunKeepsInvariant(Default(), msgs);
    RunStaysInCycle(Default(), msgs);
  }

  /* The confirmation dialog. It is shown when a stage runs out with auto-next
     off and notification on; each of its three buttons hides it, and two of
     them send a message back to the application. */

  datatype DialogModel = DialogModel(hidden: bool)

  datatype DialogMsg = Show | Accept | PartialAccept | Cancel

  /** The dialog after a message, and the message it sends to the application. */
  datatype DialogStep = DialogStep(dialog: DialogModel, toApp: Option<AppMsg>)

  function DialogInit(): (d: DialogModel)
    ensures d.hidden
  {
    DialogModel(true)
  }

  /** `DialogModel::update`: "Start Next Task" (`Accept`) asks for the next
      stage, "Extend Timer" (`PartialAccept`) for five more minutes, and "Pause
      Timer" (`Cancel`) only closes the dialog, leaving the timer paused. */
  function DialogUpdate(d: DialogModel, msg: DialogMsg): (r: DialogStep)
    ensures r.dialog.hidden <==> !msg.Show?
    ensures msg.Accept? <==> r.toApp == Some(NextStage)
    ensures msg.PartialAccept? <==> r.toApp == Some(ExtendStage)
    ensures msg.Show? || msg.Cancel? <==> r.toApp.None?
  {
    match msg
    case Show => DialogStep(DialogModel(false), None)
    case Accept => DialogStep(DialogModel(true), Some(NextStage))
    case PartialAccept => DialogStep(DialogModel(true), Some(ExtendStage))
    case Cancel => DialogStep(DialogModel(true), None)
  }

  /** The application model once the dialog's `step` has been taken and the
      message it sends, if any, has been handled. */
  function Answer(m: AppModel, step: DialogStep): AppModel {
    if step.toApp.Some? && Update(m, step.toApp.value).Next? then Update(m, step.toApp.value).model
    else m
  }

  /** The open dialog answered with `choice`. */
  function Open(choice: DialogMsg): DialogStep {
    DialogUpdate(DialogModel(false), choice)
  }

  /** As written, the countdown has already moved to the following stage when
      the dialog appears, and "Start Next Task" moves on once more: the stage
      the user confirmed is skipped. "Extend Timer" extends the stage that has
      just begun, not the one that ran out. */
  lemma ConfirmSkipsStage(m: AppModel)
    requires Inv(m) && m.timer == 1 && !m.isAutoNextTask && m.isNotify
    ensures Update(m, CountDown).Next? && Update(m, CountDown).showDialog
    ensures Update(m, CountDown).model.status == TryNext(m.status)
    ensures Update(m, CountDown).model.isPaused
    ensures Answer(Update(m, CountDown).model, Open(Accept)).status == TryNext(TryNext(m.status))
    ensures Answer(Update(m, CountDown).model, Open(Accept)).status != TryNext(m.status)
    ensures Answer(Update(m, CountDown).model, Open(PartialAccept))
         == Update(m, CountDown).model.(timer := EXTEND_DURATION, isPaused := false)
    ensures Answer(Update(m, CountDown).model, Open(Cancel)) == Update(m, CountDown).model
  {
  }

  /** The first focus period, confirmed, is followed by the second focus period
      instead of the first short break. */
  lemma FirstFocusConfirmed()
    ensures Update(AppModel(false, true, false, 1, Focus(0)), CountDown).model.status == ShortBreak(0)
    ensures Answer(Update(AppModel(false, true, false, 1, Focus(0)), CountDown).model, Open(Accept)).status
         == Focus(1)
  {
    ConfirmSkipsStage(AppModel(false, true, false, 1, Focus(0)));
  }

  /** The dialog as evidently intended: "Start Next Task" starts the stage the
      countdown has already moved to, by resuming the timer. */
  function DialogUpdateCorrected(d: DialogModel, msg: DialogMsg): (r: DialogStep)
    ensures r.dialog.hidden <==> !msg.Show?
    ensures msg.Accept? <==> r.toApp == Some(ResumeTimer)
    ensures msg.PartialAccept? <==> r.toApp == Some(ExtendStage)
    ensures msg.Show? || msg.Cancel? <==> r.toApp.None?
  {
    match msg
    case Accept => DialogStep(DialogModel(true), Some(ResumeTimer))
    case _ => DialogUpdate(d, msg)
  }

  /** With the corrected dialog, confirming starts the stage that follows the
      one that ran out, from its full length. */
  lemma ConfirmStartsFollowingStage(m: AppModel)
    requires Inv(m) && m.timer == 1 && !m.isAutoNextTask && m.isNotify
    ensures Update(m, CountDown).showDialog
    ensures var a := Answer(Update(m, CountDown).model, DialogUpdateCorrected(DialogModel(false), Accept));
      && a.status == TryNext(m.status)
      && a.timer == Duration(TryNext(m.status))
      && !a.isPaused
      && a.isNotify == m.isNotify && a.isAutoNextTask == m.isAutoNextTask
  {
  }
}
