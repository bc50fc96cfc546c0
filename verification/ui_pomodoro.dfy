/** The stage controller of the second Yew front-end: it owns the current stage
    and drives the decrement timer by sending it `ResetTimer` messages. */
module UiPomodoro {
  import opened Base
  import opened Stages
  import TickTimer

  datatype Pomodoro = Pomodoro(status: Status)

  datatype Msg =
    | NotifyToggled(isNotify: bool)
    | AutoNextTaskToggled(isAutoNextTask: bool)
    | ExtendStage
    | NextStage

  /** The new model, the text passed to `notify`, and the message sent to the
      timer component. */
  datatype Output = Output(model: Pomodoro, notice: string, toTimer: TickTimer.Msg)

  /** `Pomodoro::create`: the stage after a long break. */
  function Create(): (p: Pomodoro)
    ensures p.status == Focus(0)
  {
    Pomodoro(TryNext(LongBreak))
  }

  /** `Pomodoro::update`. Only `NextStage` is implemented; the other three
      messages reach `todo!()`, so callers must not send them. `NextStage`
      announces the stage that ended, advances once, and restarts the timer with
      the new stage's length. */
  function Update(p: Pomodoro, msg: Msg): (r: Output)
    requires msg.NextStage?
    ensures r.model.status == TryNext(p.status)
    ensures r.toTimer == TickTimer.ResetTimer(Duration(r.model.status))
    ensures r.notice == "Timer Expired for " + Display(p.status)
  {
    var notice := "Timer Expired for " + Display(p.status);
    var next := Pomodoro(TryNext(p.status));
    Output(next, notice, TickTimer.ResetTimer(Duration(next.status)))
  }

  /** `Pomodoro::rendered`: the first render starts the timer on the current
      stage; later renders send nothing. */
  function Rendered(p: Pomodoro, firstRender: bool): (r: Option<TickTimer.Msg>)
    ensures r.Some? <==> firstRender
    ensures r.Some? ==> r.value == TickTimer.ResetTimer(Duration(p.status))
  {
    if firstRender then Some(TickTimer.ResetTimer(Duration(p.status))) else None
  }

  /** After `NextStage` the timer counts down exactly the new stage's length,
      with its expiry notification due again. */
  lemma NextStageRefillsTimer(p: Pomodoro, t: TickTimer.Timer)
    ensures var r := Update(p, NextStage);
      var t1 := TickTimer.Update(t, r.toTimer).timer;
      && t1.timeLeft == t1.maxTime == Duration(TryNext(p.status))
      && t1.armed && !t1.stopNotify
  {
  }

  /** On start-up the timer is armed with the 45-minute focus session. */
  lemma StartUp(t: TickTimer.Timer)
    ensures var m := Rendered(Create(), true);
      m.Some? && TickTimer.Update(t, m.value).timer.timeLeft == 2700
  {
  }
}
