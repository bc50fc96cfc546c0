/** The Yew function component of the Tauri front-end: it keeps the stage, the
    seconds left and a running flag in hook state, asks the backend plugin to
    start or stop counting, and listens for its "tick" events. Two effects react
    to state changes: a change of stage refills the seconds left, and a change of
    the running flag starts (with the seconds left) or stops the backend timer.
    The listener exists only while running. */
module Frontend {
  import opened Base
  import opened Stages
  import TimerPlugin

  datatype Front = Front(status: Status, timeLeft: u64, running: bool)

  /** Requests to the backend plugin. */
  datatype Command = StartTimer(duration: u64) | StopTimer

  /** A "tick" event from the backend, or a click on the play/pause button. */
  datatype Event = Tick(payload: u64) | PlayPauseClicked

  /** The state after all effects have run, the commands sent, and the texts
      passed to `notify`. */
  datatype Reaction = Reaction(front: Front, commands: seq<Command>, notices: seq<string>)

  /** The hook initialisers: the default stage, its full length, running. */
  function Initial(): (f: Front)
    ensures f.status == Focus(0) && f.timeLeft == 2700 && f.running
  {
    var status := Default();
    Front(status, Duration(status), true)
  }

  /** The stage effect: a new stage starts with its full length. */
  function StatusEffect(f: Front): Front {
    f.(timeLeft := Duration(f.status))
  }

  /** The running effect: start the backend with the seconds left, or stop it. */
  function RunningEffect(f: Front): Command {
    if f.running then StartTimer(f.timeLeft) else StopTimer
  }

  /** The first render runs both effects. */
  function Mount(): (r: Reaction)
    ensures r.front == Initial()
    ensures r.commands == [StartTimer(2700)] && r.notices == []
  {
    var f := StatusEffect(Initial());
    Reaction(f, [RunningEffect(f)], [])
  }

  /** The tick listener: a payload of 0 ends the stage (seconds left 0, not
      running, next stage, a notification naming the stage that ended); any other
      payload only updates the seconds left. */
  function OnTick(f: Front, payload: u64): (r: (Front, Option<string>))
    ensures payload == 0 ==> r.0 == Front(TryNext(f.status), 0, false)
    ensures payload == 0 ==> r.1 == Some(Display(f.status) + " ended")
    ensures payload != 0 ==> r == (f.(timeLeft := payload), None)
  {
    if payload == 0 then
      (f.(timeLeft := 0, running := false, status := TryNext(f.status)), Some(Display(f.status) + " ended"))
    else (f.(timeLeft := payload), None)
  }

  /** Runs the effects whose dependency changed between `before` and `after`. */
  function Commit(before: Front, after: Front, notices: seq<string>): Reaction {
    var f := if after.status != before.status then StatusEffect(after) else after;
    var commands := if after.running != before.running then [RunningEffect(f)] else [];
    Reaction(f, commands, notices)
  }

  /** One event, its handler and the effects it triggers. */
  function Dispatch(f: Front, ev: Event): (r: Reaction)
    // any change of stage refills the seconds left
    ensures r.front.status != f.status ==> r.front.timeLeft == Duration(r.front.status)
    ensures r.front.status == f.status || r.front.status == TryNext(f.status)
    ensures ev.Tick? && ev.payload == 0 && f.running ==>
      && r.front == Front(TryNext(f.status), Duration(TryNext(f.status)), false)
      && r.commands == [StopTimer]
      && r.notices == [Display(f.status) + " ended"]
    ensures ev.Tick? && ev.payload != 0 && f.running ==> r == Reaction(f.(timeLeft := ev.payload), [], [])
    ensures ev.Tick? && !f.running ==> r == Reaction(f, [], [])
    ensures ev.PlayPauseClicked? ==>
      && r.front == f.(running := !f.running)
      && r.commands == [if f.running then StopTimer else StartTimer(f.timeLeft)]
      && r.notices == []
  {
    match ev
    case Tick(payload) =>
      if !f.running then Reaction(f, [], [])
      else
        var (after, notice) := OnTick(f, payload);
        Commit(f, after, if notice.Some? then [notice.value] else [])
    case PlayPauseClicked =>
      Commit(f, f.(running := !f.running), [])
  }

  /** The value the plugin command puts on the backend channel. */
  function Payload(c: Command): u64 {
    match c
    case StartTimer(d) => TimerPlugin.StartTimerPayload(d)
    case StopTimer => TimerPlugin.StopTimerPayload()
  }

  /** The hand-over at the end of a stage: the backend's final tick 0 makes the
      front-end send `stop_timer`, which the (already idle) backend ignores; the
      next click starts the backend on the full length of the following stage. */
  lemma StageHandOver(f: Front, now: nat)
    requires f.running
    ensures var r1 := Dispatch(f, Tick(0));
      var r2 := Dispatch(r1.front, PlayPauseClicked);
      var d := Duration(TryNext(f.status));
      && r1.commands == [StopTimer]
      && TimerPlugin.Receive(Payload(r1.commands[0]), now).Idle?
      && r2.commands == [StartTimer(d)]
      && TimerPlugin.Receive(Payload(r2.commands[0]), now) == TimerPlugin.Counting(d, now)
  {
  }
}
