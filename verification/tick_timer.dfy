/** The decrement countdown of the second Yew front-end: each `CountDown` takes
    one second off `time_left`, and `stop_notify` makes the expiry notification
    fire once per reset. The pending one-second `Timeout` is the flag `armed`;
    the "Timer Expired" notification is the output flag `notify`. */
module TickTimer {
  import opened Base

  datatype Timer = Timer(timeLeft: u32, maxTime: u32, armed: bool, stopNotify: bool)

  datatype Msg = ResumeTimer | PauseTimer | ResetTimer(maxTime: u32) | CountDown

  /** The new state, the returned "re-render" flag and whether the expiry
      notification was sent. */
  datatype Step = Step(timer: Timer, render: bool, notify: bool)

  /** The time left never exceeds the period it counts down. */
  predicate Inv(t: Timer) {
    t.timeLeft <= t.maxTime
  }

  /** `Timer::create`. */
  function Create(): (t: Timer)
    ensures Inv(t)
    ensures t.timeLeft == 0 && t.maxTime == 0 && !t.armed && t.stopNotify
  {
    Timer(0, 0, false, true)
  }

  /** `Timer::update`. */
  function Update(t: Timer, msg: Msg): (r: Step)
    ensures Inv(t) ==> Inv(r.timer)
    ensures r.timer.maxTime == (if msg.ResetTimer? then msg.maxTime else t.maxTime)
    // the notification is sent only by the first CountDown to find the timer empty
    ensures r.notify <==> msg.CountDown? && t.timeLeft == 0 && !t.stopNotify
    ensures msg.CountDown? ==>
      && r.render && r.timer.armed
      && r.timer.maxTime == t.maxTime
      && (t.timeLeft > 0 ==> r.timer.timeLeft == t.timeLeft - 1 && r.timer.stopNotify == t.stopNotify)
      && (t.timeLeft == 0 ==> r.timer.timeLeft == 0 && r.timer.stopNotify)
    // pause and resume touch only the timeout
    ensures msg.ResumeTimer? || msg.PauseTimer? ==>
      r.timer == t.(armed := msg.ResumeTimer?) && !r.render
    ensures msg.ResetTimer? ==>
      r.timer == Timer(msg.maxTime, msg.maxTime, true, false) && r.render
  {
    match msg
    case ResumeTimer => Step(t.(armed := true), false, false)
    case PauseTimer => Step(t.(armed := false), false, false)
    case ResetTimer(max) => Step(Timer(max, max, true, false), true, false)
    case CountDown =>
      if t.timeLeft == 0 then
        if !t.stopNotify then Step(t.(armed := true, stopNotify := true), true, true)
        else Step(t.(armed := true), true, false)
      else Step(t.(timeLeft := t.timeLeft - 1, armed := true), true, false)
  }

  /** The state after `k` `CountDown`s and the number of notifications sent. */
  function CountDowns(t: Timer, k: nat): (Timer, nat)
    decreases k
  {
    if k == 0 then (t, 0)
    else
      var step := Update(t, CountDown);
      var rest := CountDowns(step.timer, k - 1);
      (rest.0, rest.1 + if step.notify then 1 else 0)
  }

  /** `k` `CountDown`s take `k` seconds off (down to zero), and notify exactly
      once if and only if they go past zero while notification is still due. */
  lemma {:induction false} CountDownsEffect(t: Timer, k: nat)
    ensures CountDowns(t, k).0.timeLeft == if k <= t.timeLeft then t.timeLeft - k else 0
    ensures CountDowns(t, k).1 == if k > t.timeLeft && !t.stopNotify then 1 else 0
    ensures CountDowns(t, k).0.maxTime == t.maxTime
    decreases k
  {
    if k > 0 {
      CountDownsEffect(Update(t, CountDown).timer, k - 1);
    }
  }

  /** After `ResetTimer(m)`, the `m`-th `CountDown` reaches zero without
      notifying, the next one notifies, and none after it notifies again. */
  lemma ResetThenCountDown(t: Timer, m: u32, k: nat)
    ensures var t0 := Update(t, ResetTimer(m)).timer;
      && CountDowns(t0, m).0.timeLeft == 0
      && CountDowns(t0, m).1 == 0
      && CountDowns(t0, m + 1).1 == 1
      && (k > m ==> CountDowns(t0, k).1 == 1)
      && (k <= m ==> CountDowns(t0, k).0.timeLeft == m - k)
  {
    var t0 := Update(t, ResetTimer(m)).timer;
    CountDownsEffect(t0, m);
    CountDownsEffect(t0, m + 1);
    CountDownsEffect(t0, k);
  }

  /** The number of notifications over a sequence of messages. */
  function Notifications(t: Timer, msgs: seq<Msg>): nat
    decreases |msgs|
  {
    if |msgs| == 0 then 0
    else
      var step := Update(t, msgs[0]);
      (if step.notify then 1 else 0) + Notifications(step.timer, msgs[1..])
  }

  /** Without a reset in between, at most one notification is sent, and none
      once it has been sent. */
  lemma {:induction false} NotifyAtMostOncePerReset(t: Timer, msgs: seq<Msg>)
    requires forall i :: 0 <= i < |msgs| ==> !msgs[i].ResetTimer?
    ensures Notifications(t, msgs) <= if t.stopNotify then 0 else 1
    decreases |msgs|
  {
    if |msgs| > 0 {
      NotifyAtMostOncePerReset(Update(t, msgs[0]).timer, msgs[1..]);
    }
  }

  /** Every message keeps `time_left <= max_time`, from `create` on. */
  lemma {:induction false} RunKeepsInvariant(t: Timer, msgs: seq<Msg>)
    requires Inv(t)
    ensures Inv(Run(t, msgs))
    decreases |msgs|
  {
    if |msgs| > 0 {
      RunKeepsInvariant(Update(t, msgs[0]).timer, msgs[1..]);
    }
  }

  function Run(t: Timer, msgs: seq<Msg>): Timer
    decreases |msgs|
  {
    if |msgs| == 0 then t else Run(Update(t, msgs[0]).timer, msgs[1..])
  }
}
