/** The wall-clock countdown component of the Yew front-end: the time left is
    recomputed on every tick from the clock, `(max_time + paused_time) - (now -
    start_time)`, and `paused_time` is re-derived on resume. `SystemTime::now()` is
    the parameter `now`; the pending one-second `Timeout` is the flag `armed`.
    The output flag `finished` means the time ran out; the optional `on_finish`
    callback is emitted then, when one is set. */
module WallTimer {
  import opened Base

  /** `Duration::MAX`, in nanoseconds. */
  const DURATION_MAX: nat := U64_LIMIT * NANOS_PER_SEC - 1

  /** A `std::time::Duration`, in nanoseconds. */
  type Nanos = n: int | 0 <= n <= DURATION_MAX

  /** A `SystemTime` reading, in nanoseconds after the epoch. */
  type Time = Nanos

  /** `Duration::saturating_add`. */
  function SaturatingAdd(a: Nanos, b: Nanos): (r: Nanos)
    ensures a + b <= DURATION_MAX ==> r == a + b
    ensures a + b > DURATION_MAX ==> r == DURATION_MAX
  {
    if a + b <= DURATION_MAX then a + b else DURATION_MAX
  }

  /** `Duration::checked_sub`: `None` when the result would be negative. */
  function CheckedSub(a: Nanos, b: Nanos): (r: Option<Nanos>)
    ensures r.Some? <==> b <= a
    ensures r.Some? ==> r.value + b == a
  {
    if b <= a then Some(a - b) else None
  }

  /** `Duration::from_secs`. */
  function FromSecs(secs: u64): Nanos {
    secs * NANOS_PER_SEC
  }

  datatype Timer = Timer(
    startTime: Option<Time>,
    timeLeft: Nanos,
    maxTime: Nanos,
    pausedTime: Nanos,
    armed: bool)

  datatype Msg = ResumeTimer | PauseTimer | ResetTimer(secs: u64) | CountDown

  /** The result of one `update`: the new state, the returned "re-render" flag
      and whether the time ran out (when `on_finish` is emitted, if set). `ClockRewound` is the panic of
      `duration_since(..).expect("rewind of clock not supported")`. */
  datatype Outcome =
    | Stepped(timer: Timer, render: bool, finished: bool)
    | ClockRewound

  /** `#[derive(Default)]`: no start time, zero durations, no timeout. */
  function Default(): (t: Timer)
    ensures t.startTime.None? && !t.armed
    ensures t.timeLeft == 0 && t.maxTime == 0 && t.pausedTime == 0
  {
    Timer(None, 0, 0, 0, false)
  }

  /** `ResumeTimer`: always leaves a timeout armed. Only when none was armed and
      a countdown is under way is `paused_time` re-derived so that the next
      `CountDown` continues from the current `time_left`. */
  function Resume(t: Timer, now: Time): (r: Outcome)
    ensures t.armed ==> r == Stepped(t, false, false)
    ensures !t.armed && t.startTime.None? ==> r == Stepped(t.(armed := true), false, false)
    ensures !t.armed && t.startTime.Some? && now < t.startTime.value ==> r.ClockRewound?
    ensures !t.armed && t.startTime.Some? && t.startTime.value <= now ==>
      var seen := now - t.startTime.value + t.timeLeft;
      && r.Stepped? && r.render && !r.finished
      && r.timer == t.(armed := true, pausedTime := r.timer.pausedTime)
      && (t.maxTime <= seen <= DURATION_MAX ==> r.timer.pausedTime + t.maxTime == seen)
      && (seen < t.maxTime ==> r.timer.pausedTime == 0)
      && (seen > DURATION_MAX ==> r.timer.pausedTime == DURATION_MAX - t.maxTime)
  {
    var t1 := t.(armed := true);
    if t.armed then Stepped(t1, false, false)
    else
      match t.startTime
      case None => Stepped(t1, false, false)
      case Some(start) =>
        if now < start then ClockRewound
        else
          var paused := CheckedSub(SaturatingAdd(now - start, t.timeLeft), t.maxTime).GetOr(0);
          Stepped(t1.(pausedTime := paused), true, false)
  }

  /** `PauseTimer`: drops the timeout and reports whether there was one; nothing
      else changes. */
  function Pause(t: Timer): (r: Outcome)
    ensures r.Stepped? && !r.timer.armed && !r.finished
    ensures r.timer.(armed := t.armed) == t
    ensures r.render <==> t.armed
  {
    Stepped(t.(armed := false), t.armed, false)
  }

  /** `ResetTimer(secs)`: a new countdown of `secs` seconds from `now`, armed.
      `paused_time` is left as it was. */
  function Reset(t: Timer, secs: u64, now: Time): (r: Outcome)
    ensures r.Stepped? && r.render && !r.finished
    ensures r.timer.startTime == Some(now) && r.timer.armed
    ensures r.timer.maxTime == r.timer.timeLeft == secs * NANOS_PER_SEC
    ensures r.timer.pausedTime == t.pausedTime
  {
    var max := FromSecs(secs);
    Stepped(t.(startTime := Some(now), maxTime := max, timeLeft := max, armed := true), true, false)
  }

  /** `CountDown`: with a countdown under way, re-arms and recomputes the time
      left from the clock; once the elapsed time exceeds the budget it emits
      `on_finish` and stops, clearing the start time so that it cannot fire
      again. */
  function CountDown(t: Timer, now: Time): (r: Outcome)
    ensures t.startTime.None? ==> r == Stepped(t, false, false)
    ensures t.startTime.Some? && now < t.startTime.value ==> r.ClockRewound?
    ensures t.startTime.Some? && t.startTime.value <= now ==>
      var budget := SaturatingAdd(t.maxTime, t.pausedTime);
      var elapsed := now - t.startTime.value;
      && r.Stepped?
      && (elapsed <= budget ==>
            && r.timer == t.(armed := true, timeLeft := budget - elapsed)
            && (r.render <==> budget - elapsed != t.timeLeft)
            && !r.finished)
      && (elapsed > budget ==>
            && r.timer == t.(armed := false, startTime := None)
            && r.render && r.finished)
  {
    match t.startTime
    case None => Stepped(t, false, false)
    case Some(start) =>
      var t1 := t.(armed := true);
      if now < start then ClockRewound
      else
        match CheckedSub(SaturatingAdd(t.maxTime, t.pausedTime), now - start)
        case Some(left) =>
          if left != t.timeLeft then Stepped(t1.(timeLeft := left), true, false)
          else Stepped(t1, false, false)
        case None => Stepped(t1.(armed := false, startTime := None), true, true)
  }

  /** `Timer::update`. */
  function Update(t: Timer, msg: Msg, now: Time): (r: Outcome)
    ensures r.Stepped? && r.finished ==> msg.CountDown? && r.timer.startTime.None? && t.startTime.Some?
    ensures r.Stepped? && !msg.ResetTimer? && t.startTime.None? ==> r.timer.startTime.None?
    ensures r.ClockRewound? ==> t.startTime.Some? && now < t.startTime.value
  {
    match msg
    case ResumeTimer => Resume(t, now)
    case PauseTimer => Pause(t)
    case ResetTimer(secs) => Reset(t, secs, now)
    case CountDown => CountDown(t, now)
  }

  /** A message and the clock reading at which it is handled. */
  datatype Input = Input(msg: Msg, now: Time)

  /** The number of `on_finish` emissions over a sequence of inputs (a panic
      ends the run). */
  function Finishes(t: Timer, inputs: seq<Input>): nat
    decreases |inputs|
  {
    if |inputs| == 0 then 0
    else
      match Update(t, inputs[0].msg, inputs[0].now)
      case ClockRewound => 0
      case Stepped(t1, _, finished) => (if finished then 1 else 0) + Finishes(t1, inputs[1..])
  }

  predicate NoReset(inputs: seq<Input>) {
    forall i :: 0 <= i < |inputs| ==> !inputs[i].msg.ResetTimer?
  }

  /** A finished (or never started) timer stays silent until the next reset. */
  lemma {:induction false} StoppedNeverFinishes(t: Timer, inputs: seq<Input>)
    requires t.startTime.None? && NoReset(inputs)
    ensures Finishes(t, inputs) == 0
    decreases |inputs|
  {
    if |inputs| > 0 {
      var r := Update(t, inputs[0].msg, inputs[0].now);
      if r.Stepped? {
        StoppedNeverFinishes(r.timer, inputs[1..]);
      }
    }
  }

  /** Between two resets `on_finish` fires at most once, however many
      `CountDown`s arrive. */
  lemma {:induction false} FinishAtMostOncePerReset(t: Timer, inputs: seq<Input>)
    requires NoReset(inputs)
    ensures Finishes(t, inputs) <= 1
    decreases |inputs|
  {
    if |inputs| > 0 {
      var r := Update(t, inputs[0].msg, inputs[0].now);
      if r.Stepped? {
        if r.finished {
          StoppedNeverFinishes(r.timer, inputs[1..]);
        } else {
          FinishAtMostOncePerReset(r.timer, inputs[1..]);
        }
      }
    }
  }

  /** Time spent paused costs no countdown time: after resuming at `resumeAt`,
      a `CountDown` at `later` shows the time left at the pause minus only the
      time since the resume, and finishes only once that is used up. */
  lemma PauseCostsNothing(t: Timer, resumeAt: Time, later: Time)
    requires !t.armed && t.startTime.Some?
    requires t.startTime.value <= resumeAt <= later
    requires t.maxTime <= resumeAt - t.startTime.value + t.timeLeft <= DURATION_MAX
    ensures Resume(t, resumeAt).Stepped?
    ensures var c := CountDown(Resume(t, resumeAt).timer, later);
      && c.Stepped?
      && (later - resumeAt <= t.timeLeft ==> c.timer.timeLeft == t.timeLeft - (later - resumeAt) && !c.finished)
      && (later - resumeAt > t.timeLeft ==> c.finished)
  {
  }

  /** The five-second scenario: reset to 5 s, 3 s pass (2 s left), pause for 10 s,
      resume; 2 s later the time left reads 0 and one more second later
      `on_finish` fires. */
  lemma PauseResumeScenario()
    ensures
      var s := NANOS_PER_SEC;
      var t0 := Reset(Default(), 5, 0).timer;
      var t1 := CountDown(t0, 3 * s).timer;
      var t2 := Pause(t1).timer;
      var t3 := Resume(t2, 13 * s).timer;
      var c4 := CountDown(t3, 15 * s);
      var c5 := CountDown(c4.timer, 16 * s);
      && t1.timeLeft == 2 * s
      && c4.Stepped? && c4.timer.timeLeft == 0 && !c4.finished
      && c5.Stepped? && c5.finished
  {
  }

  // ----- Finding: ResetTimer keeps the previous period's paused_time -----

  /** As written, a reset that follows a paused period inherits its
      `paused_time`: the first `CountDown` of the new period reports more time
      left than the new maximum. */
  lemma ResetKeepsPausedTime(t: Timer, secs: u64, now: Time)
    requires t.pausedTime > 0
    requires secs * NANOS_PER_SEC + t.pausedTime <= DURATION_MAX
    ensures var c := CountDown(Reset(t, secs, now).timer, now);
      c.Stepped? && c.timer.timeLeft == c.timer.maxTime + t.pausedTime > c.timer.maxTime
  {
  }

  /** A concrete run reaching that state: a 10 s period paused from 1 s to 6 s,
      then a reset to 5 s at 20 s; one second later the timer shows 9 s left of
      a 5 s period. */
  lemma StalePausedTimeLengthensNextPeriod()
    ensures
      var s := NANOS_PER_SEC;
      var t0 := Reset(Default(), 10, 0).timer;
      var t1 := CountDown(t0, 1 * s).timer;
      var t2 := Pause(t1).timer;
      var t3 := Resume(t2, 6 * s).timer;
      var t4 := Reset(t3, 5, 20 * s).timer;
      var c5 := CountDown(t4, 21 * s);
      && t3.pausedTime == 5 * s
      && c5.Stepped? && c5.timer.maxTime == 5 * s && c5.timer.timeLeft == 9 * s
  {
  }

  /** The evidently intended reset: a new period also forgets the old pause. */
  function ResetCleared(t: Timer, secs: u64, now: Time): (r: Outcome)
    ensures r.Stepped? && r.render && !r.finished
    ensures r.timer == Reset(t, secs, now).timer.(pausedTime := 0)
  {
    var max := FromSecs(secs);
    Stepped(Timer(Some(now), max, max, 0, true), true, false)
  }

  /** `update` with the corrected reset. */
  function UpdateCorrected(t: Timer, msg: Msg, now: Time): (r: Outcome)
    ensures !msg.ResetTimer? ==> r == Update(t, msg, now)
    ensures msg.ResetTimer? ==> r.Stepped? && r.timer.pausedTime == 0
  {
    match msg
    case ResetTimer(secs) => ResetCleared(t, secs, now)
    case _ => Update(t, msg, now)
  }

  /** With the corrected reset, a new period counts down from its own maximum:
      `k` nanoseconds after the reset the time left is `max - k`, never more than
      the maximum, and the period finishes once `k` exceeds it. */
  lemma ResetClearedCountsFromMax(t: Timer, secs: u64, now: Time, later: Time)
    requires now <= later
    ensures var c := CountDown(UpdateCorrected(t, ResetTimer(secs), now).timer, later);
      && c.Stepped?
      && (later - now <= FromSecs(secs) ==>
            c.timer.timeLeft == FromSecs(secs) - (later - now) <= c.timer.maxTime)
      && (later - now > FromSecs(secs) ==> c.finished)
  {
  }

  /** What the corrected update keeps, with `last` the latest clock reading
      handled: the time left never exceeds the maximum, and the pause credit
      never exceeds the time since the countdown started. */
  predicate Sound(t: Timer, last: Time) {
    && t.timeLeft <= t.maxTime
    && (t.startTime.Some? ==> t.startTime.value <= last && t.pausedTime <= last - t.startTime.value)
  }

  /** Every clock reading is at least the one before it, starting from `last`. */
  predicate ClockNonDecreasing(last: Time, inputs: seq<Input>)
    decreases |inputs|
  {
    |inputs| == 0 || (last <= inputs[0].now && ClockNonDecreasing(inputs[0].now, inputs[1..]))
  }

  /** Applies inputs in order with the corrected reset; stops at the first panic. */
  function RunCorrected(t: Timer, inputs: seq<Input>): Outcome
    decreases |inputs|
  {
    if |inputs| == 0 then Stepped(t, false, false)
    else
      match UpdateCorrected(t, inputs[0].msg, inputs[0].now)
      case ClockRewound => ClockRewound
      case Stepped(t1, _, _) => RunCorrected(t1, inputs[1..])
  }

  /** One corrected step at a clock reading no earlier than the last keeps the
      timer sound, and cannot panic. */
  lemma CorrectedStepKeepsSound(t: Timer, last: Time, msg: Msg, now: Time)
    requires Sound(t, last) && last <= now
    ensures UpdateCorrected(t, msg, now).Stepped?
    ensures Sound(UpdateCorrected(t, msg, now).timer, now)
  {
  }

  /** Over any run whose clock never goes backwards, the corrected timer never
      panics and never shows more time left than its maximum. */
  lemma {:induction false} CorrectedRunBounded(t: Timer, last: Time, inputs: seq<Input>)
    requires Sound(t, last) && ClockNonDecreasing(last, inputs)
    ensures RunCorrected(t, inputs).Stepped?
    ensures Sound(RunCorrected(t, inputs).timer, if |inputs| == 0 then last else inputs[|inputs| - 1].now)
    ensures RunCorrected(t, inputs).timer.timeLeft <= RunCorrected(t, inputs).timer.maxTime
    decreases |inputs|
  {
    if |inputs| > 0 {
      CorrectedStepKeepsSound(t, last, inputs[0].msg, inputs[0].now);
      var t1 := UpdateCorrected(t, inputs[0].msg, inputs[0].now).timer;
      CorrectedRunBounded(t1, inputs[0].now, inputs[1..]);
      if |inputs| > 1 {
        assert inputs[1..][|inputs[1..]| - 1] == inputs[|inputs| - 1];
      }
    }
  }

  /** In particular from `Default`, with the clock starting anywhere. */
  lemma DefaultCorrectedRunBounded(inputs: seq<Input>)
    requires |inputs| > 0 ==> ClockNonDecreasing(inputs[0].now, inputs)
    ensures RunCorrected(Default(), inputs).Stepped?
    ensures RunCorrected(Default(), inputs).timer.timeLeft <= RunCorrected(Default(), inputs).timer.maxTime
  {
    CorrectedRunBounded(Default(), if |inputs| == 0 then 0 else inputs[0].now, inputs);
  }
}
