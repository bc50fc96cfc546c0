/** The Tauri backend timer plugin: a task receives durations on a channel and,
    for a non-zero one, runs a loop that once per second emits a "tick" with the
    seconds left, recomputed from the elapsed time since the loop started, and
    polls the channel for a replacement duration. The monotonic clock enters as
    the elapsed whole seconds of each iteration. */
module TimerPlugin {
  import opened Base

  /** The payload `start_timer` puts on the channel. */
  function StartTimerPayload(duration: u64): (payload: u64)
    ensures payload == duration
  {
    duration
  }

  /** `start_timer(d)` starts an idle plugin counting `d` seconds from the
      instant it arrives, unless `d` is 0; mid-count it replaces the duration
      (while time is left) without moving the start instant. */
  lemma StartTimerStarts(d: u64, duration: u64, startTime: nat, now: nat)
    ensures Receive(StartTimerPayload(d), now) == if d > 0 then Counting(d, now) else Idle
    ensures var r := Iterate(duration, startTime, now, Some(StartTimerPayload(d)));
      d > 0 && Elapsed(startTime, now) < duration ==> r.1 == Counting(d, startTime)
  {
  }

  /** The payload `stop_timer` puts on the channel. */
  function StopTimerPayload(): (payload: u64)
    ensures payload == 0
  {
    0
  }

  /** The plugin task: waiting on the channel, or counting `duration` seconds
      from the instant `startTime` (nanoseconds). */
  datatype Loop = Idle | Counting(duration: u64, startTime: nat)

  /** The outer `while let Some(duration) = rx.recv()`: a duration received while
      idle starts a countdown only if it is not zero. */
  function Receive(payload: u64, now: nat): (r: Loop)
    ensures r.Counting? <==> payload > 0
    ensures r.Counting? ==> r.duration == payload && r.startTime == now
  {
    if payload > 0 then Counting(payload, now) else Idle
  }

  /** One pass through the loop body: the tick emitted, and the duration the
      loop continues with (`None` when it breaks). */
  datatype Iteration = Iteration(tick: u64, continueWith: Option<u64>)

  /** The loop body, for the elapsed whole seconds `elapsed` and the message
      `incoming` that `try_recv` returned, if any. */
  function Step(duration: u64, elapsed: nat, incoming: Option<u64>): (r: Iteration)
    // the tick is what is left of the duration, and depends on nothing else
    ensures r.tick <= duration
    ensures r.tick + elapsed == duration || (r.tick == 0 && elapsed >= duration)
    // the loop ends exactly when the time is up or stop_timer's 0 arrived
    ensures r.continueWith.None? <==> elapsed >= duration || incoming == Some(0)
    // a non-zero duration received mid-count replaces the current one
    ensures r.continueWith.Some? ==> r.continueWith.value == incoming.GetOr(duration)
  {
    var timeLeft := SaturatingSub(duration, elapsed);
    var tick := timeLeft;
    var timeLeft' := if incoming == Some(0) then 0 else timeLeft;
    var duration' := incoming.GetOr(duration);
    if timeLeft' == 0 then Iteration(tick, None) else Iteration(tick, Some(duration'))
  }

  /** For a fixed duration the tick does not grow as time passes, and it is zero
      from the moment the duration has elapsed. */
  lemma TickNonIncreasing(duration: u64, e1: nat, e2: nat, in1: Option<u64>, in2: Option<u64>)
    requires e1 <= e2
    ensures Step(duration, e2, in2).tick <= Step(duration, e1, in1).tick
    ensures e1 >= duration ==> Step(duration, e1, in1).tick == 0
  {
  }

  /** `start_time.elapsed().as_secs()` at the instant `now`: whole seconds,
      rounded down. */
  function Elapsed(startTime: nat, now: nat): nat {
    SaturatingSub(now, startTime) / NANOS_PER_SEC
  }

  /** One iteration of the countdown loop at the instant `now`: it emits what is
      left of the duration, goes idle when that is nothing or 0 arrived, and
      otherwise continues with the duration received, if any, from the same
      start instant. */
  function Iterate(duration: u64, startTime: nat, now: nat, incoming: Option<u64>): (r: (u64, Loop))
    ensures r.0 == SaturatingSub(duration, Elapsed(startTime, now))
    ensures r.1.Idle? <==> Elapsed(startTime, now) >= duration || incoming == Some(0)
    ensures r.1.Counting? ==> r.1.duration == incoming.GetOr(duration)
    ensures r.1.Counting? ==> r.1.startTime == startTime
  {
    var it := Step(duration, Elapsed(startTime, now), incoming);
    match it.continueWith
    case None => (it.tick, Idle)
    case Some(d) => (it.tick, Counting(d, startTime))
  }

  /** The elapsed seconds and the channel message seen by one iteration. */
  datatype Sample = Sample(elapsed: nat, incoming: Option<u64>)

  /** The ticks emitted by the loop over successive iterations, and whether it
      broke out. */
  datatype Trace = Trace(ticks: seq<u64>, exited: bool)

  /** The duration each iteration runs with: the initial one, then whatever the
      previous iteration received on the channel (`duration = new_duration`). */
  function Durations(duration: u64, samples: seq<Sample>): (ds: seq<u64>)
    ensures |ds| == |samples|
    decreases |samples|
  {
    if |samples| == 0 then []
    else [duration] + Durations(samples[0].incoming.GetOr(duration), samples[1..])
  }

  /** The step taken at iteration `i`, with that iteration's duration. */
  function StepAt(duration: u64, samples: seq<Sample>, i: nat): Iteration
    requires i < |samples|
  {
    Step(Durations(duration, samples)[i], samples[i].elapsed, samples[i].incoming)
  }

  function Run(duration: u64, samples: seq<Sample>): (r: Trace)
    ensures |r.ticks| <= |samples|
    ensures !r.exited ==> |r.ticks| == |samples|
    // one tick per iteration run: what is left of that iteration's duration
    ensures forall i :: 0 <= i < |r.ticks| ==>
      r.ticks[i] == SaturatingSub(Durations(duration, samples)[i], samples[i].elapsed)
    // every iteration but the last one run continues ...
    ensures forall i :: 0 <= i < |r.ticks| - 1 ==> StepAt(duration, samples, i).continueWith.Some?
    // ... and the loop has exited exactly when that last one broke
    ensures r.exited <==> |r.ticks| > 0 && StepAt(duration, samples, |r.ticks| - 1).continueWith.None?
    decreases |samples|
  {
    if |samples| == 0 then Trace([], false)
    else
      var it := Step(duration, samples[0].elapsed, samples[0].incoming);
      match it.continueWith
      case None => Trace([it.tick], true)
      case Some(d) =>
        var rest := Run(d, samples[1..]);
        StepAtShift(duration, samples);
        Trace([it.tick] + rest.ticks, rest.exited)
  }

  /** Past the first iteration, the steps are those of a loop started with the
      duration the first iteration continued with. */
  lemma StepAtShift(duration: u64, samples: seq<Sample>)
    requires |samples| > 0
    ensures Durations(duration, samples)[0] == duration
    ensures forall i :: 1 <= i < |samples| ==>
      StepAt(duration, samples, i) == StepAt(samples[0].incoming.GetOr(duration), samples[1..], i - 1)
  {
    var d := samples[0].incoming.GetOr(duration);
    assert Durations(duration, samples)[1..] == Durations(d, samples[1..]);
  }

  /** The clock instant of one iteration and the channel message it saw. */
  datatype Reading = Reading(now: nat, incoming: Option<u64>)

  /** The samples those readings give for a loop started at `startTime`. */
  function SamplesFrom(startTime: nat, readings: seq<Reading>): (samples: seq<Sample>)
    ensures |samples| == |readings|
    ensures forall i :: 0 <= i < |readings| ==>
      samples[i] == Sample(Elapsed(startTime, readings[i].now), readings[i].incoming)
    decreases |readings|
  {
    if |readings| == 0 then []
    else [Sample(Elapsed(startTime, readings[0].now), readings[0].incoming)] + SamplesFrom(startTime, readings[1..])
  }

  /** The plugin task driven one `Iterate` at a time from `Counting(duration,
      startTime)`, until it goes idle or the readings run out. */
  function Drive(duration: u64, startTime: nat, readings: seq<Reading>): (r: Trace)
    ensures |r.ticks| <= |readings|
    ensures r.exited ==> |r.ticks| > 0
    ensures !r.exited ==> |r.ticks| == |readings|
    decreases |readings|
  {
    if |readings| == 0 then Trace([], false)
    else
      match Iterate(duration, startTime, readings[0].now, readings[0].incoming)
      case (tick, Idle) => Trace([tick], true)
      case (tick, Counting(d, start)) =>
        var rest := Drive(d, start, readings[1..]);
        Trace([tick] + rest.ticks, rest.exited)
  }

  /** Driving the task instant by instant gives the trace of `Run` over the
      seconds elapsed since the ORIGINAL start: a replaced duration does not
      restart the clock. */
  lemma {:induction false} DriveIsRun(duration: u64, startTime: nat, readings: seq<Reading>)
    ensures Drive(duration, startTime, readings).ticks == Run(duration, SamplesFrom(startTime, readings)).ticks
    ensures Drive(duration, startTime, readings).exited == Run(duration, SamplesFrom(startTime, readings)).exited
    decreases |readings|
  {
    if |readings| > 0 {
      var samples := SamplesFrom(startTime, readings);
      assert samples[1..] == SamplesFrom(startTime, readings[1..]);
      var r := Iterate(duration, startTime, readings[0].now, readings[0].incoming);
      if r.1.Counting? {
        DriveIsRun(r.1.duration, startTime, readings[1..]);
      }
    }
  }

  /** Without commands on the channel every iteration keeps the first duration. */
  lemma {:induction false} QuietDurations(duration: u64, samples: seq<Sample>)
    requires forall i :: 0 <= i < |samples| ==> samples[i].incoming.None?
    ensures forall i :: 0 <= i < |samples| ==> Durations(duration, samples)[i] == duration
    decreases |samples|
  {
    if |samples| > 0 {
      assert forall i :: 1 <= i < |samples| ==> samples[1..][i - 1] == samples[i];
      QuietDurations(duration, samples[1..]);
    }
  }

  /** Without commands on the channel, every tick is the duration less that
      iteration's elapsed time, and the loop runs until the first iteration whose
      elapsed time reaches the duration, which is the only one emitting 0. */
  lemma {:induction false} QuietRun(duration: u64, samples: seq<Sample>)
    requires forall i :: 0 <= i < |samples| ==> samples[i].incoming.None?
    ensures forall i :: 0 <= i < |Run(duration, samples).ticks| ==>
      Run(duration, samples).ticks[i] == SaturatingSub(duration, samples[i].elapsed)
    ensures forall i :: 0 <= i < |Run(duration, samples).ticks| - 1 ==> samples[i].elapsed < duration
    ensures Run(duration, samples).exited <==> exists i :: 0 <= i < |samples| && samples[i].elapsed >= duration
    ensures Run(duration, samples).exited ==> samples[|Run(duration, samples).ticks| - 1].elapsed >= duration
  {
    var r := Run(duration, samples);
    var n := |r.ticks|;
    QuietDurations(duration, samples);
    forall i | 0 <= i < n
      ensures samples[i].elapsed < duration <==> StepAt(duration, samples, i).continueWith.Some?
    {
    }
    forall i | 0 <= i < n - 1
      ensures samples[i].elapsed < duration
    {
      assert StepAt(duration, samples, i).continueWith.Some?;
    }
    if r.exited {
      assert samples[n - 1].elapsed >= duration;
    } else {
      assert n == |samples|;
      forall i | 0 <= i < |samples|
        ensures samples[i].elapsed < duration
      {
        assert StepAt(duration, samples, i).continueWith.Some?;
      }
    }
  }

  /** `stop_timer` ends a countdown in the very iteration that reads it, and is
      ignored by an idle plugin. */
  lemma StopTimerEndsCountdown(duration: u64, elapsed: nat, now: nat)
    ensures Step(duration, elapsed, Some(StopTimerPayload())).continueWith.None?
    ensures Receive(StopTimerPayload(), now).Idle?
  {
  }
}
