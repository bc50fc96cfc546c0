/** The session-stage state machine (`Status`). The repository carries three
    copies of it (the GTK app, the Tauri front-end and the Yew front-end) with the
    same transition table, the same threshold and the same stage lengths, so it is
    defined once here. */
module Stages {
  import opened Base
  import opened Format

  /** A stage of the Pomodoro cycle; `breaks` counts the short breaks already
      taken since the last long break. */
  datatype Status = Focus(breaks: nat) | LongBreak | ShortBreak(breaks: nat)

  const FOCUS_MINUTES: nat := 45
  const LONG_BREAK_MINUTES: nat := 15
  const SHORT_BREAK_MINUTES: nat := 5
  /** Short breaks taken before a focus session ends in a long break instead. */
  const SHORT_BREAK_PER_LONG_BREAK: nat := 3
  /** Seconds granted by "Extend Timer" in the GTK app. */
  const EXTEND_DURATION: nat := 60 * 5

  /** `try_next`: the stage that follows `s`. */
  function TryNext(s: Status): (t: Status)
    ensures InCycle(s) ==> InCycle(t)
    ensures t.Focus? <==> !s.Focus?
  {
    match s
    case Focus(n) => if n == SHORT_BREAK_PER_LONG_BREAK then LongBreak else ShortBreak(n)
    case LongBreak => Focus(0)
    case ShortBreak(n) => Focus(n + 1)
  }

  /** The stage length in minutes, as the two Yew copies state it. */
  function Minutes(s: Status): nat {
    match s
    case Focus(_) => FOCUS_MINUTES
    case LongBreak => LONG_BREAK_MINUTES
    case ShortBreak(_) => SHORT_BREAK_MINUTES
  }

  /** `time_duration`: the stage length in seconds. */
  function Duration(s: Status): (d: nat)
    ensures s.Focus? ==> d == 2700
    ensures s.LongBreak? ==> d == 900
    ensures s.ShortBreak? ==> d == 300
    ensures d % 60 == 0 && d / 60 == Minutes(s)
    ensures 0 < EXTEND_DURATION <= d
  {
    Minutes(s) * 60
  }

  /** `Status::default()` in the Tauri front-end and `Pomodoro::create` in the Yew
      front-end both start from the stage after a long break. */
  function Default(): (s: Status)
    ensures s == Focus(0)
  {
    TryNext(LongBreak)
  }

  /** The stages reachable from `Focus(0)`. */
  predicate InCycle(s: Status) {
    match s
    case Focus(n) => n <= SHORT_BREAK_PER_LONG_BREAK
    case LongBreak => true
    case ShortBreak(n) => n < SHORT_BREAK_PER_LONG_BREAK
  }

  /** One full round, starting at `Focus(0)`. */
  const Cycle: seq<Status> :=
    [Focus(0), ShortBreak(0), Focus(1), ShortBreak(1), Focus(2), ShortBreak(2), Focus(3), LongBreak]

  /** `k` successive calls of `next`. */
  function NextN(s: Status, k: nat): Status
    decreases k
  {
    if k == 0 then s else TryNext(NextN(s, k - 1))
  }

  /** The round is closed: each stage of it is followed by the next one, and the
      last by the first. */
  lemma CycleClosed(i: nat)
    requires i < |Cycle|
    ensures TryNext(Cycle[i]) == Cycle[(i + 1) % |Cycle|]
  {
  }

  /** After `k` calls of `next` from `Focus(0)` the stage is position `k mod 8`
      of the round. */
  lemma {:induction false} NextNFromStart(k: nat)
    ensures NextN(Focus(0), k) == Cycle[k % |Cycle|]
    decreases k
  {
    if k > 0 {
      NextNFromStart(k - 1);
      CycleClosed((k - 1) % |Cycle|);
      assert ((k - 1) % 8 + 1) % 8 == k % 8;
    }
  }

  /** Eight calls of `next` return to `Focus(0)`, and the long break is reached on
      exactly one call in every eight. */
  lemma RoundTrip(k: nat)
    ensures NextN(Focus(0), 8) == Focus(0)
    ensures NextN(Focus(0), k) == LongBreak <==> k % 8 == 7
  {
    NextNFromStart(8);
    NextNFromStart(k);
  }

  /** The reachable stages are exactly those of the round, so every reachable
      counter is at most 3. */
  lemma InCycleIsReachable(s: Status)
    ensures InCycle(s) <==> s in Cycle
    ensures InCycle(s) <==> exists k: nat :: k < 8 && NextN(Focus(0), k) == s
  {
    if InCycle(s) {
      var i := match s case Focus(n) => 2 * n case ShortBreak(n) => 2 * n + 1 case LongBreak => 7;
      assert Cycle[i] == s;
      NextNFromStart(i);
    }
    forall k: nat | k < 8 && NextN(Focus(0), k) == s
      ensures InCycle(s)
    {
      NextNFromStart(k);
    }
  }

  /** Whatever the number of calls, `next` never leaves the round. */
  lemma {:induction false} NextNStaysInCycle(s: Status, k: nat)
    requires InCycle(s)
    ensures InCycle(NextN(s, k))
    decreases k
  {
    if k > 0 {
      NextNStaysInCycle(s, k - 1);
    }
  }

  /** `Display for Status`. */
  function Display(s: Status): (t: string)
    // the opening words name the kind of stage
    ensures s.Focus? <==> |t| > 14 && t[..14] == "Focus Session "
    ensures s.ShortBreak? <==> |t| > 12 && t[..12] == "Short Break "
    ensures s.LongBreak? <==> t == "Long Break !!!"
  {
    match s
    case Focus(n) =>
      var t := "Focus Session " + NatToString(n);
      assert t[0] == 'F';
      t
    case LongBreak =>
      assert "Long Break !!!"[0] == 'L';
      "Long Break !!!"
    case ShortBreak(n) => "Short Break " + NatToString(n)
  }

  /** Reads a stage back from its display text. */
  function ParseStatus(text: string): Option<Status> {
    if text == "Long Break !!!" then Some(LongBreak)
    else if |text| > 14 && text[..14] == "Focus Session " then
      match ParseNat(text[14..])
      case Some(n) => Some(Focus(n))
      case None => None
    else if |text| > 12 && text[..12] == "Short Break " then
      match ParseNat(text[12..])
      case Some(n) => Some(ShortBreak(n))
      case None => None
    else None
  }

  /** The display text names the stage unambiguously: different stages are shown
      differently. */
  lemma DisplayRoundTrip(s: Status)
    ensures ParseStatus(Display(s)) == Some(s)
  {
    match s
    case Focus(n) =>
      var text := Display(s);
      ParseNatToString(n);
      assert text[..14] == "Focus Session ";
      assert text[14..] == NatToString(n);
    case LongBreak =>
    case ShortBreak(n) =>
      var text := Display(s);
      ParseNatToString(n);
      assert text[0] == 'S';
      assert text[..12] == "Short Break ";
      assert text[12..] == NatToString(n);
  }
}
