/** Consecutive-failure counting: when the keepalive gives a session up, and when battery polling is given up. */
module Streaks {
  import opened Prelude

  const U32_MAX: nat := 0xffff_ffff
  const BATTERY_MAX_UNSUPPORTED: nat := 3

  function SaturatingInc(n: nat): nat { Min(n + 1, U32_MAX) }

  /** The `m` entries ending at `i` all satisfy `bad`. */
  predicate StreakEndsAt<T>(xs: seq<T>, bad: T -> bool, i: nat, m: nat)
    requires i < |xs|
  {
    m <= i + 1 && forall k :: i + 1 - m <= k <= i ==> bad(xs[k])
  }

  /** Length of the run of `bad` entries that ends `xs`. */
  function TrailingStreak<T>(xs: seq<T>, bad: T -> bool): (n: nat)
    ensures n <= |xs|
    ensures forall k :: |xs| - n <= k < |xs| ==> bad(xs[k])
    ensures n < |xs| ==> !bad(xs[|xs| - 1 - n])
  {
    if xs == [] || !bad(xs[|xs| - 1]) then 0 else 1 + TrailingStreak(xs[..|xs| - 1], bad)
  }

  lemma {:induction false} TrailingStreakStep<T>(xs: seq<T>, bad: T -> bool, i: nat)
    requires i < |xs|
    ensures TrailingStreak(xs[..i + 1], bad) == if bad(xs[i]) then 1 + TrailingStreak(xs[..i], bad) else 0
  {
    assert xs[..i + 1][..i] == xs[..i];
  }

  lemma {:induction false} StreakIffTrailing<T>(xs: seq<T>, bad: T -> bool, i: nat, m: nat)
    requires i < |xs| && m >= 1
    ensures StreakEndsAt(xs, bad, i, m) <==> m <= TrailingStreak(xs[..i + 1], bad)
  {
    var ys := xs[..i + 1];
    var n := TrailingStreak(ys, bad);
    if n < m <= i + 1 {
      assert !bad(ys[i - n]);
      assert ys[i - n] == xs[i - n];
    }
    assert forall k :: i + 1 - n <= k <= i ==> bad(ys[k]) && ys[k] == xs[k];
  }

  // ----- Keepalive -----

  datatype KeepaliveOutcome = KeepaliveOk | KeepaliveFailed

  function Failed(o: KeepaliveOutcome): bool { o.KeepaliveFailed? }

  function AdvanceKeepaliveCounter(failures: nat, outcome: KeepaliveOutcome, max: nat): (nat, bool) {
    match outcome
    case KeepaliveOk => (0, false)
    case KeepaliveFailed =>
      var next := SaturatingInc(failures);
      (next, next >= max)
  }

  /**
   * The probe loop over the outcomes it would see: it stops at the first probe that completes `max` failures in
   * a row, and never otherwise. (A maximum of zero acts like one.)
   */
  method KeepaliveLoop(outcomes: seq<KeepaliveOutcome>, max: nat) returns (stop: Option<nat>)
    requires max <= U32_MAX
    ensures var m := Max(1, max);
      match stop
      case Some(i) => i < |outcomes| && StreakEndsAt(outcomes, Failed, i, m)
                      && forall j :: 0 <= j < i ==> !StreakEndsAt(outcomes, Failed, j, m)
      case None => forall j :: 0 <= j < |outcomes| ==> !StreakEndsAt(outcomes, Failed, j, m)
  {
    ghost var m := Max(1, max);
    var failures := 0;
    for i := 0 to |outcomes|
      invariant failures == TrailingStreak(outcomes[..i], Failed) < m
      invariant forall j :: 0 <= j < i ==> !StreakEndsAt(outcomes, Failed, j, m)
    {
      TrailingStreakStep(outcomes, Failed, i);
      StreakIffTrailing(outcomes, Failed, i, m);
      var (next, done) := AdvanceKeepaliveCounter(failures, outcomes[i], max);
      failures := next;
      if done { return Some(i); }
    }
    stop := None;
  }

  // ----- Battery -----

  /** What a poll came back with. */
  datatype PollResult = Level(percent: nat) | UnintelligibleReply | OtherError | TimedOut

  datatype BatteryOutcome = BatteryOk | Unsupported | Transient

  function ClassifyBatteryTick(r: PollResult): BatteryOutcome {
    match r
    case Level(_) => BatteryOk
    case UnintelligibleReply => Unsupported
    case _ => Transient
  }

  function AdvanceBatteryCounter(count: nat, outcome: BatteryOutcome, max: nat): (nat, bool) {
    match outcome
    case Unsupported =>
      var next := SaturatingInc(count);
      (next, next >= max)
    case _ => (0, false)
  }

  function Refused(r: PollResult): bool { r.UnintelligibleReply? }

  /** Poll `i` completes three refusals in a row and no poll up to it got an answer. */
  predicate LatchesAt(polls: seq<PollResult>, i: nat)
    requires i < |polls|
  {
    StreakEndsAt(polls, Refused, i, BATTERY_MAX_UNSUPPORTED) && forall k :: 0 <= k <= i ==> !polls[k].Level?
  }

  /** One run of the poller: it latches at the first such poll, and never otherwise. */
  method BatteryPoller(polls: seq<PollResult>) returns (latch: Option<nat>)
    ensures match latch
      case Some(i) => i < |polls| && LatchesAt(polls, i) && forall j :: 0 <= j < i ==> !LatchesAt(polls, j)
      case None => forall j :: 0 <= j < |polls| ==> !LatchesAt(polls, j)
  {
    hide TrailingStreak, StreakEndsAt;
    var count, everSucceeded := 0, false;
    for i := 0 to |polls|
      invariant count == Min(TrailingStreak(polls[..i], Refused), U32_MAX)
      invariant everSucceeded <==> exists k :: 0 <= k < i && polls[k].Level?
      invariant forall j :: 0 <= j < i ==> !LatchesAt(polls, j)
    {
      TrailingStreakStep(polls, Refused, i);
      StreakIffTrailing(polls, Refused, i, BATTERY_MAX_UNSUPPORTED);
      var (next, tripped) := AdvanceBatteryCounter(count, ClassifyBatteryTick(polls[i]), BATTERY_MAX_UNSUPPORTED);
      count := next;
      if polls[i].Level? { everSucceeded := true; }
      if tripped && !everSucceeded { return Some(i); }
    }
    latch := None;
  }
}
