/** Two writers of one preview state: the connect loop, and an aggregator that downgrades it while a source bridges. */
module PreviewAggregator {
  import opened Prelude

  datatype PreviewState = Live | Connecting | Sleeping

  /** The effective state for the overlay, from the current one and the aggregator's own last write. */
  function Aggregate(current: PreviewState, anyBridging: bool, lastWrite: Option<PreviewState>): PreviewState {
    match (current, anyBridging, lastWrite)
    case (Sleeping, _, _) => Sleeping
    case (Live, true, _) => Connecting
    case (Live, false, _) => Live
    case (Connecting, false, Some(Connecting)) => Live
    case (Connecting, _, _) => Connecting
  }

  /** The shared state, the aggregator's bookkeeping, and a write it has decided on but not made yet. */
  datatype Sys = Sys(published: PreviewState, lastWrite: Option<PreviewState>, pending: Option<PreviewState>)

  datatype Step = Sample(anyBridging: bool) | Publish | ConnectLoop(value: PreviewState)

  /** First half of a tick: read both inputs and decide. */
  function SampleStep(s: Sys, b: bool): Sys {
    var next := Aggregate(s.published, b, s.lastWrite);
    if next != s.published then s.(pending := Some(next))
    else if s.published == Sleeping || (s.published == Connecting && s.lastWrite != Some(Connecting))
    then s.(lastWrite := None)
    else s
  }

  /** Second half: make the write, if one was decided. */
  function PublishStep(s: Sys): Sys {
    if s.pending.None? then s else Sys(s.pending.value, s.pending, None)
  }

  function Next(s: Sys, step: Step): Sys {
    match step
    case Sample(b) => if s.pending.None? then SampleStep(s, b) else s
    case Publish => PublishStep(s)
    case ConnectLoop(v) => s.(published := v)
  }

  /** The loop body, when nothing runs between its read and its write. */
  class Aggregator {
    var published: PreviewState
    var lastWrite: Option<PreviewState>

    function View(): Sys
      reads this
    {
      Sys(published, lastWrite, None)
    }

    method Tick(anyBridging: bool)
      modifies this
      ensures View() == TickStep(old(View()), anyBridging)
    {
      var current := published;
      var next := Aggregate(current, anyBridging, lastWrite);
      if next != current {
        published := next;
        lastWrite := Some(next);
      } else if current == Sleeping || (current == Connecting && lastWrite != Some(Connecting)) {
        lastWrite := None;
      }
    }
  }

  function TickStep(s: Sys, b: bool): Sys {
    PublishStep(SampleStep(s, b))
  }

  /** A run of atomic ticks, one per sampled bridging flag. */
  function Ticks(s: Sys, bs: seq<bool>): Sys {
    if bs == [] then s else TickStep(Ticks(s, bs[..|bs| - 1]), bs[|bs| - 1])
  }

  predicate Idle(s: Sys) { s.pending.None? }

  lemma {:induction false} TicksStayIdle(s: Sys, bs: seq<bool>)
    requires Idle(s)
    ensures Idle(Ticks(s, bs))
  {
    if bs != [] { TicksStayIdle(s, bs[..|bs| - 1]); }
  }

  /** Left to itself from Live, the aggregator shows Connecting after a tick exactly when that tick saw bridging. */
  lemma {:induction false} FollowsBridging(s: Sys, bs: seq<bool>)
    requires Idle(s) && s.published == Live && bs != []
    ensures Ticks(s, bs).published == (if bs[|bs| - 1] then Connecting else Live)
    ensures Ticks(s, bs).lastWrite == (if bs[|bs| - 1] then Some(Connecting) else if true in bs then Some(Live)
                                       else s.lastWrite)
  {
    var front := bs[..|bs| - 1];
    assert bs == front + [bs[|bs| - 1]];
    TicksStayIdle(s, front);
    if front == [] {
      assert Ticks(s, front) == s;
    } else {
      FollowsBridging(s, front);
    }
  }

  /** No tick alters Sleeping, and the first one forgets any earlier downgrade. */
  lemma {:induction false} SleepingUntouched(s: Sys, bs: seq<bool>)
    requires Idle(s) && s.published == Sleeping
    ensures Ticks(s, bs).published == Sleeping
    ensures bs != [] ==> Ticks(s, bs).lastWrite == None
  {
    if bs != [] {
      TicksStayIdle(s, bs[..|bs| - 1]);
      SleepingUntouched(s, bs[..|bs| - 1]);
    }
  }

  /** Every tick of the run saw bridging. */
  predicate AllBridging(bs: seq<bool>) {
    forall i :: 0 <= i < |bs| ==> bs[i]
  }

  lemma {:induction false} StaysConnecting(s: Sys, bs: seq<bool>)
    requires Idle(s) && s.published == Connecting
    requires s.lastWrite != Some(Connecting) || AllBridging(bs)
    ensures Ticks(s, bs).published == Connecting
    ensures bs != [] ==> Ticks(s, bs).lastWrite == if s.lastWrite == Some(Connecting) then s.lastWrite else None
  {
    if bs != [] {
      TicksStayIdle(s, bs[..|bs| - 1]);
      StaysConnecting(s, bs[..|bs| - 1]);
    }
  }

  lemma {:induction false} FirstClearTick(bs: seq<bool>) returns (i: nat)
    requires !AllBridging(bs)
    ensures i < |bs| && !bs[i] && AllBridging(bs[..i])
  {
    i := 0;
    while bs[i]
      invariant i < |bs| && AllBridging(bs[..i])
      invariant exists k :: i <= k < |bs| && !bs[k]
      decreases |bs| - i
    {
      i := i + 1;
    }
  }

  /**
   * The aggregator must not upgrade a Connecting it did not write. Over any run of ticks it leaves a Connecting
   * alone throughout exactly when its bookkeeping does not claim one, or no tick of the run was free of bridging.
   */
  lemma {:induction false} ConnectingKeptIff(s: Sys, bs: seq<bool>)
    requires Idle(s) && s.published == Connecting
    ensures (forall i :: 0 <= i <= |bs| ==> Ticks(s, bs[..i]).published == Connecting)
            <==> s.lastWrite != Some(Connecting) || AllBridging(bs)
  {
    if s.lastWrite != Some(Connecting) || AllBridging(bs) {
      forall i | 0 <= i <= |bs| ensures Ticks(s, bs[..i]).published == Connecting { StaysConnecting(s, bs[..i]); }
    } else {
      var i := FirstClearTick(bs);
      StaysConnecting(s, bs[..i]);
      assert bs[..i + 1][..i] == bs[..i];
      assert Ticks(s, bs[..i + 1]).published == Live;
    }
  }

  /** The claim can be stale: a connect-loop Connecting written over the aggregator's own is upgraded to Live. */
  lemma {:induction false} StaleClaimUpgrades()
    ensures var s0 := Sys(Live, None, None);
      var s1 := TickStep(s0, true);
      var s2 := Next(s1, ConnectLoop(Connecting));
      TickStep(s2, false).published == Live
  {
  }

  // ----- When the connect loop writes between the read and the write -----

  function Exec(s: Sys, steps: seq<Step>): Sys {
    if steps == [] then s else Next(Exec(s, steps[..|steps| - 1]), steps[|steps| - 1])
  }

  predicate AggregatorOnly(steps: seq<Step>) {
    forall i :: 0 <= i < |steps| ==> !steps[i].ConnectLoop?
  }

  lemma {:induction false} SleepingHolds(s: Sys, steps: seq<Step>)
    requires Idle(s) && s.published == Sleeping && AggregatorOnly(steps)
    ensures Idle(Exec(s, steps)) && Exec(s, steps).published == Sleeping
  {
    if steps != [] { SleepingHolds(s, steps[..|steps| - 1]); }
  }

  /** The aggregator never decides to write Sleeping. */
  lemma {:induction false} NeverDecidesSleeping(s: Sys, steps: seq<Step>)
    requires Idle(s)
    ensures Exec(s, steps).pending != Some(Sleeping)
  {
    if steps != [] { NeverDecidesSleeping(s, steps[..|steps| - 1]); }
  }

  lemma {:induction false} DecisionStands(s: Sys, steps: seq<Step>)
    requires s.pending.Some? && Publish !in steps
    ensures Exec(s, steps).pending == s.pending
  {
    if steps != [] {
      var n := |steps| - 1;
      assert steps[n] in steps && forall x :: x in steps[..n] ==> x in steps;
      DecisionStands(s, steps[..n]);
    }
  }

  /** A decided write is made as decided, and claimed, whatever the connect loop has written in between. */
  lemma {:induction false} DecidedWriteLands(s: Sys, steps: seq<Step>)
    requires s.pending.Some? && Publish !in steps
    ensures Exec(s, steps + [Publish]) == Sys(s.pending.value, s.pending, None)
  {
    DecisionStands(s, steps);
    assert (steps + [Publish])[..|steps|] == steps;
  }

  /** On every further schedule of the aggregator alone the published state is Sleeping. */
  ghost predicate SleepsOn(s: Sys) {
    forall steps :: AggregatorOnly(steps) ==> Exec(s, steps).published == Sleeping
  }

  lemma {:induction false} OutstandingWriteWakes(s: Sys)
    requires s.pending.Some? && s.pending != Some(Sleeping)
    ensures !SleepsOn(s)
  {
    assert [Publish][..0] == [];
    assert Exec(s, []) == s;
    assert AggregatorOnly([Publish]) && Exec(s, [Publish]) == PublishStep(s);
  }

  /**
   * With reads and writes of both writers interleaved freely from an idle start, a Sleeping from the connect loop
   * survives every further schedule of the aggregator exactly when no decided write was outstanding as it was written.
   */
  lemma {:induction false} SleepingSurvivesIff(start: Sys, steps: seq<Step>)
    requires Idle(start)
    ensures var s := Exec(start, steps);
      SleepsOn(Next(s, ConnectLoop(Sleeping))) <==> Idle(s)
  {
    var s := Exec(start, steps);
    var t := Next(s, ConnectLoop(Sleeping));
    NeverDecidesSleeping(start, steps);
    if Idle(s) {
      forall more | AggregatorOnly(more) ensures Exec(t, more).published == Sleeping { SleepingHolds(t, more); }
    } else {
      OutstandingWriteWakes(t);
    }
  }

  /** Such a write can be outstanding: a tick that saw bridging overwrites the Sleeping that came in between. */
  lemma {:induction false} SleepingCanBeLost()
    ensures var steps := [Sample(true), ConnectLoop(Sleeping), Publish];
      Exec(Sys(Live, None, None), steps).published == Connecting
  {
    var s := Sys(Live, None, None);
    var steps := [Sample(true), ConnectLoop(Sleeping), Publish];
    assert steps[..2] == [Sample(true), ConnectLoop(Sleeping)] && steps[..2][..1] == [Sample(true)];
    assert steps[..2][..1][..0] == [];
    assert Exec(s, steps[..2][..1]) == Next(s, Sample(true));
    assert Exec(s, steps[..2]) == Next(Next(s, Sample(true)), ConnectLoop(Sleeping));
  }
}
