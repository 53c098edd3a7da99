/** Bridging gaps in a camera's video: when a source counts as stalled, and what timestamps its replays carry. */
module GapBridging {
  import opened Prelude

  const NANOS_PER_SECOND: nat := 1_000_000_000
  const VIDEO_CLOCK_HZ: nat := 90_000
  const U32_RANGE: nat := 0x1_0000_0000
  const U128_MAX: nat := 0xffff_ffff_ffff_ffff_ffff_ffff_ffff_ffff

  /** `Duration::MAX`, in nanoseconds: the threshold that stands for "bridging disabled". */
  const DURATION_MAX: nat := 0xffff_ffff_ffff_ffff * NANOS_PER_SECOND + 999_999_999

  datatype GapState = Live | Bridging

  /** The policy's fields as a value. Instants are nanoseconds; timestamps are below 2^32. */
  datatype Policy = Policy(
    threshold: nat,
    state: GapState,
    lastUpstream: nat,
    lastPts: Option<nat>,
    lastAt: Option<nat>)

  function NewPolicy(threshold: nat, now: nat): Policy {
    Policy(threshold, Live, now, None, None)
  }

  /** Everything that happens to a source. A tick carries what the caller could replay, if anything. */
  datatype Event =
    | Upstream(at: nat)
    | Broadcast(pts: nat, at: nat)
    | Tick(at: nat, anchor: Option<nat>)

  function SaturatingMul(a: nat, b: nat): nat {
    Min(a * b, U128_MAX)
  }

  /** 90 kHz ticks in a stretch of nanoseconds, before the cast to 32 bits. */
  function WideTicks(delta: nat): nat {
    SaturatingMul(delta, VIDEO_CLOCK_HZ) / NANOS_PER_SECOND
  }

  function WrappingAdd(a: nat, b: nat): nat {
    (a + b) % U32_RANGE
  }

  function ReplayPts(p: Policy, anchor: nat, now: nat): nat {
    var delta := match p.lastAt
      case Some(last) => WideTicks(SaturatingSub(now, last)) % U32_RANGE
      case None => 0;
    WrappingAdd(if p.lastPts.Some? then p.lastPts.value else anchor, delta)
  }

  /** The policy after one event, and the timestamp the caller must replay at, if any. */
  function Apply(p: Policy, e: Event): (Policy, Option<nat>) {
    match e
    case Upstream(at) => (p.(lastUpstream := at), None)
    case Broadcast(pts, at) => (p.(state := Live, lastPts := Some(pts), lastAt := Some(at)), None)
    case Tick(at, anchor) =>
      var q := if SaturatingSub(at, p.lastUpstream) > p.threshold then p.(state := Bridging) else p;
      if q.state != Bridging || anchor.None? then (q, None)
      else
        var pts := ReplayPts(q, anchor.value, at);
        (q.(lastPts := Some(pts), lastAt := Some(at)), Some(pts))
  }

  /** The policy object: three entry points, each updating the fields in place. */
  class BridgingPolicy {
    var gapThreshold: nat
    var state: GapState
    var lastUpstreamAt: nat
    var lastEmittedPts: Option<nat>
    var lastEmitWallclockAt: Option<nat>

    function View(): Policy
      reads this
    {
      Policy(gapThreshold, state, lastUpstreamAt, lastEmittedPts, lastEmitWallclockAt)
    }

    constructor (threshold: nat, now: nat)
      ensures View() == NewPolicy(threshold, now)
    {
      gapThreshold, state, lastUpstreamAt := threshold, Live, now;
      lastEmittedPts, lastEmitWallclockAt := None, None;
    }

    method IsBridging() returns (b: bool)
      ensures b <==> View().state == Bridging
    {
      b := state == Bridging;
    }

    method OnUpstreamPacket(now: nat)
      modifies this
      ensures View() == Apply(old(View()), Upstream(now)).0
    {
      lastUpstreamAt := now;
    }

    method OnBroadcast(pts: nat, now: nat)
      modifies this
      ensures View() == Apply(old(View()), Broadcast(pts, now)).0
    {
      state := Live;
      lastEmittedPts := Some(pts);
      lastEmitWallclockAt := Some(now);
    }

    method OnTick(now: nat, anchor: Option<nat>) returns (replay: Option<nat>)
      modifies this
      ensures (View(), replay) == Apply(old(View()), Tick(now, anchor))
    {
      if SaturatingSub(now, lastUpstreamAt) > gapThreshold {
        state := Bridging;
      }
      if state != Bridging || anchor.None? {
        return None;
      }
      var pts := AdvanceReplayPts(anchor.value, now);
      replay := Some(pts);
    }

    method AdvanceReplayPts(anchor: nat, now: nat) returns (synth: nat)
      modifies this`lastEmittedPts, this`lastEmitWallclockAt
      ensures synth == ReplayPts(old(View()), anchor, now)
      ensures lastEmittedPts == Some(synth) && lastEmitWallclockAt == Some(now)
    {
      var delta := 0;
      if lastEmitWallclockAt.Some? {
        delta := WideTicks(SaturatingSub(now, lastEmitWallclockAt.value)) % U32_RANGE;
      }
      synth := WrappingAdd(if lastEmittedPts.Some? then lastEmittedPts.value else anchor, delta);
      lastEmittedPts := Some(synth);
      lastEmitWallclockAt := Some(now);
    }
  }

  // ----- Runs -----

  function Run(p: Policy, es: seq<Event>): Policy {
    if es == [] then p else Apply(Run(p, es[..|es| - 1]), es[|es| - 1]).0
  }

  /** What the i-th event of a run made the policy replay. */
  function Replay(p: Policy, es: seq<Event>, i: nat): Option<nat>
    requires i < |es|
  {
    Apply(Run(p, es[..i]), es[i]).1
  }

  lemma {:induction false} RunStep(p: Policy, es: seq<Event>, e: Event)
    ensures Run(p, es + [e]) == Apply(Run(p, es), e).0
  {
    assert (es + [e])[..|es|] == es;
  }

  // ----- When is a source bridging? -----

  /** Arrival of the latest upstream packet, or the source's birth. */
  function LastArrival(birth: nat, es: seq<Event>): nat {
    if es == [] then birth
    else match es[|es| - 1]
      case Upstream(at) => at
      case _ => LastArrival(birth, es[..|es| - 1])
  }

  /** A tick that finds upstream silent for strictly longer than the threshold. */
  predicate SeesGap(threshold: nat, birth: nat, es: seq<Event>, i: nat)
    requires i < |es|
  {
    es[i].Tick? && SaturatingSub(es[i].at, LastArrival(birth, es[..i])) > threshold
  }

  /** Such a tick has happened since the latest broadcast, or since construction. */
  ghost predicate GapOpen(threshold: nat, birth: nat, es: seq<Event>) {
    exists i :: 0 <= i < |es| && SeesGap(threshold, birth, es, i)
                && forall j :: i < j < |es| ==> !es[j].Broadcast?
  }

  /** The state after any event sequence: bridging exactly when a gap is open. */
  lemma {:induction false} BridgingIffGapOpen(threshold: nat, birth: nat, es: seq<Event>)
    ensures var q := Run(NewPolicy(threshold, birth), es);
      && q.threshold == threshold
      && q.lastUpstream == LastArrival(birth, es)
      && (q.state == Bridging <==> GapOpen(threshold, birth, es))
  {
    if es != [] {
      var n := |es| - 1;
      var front := es[..n];
      BridgingIffGapOpen(threshold, birth, front);
      GapOpenStep(threshold, birth, front, es[n]);
      assert es == front + [es[n]];
    }
  }

  lemma {:induction false} GapOpenStep(threshold: nat, birth: nat, front: seq<Event>, e: Event)
    ensures GapOpen(threshold, birth, front + [e])
            <==> (SeesGap(threshold, birth, front + [e], |front|)
                  || (GapOpen(threshold, birth, front) && !e.Broadcast?))
  {
    var es := front + [e];
    var n := |front|;
    forall i | 0 <= i < n ensures es[i] == front[i] && es[..i] == front[..i] {}
    if GapOpen(threshold, birth, front) && !e.Broadcast? {
      var i :| 0 <= i < n && SeesGap(threshold, birth, front, i) && forall j :: i < j < n ==> !front[j].Broadcast?;
      assert SeesGap(threshold, birth, es, i);
      assert forall j :: i < j < |es| ==> !es[j].Broadcast?;
    }
    if GapOpen(threshold, birth, es) && !SeesGap(threshold, birth, es, n) {
      var i :| 0 <= i < |es| && SeesGap(threshold, birth, es, i) && forall j :: i < j < |es| ==> !es[j].Broadcast?;
      assert SeesGap(threshold, birth, front, i);
      assert es[n] == e;
      assert forall j :: i < j < n ==> front[j] == es[j];
    }
  }

  /** A replay happens at exactly the ticks that find, or leave, a gap open and have something to replay. */
  lemma {:induction false} ReplaysIffGapOpen(threshold: nat, birth: nat, es: seq<Event>, i: nat)
    requires i < |es|
    ensures Replay(NewPolicy(threshold, birth), es, i).Some?
            <==> es[i].Tick? && es[i].anchor.Some? && GapOpen(threshold, birth, es[..i + 1])
  {
    hide GapOpen, ReplayPts;
    var p := NewPolicy(threshold, birth);
    BridgingIffGapOpen(threshold, birth, es[..i + 1]);
    assert es[..i + 1][..i] == es[..i];
    assert Run(p, es[..i + 1]) == Apply(Run(p, es[..i]), es[i]).0;
    hide Run;
  }

  /** Representable instants: any two of them are at most `Duration::MAX` apart. */
  predicate Representable(es: seq<Event>) {
    forall i :: 0 <= i < |es| ==> es[i].at <= DURATION_MAX
  }

  /** `Duration::MAX` as threshold disables bridging: the source stays live and never replays. */
  lemma {:induction false} DisabledNeverBridges(birth: nat, es: seq<Event>)
    requires Representable(es)
    ensures Run(NewPolicy(DURATION_MAX, birth), es).state == Live
    ensures forall i :: 0 <= i < |es| ==> Replay(NewPolicy(DURATION_MAX, birth), es, i).None?
  {
    hide Run;
    BridgingIffGapOpen(DURATION_MAX, birth, es);
    forall i | 0 <= i < |es| ensures Replay(NewPolicy(DURATION_MAX, birth), es, i).None? {
      BridgingIffGapOpen(DURATION_MAX, birth, es[..i]);
      assert !GapOpen(DURATION_MAX, birth, es[..i]);
    }
  }

  lemma {:induction false} AnchorsStep(p: Policy, e: Event)
    ensures var (q, replay) := Apply(p, e);
      && (q.lastPts.Some? <==> p.lastPts.Some? || e.Broadcast? || replay.Some?)
      && (q.lastAt.Some? <==> p.lastAt.Some? || e.Broadcast? || replay.Some?)
  {
  }

  /** Timestamp and wall clock are set together, by a broadcast or a replay and by nothing else. */
  lemma {:induction false} AnchorsSetTogether(threshold: nat, birth: nat, es: seq<Event>)
    ensures var p := NewPolicy(threshold, birth);
      && (Run(p, es).lastPts.Some? <==> Run(p, es).lastAt.Some?)
      && (Run(p, es).lastPts.Some? <==> exists i :: 0 <= i < |es| && (es[i].Broadcast? || Replay(p, es, i).Some?))
  {
    hide Apply;
    var p := NewPolicy(threshold, birth);
    if es != [] {
      var n := |es| - 1;
      var front := es[..n];
      AnchorsStep(Run(p, front), es[n]);
      AnchorsSetTogether(threshold, birth, front);
      forall i | 0 <= i < n ensures Replay(p, es, i) == Replay(p, front, i) && es[i] == front[i] {
        assert es[..i] == front[..i];
      }
      if Run(p, front).lastPts.Some? {
        var i :| 0 <= i < n && (front[i].Broadcast? || Replay(p, front, i).Some?);
        assert es[i].Broadcast? || Replay(p, es, i).Some?;
      }
      assert Replay(p, es, n) == Apply(Run(p, front), es[n]).1;
    }
  }

  /** A source's very first emission, if it is a replay, carries its anchor unchanged however old the source is. */
  lemma {:induction false} FirstReplayIsAnchor(threshold: nat, birth: nat, es: seq<Event>, i: nat)
    requires i < |es| && Replay(NewPolicy(threshold, birth), es, i).Some?
    requires forall j :: 0 <= j < i ==> !es[j].Broadcast? && Replay(NewPolicy(threshold, birth), es, j).None?
    ensures es[i].Tick? && es[i].anchor.Some?
    ensures es[i].anchor.value < U32_RANGE ==> Replay(NewPolicy(threshold, birth), es, i) == es[i].anchor
    ensures var q := Run(NewPolicy(threshold, birth), es[..i + 1]);
      q.lastPts == Replay(NewPolicy(threshold, birth), es, i) && q.lastAt == Some(es[i].at)
  {
    var p := NewPolicy(threshold, birth);
    AnchorsSetTogether(threshold, birth, es[..i]);
    forall j | 0 <= j < i ensures Replay(p, es[..i], j) == Replay(p, es, j) {
      assert es[..i][..j] == es[..j];
    }
    RunStep(p, es[..i], es[i]);
    assert es[..i] + [es[i]] == es[..i + 1];
    hide Run;
    assert Run(p, es[..i]).lastPts.None?;
  }

  /** Ticks that find nothing to replay, and packets that broadcast nothing, leave both counters alone. */
  lemma {:induction false} CountersKept(p: Policy, e: Event)
    ensures !e.Broadcast? && Apply(p, e).1.None? ==>
              Apply(p, e).0.lastPts == p.lastPts && Apply(p, e).0.lastAt == p.lastAt
  {
  }

  // ----- How far do replayed timestamps drift from the wall clock? -----

  /** Exact 90 kHz ticks of a stretch, rounded down. */
  function Ticks90k(delta: nat): nat {
    delta * VIDEO_CLOCK_HZ / NANOS_PER_SECOND
  }

  /** What that rounding loses, in billionths of a tick. */
  function Lost(delta: nat): nat {
    delta * VIDEO_CLOCK_HZ % NANOS_PER_SECOND
  }

  /** No `Duration` is long enough for the 128-bit product to saturate. */
  lemma {:induction false} NeverSaturates(delta: nat)
    requires delta <= DURATION_MAX
    ensures delta * VIDEO_CLOCK_HZ <= U128_MAX
    ensures WideTicks(delta) == Ticks90k(delta)
  {
  }

  function LastOr(t0: nat, ts: seq<nat>): nat {
    if ts == [] then t0 else ts[|ts| - 1]
  }

  predicate Ordered(t0: nat, ts: seq<nat>) {
    && (ts != [] ==> t0 <= ts[0])
    && forall i, j :: 0 <= i < j < |ts| ==> ts[i] <= ts[j]
  }

  /** Ticks accumulated by replays at the instants `ts`, each rounded down on its own. */
  function Accumulated(t0: nat, ts: seq<nat>): nat {
    if ts == [] then 0
    else
      var front := ts[..|ts| - 1];
      Accumulated(t0, front) + Ticks90k(SaturatingSub(ts[|ts| - 1], LastOr(t0, front)))
  }

  function AccumulatedLoss(t0: nat, ts: seq<nat>): nat {
    if ts == [] then 0
    else
      var front := ts[..|ts| - 1];
      AccumulatedLoss(t0, front) + Lost(SaturatingSub(ts[|ts| - 1], LastOr(t0, front)))
  }

  /** Conservation: the ticks gained and the fractions lost make up the elapsed time exactly. */
  lemma {:induction false} NothingElseLost(t0: nat, ts: seq<nat>)
    requires Ordered(t0, ts)
    ensures t0 <= LastOr(t0, ts)
    ensures NANOS_PER_SECOND * Accumulated(t0, ts) + AccumulatedLoss(t0, ts)
            == VIDEO_CLOCK_HZ * (LastOr(t0, ts) - t0)
    ensures AccumulatedLoss(t0, ts) <= |ts| * (NANOS_PER_SECOND - 1)
  {
    if ts != [] {
      NothingElseLost(t0, ts[..|ts| - 1]);
    }
  }

  /**
   * After n replays the accumulated advance is the true advance less the whole ticks lost to rounding,
   * which are at most n - 1, and none at all when every spacing is a multiple of 100 microseconds.
   */
  lemma {:induction false} DriftBound(t0: nat, ts: seq<nat>)
    requires Ordered(t0, ts)
    ensures t0 <= LastOr(t0, ts)
    ensures var elapsed := Ticks90k(LastOr(t0, ts) - t0);
      && Accumulated(t0, ts) == elapsed - AccumulatedLoss(t0, ts) / NANOS_PER_SECOND
      && Accumulated(t0, ts) <= elapsed
      && (ts != [] ==> elapsed - (|ts| - 1) <= Accumulated(t0, ts))
  {
    NothingElseLost(t0, ts);
  }

  lemma {:induction false} DriftFreeCadence(t0: nat, ts: seq<nat>)
    requires Ordered(t0, ts)
    requires forall i :: 0 <= i < |ts| ==> (ts[i] - t0) % 100_000 == 0
    ensures t0 <= LastOr(t0, ts)
    ensures Accumulated(t0, ts) == Ticks90k(LastOr(t0, ts) - t0)
  {
    DriftBound(t0, ts);
    NoLoss(t0, ts);
  }

  lemma {:induction false} NoLoss(t0: nat, ts: seq<nat>)
    requires Ordered(t0, ts)
    requires forall i :: 0 <= i < |ts| ==> (ts[i] - t0) % 100_000 == 0
    ensures AccumulatedLoss(t0, ts) == 0
  {
    if ts != [] {
      var front := ts[..|ts| - 1];
      NoLoss(t0, front);
      var last := LastOr(t0, front);
      NothingElseLost(t0, front);
      assert (last - t0) % 100_000 == 0;
      WholeTicks(last - t0, ts[|ts| - 1] - t0);
    }
  }

  lemma {:induction false} WholeTicks(a: nat, b: nat)
    requires a <= b && a % 100_000 == 0 && b % 100_000 == 0
    ensures Lost(b - a) == 0
  {
    var k := b / 100_000 - a / 100_000;
    assert b - a == 100_000 * k;
    assert (b - a) * VIDEO_CLOCK_HZ == NANOS_PER_SECOND * (9 * k);
  }

  /** Instants of the replays of a run. */
  function ReplayInstants(p: Policy, es: seq<Event>): seq<nat> {
    if es == [] then []
    else
      var n := |es| - 1;
      ReplayInstants(p, es[..n]) + (if Replay(p, es, n).Some? then [es[n].at] else [])
  }

  predicate Quiet(es: seq<Event>) {
    forall i :: 0 <= i < |es| ==> !es[i].Broadcast?
  }

  predicate EventsOrdered(t0: nat, es: seq<Event>) {
    forall i :: 0 <= i < |es| ==> t0 <= es[i].at <= DURATION_MAX && forall j :: 0 <= j < i ==> es[j].at <= es[i].at
  }

  lemma {:induction false} AddModulo(a: nat, b: nat, d: nat)
    ensures ((a + b) % U32_RANGE + d % U32_RANGE) % U32_RANGE == (a + b + d) % U32_RANGE
  {
    var q := (a + b) / U32_RANGE;
    var r := d / U32_RANGE;
    assert a + b + d == ((a + b) % U32_RANGE + d % U32_RANGE) + (q + r) * U32_RANGE;
  }

  /**
   * The stamps of a bridged gap: from an emission at timestamp `pts` and instant `t0`, through any mixture of
   * ticks and unbroadcast packets, the counters hold `pts` plus the accumulated advance, modulo 2^32.
   */
  lemma {:induction false} ReplayTimestamps(p: Policy, pts: nat, t0: nat, es: seq<Event>)
    requires p.lastPts == Some(pts) && p.lastAt == Some(t0) && pts < U32_RANGE
    requires Quiet(es) && EventsOrdered(t0, es)
    ensures var ts := ReplayInstants(p, es);
      && Ordered(t0, ts)
      && (es != [] ==> LastOr(t0, ts) <= es[|es| - 1].at)
      && Run(p, es).lastAt == Some(LastOr(t0, ts))
      && Run(p, es).lastPts == Some((pts + Accumulated(t0, ts)) % U32_RANGE)
  {
    hide Apply, Accumulated, Ordered;
    if es == [] {
      NoReplaysYet(t0);
    } else {
      var n := |es| - 1;
      var front := es[..n];
      ReplayTimestamps(p, pts, t0, front);
      var ts := ReplayInstants(p, front);
      assert n > 0 ==> front[n - 1] == es[n - 1];
      assert LastOr(t0, ts) <= es[n].at;
      CountersKept(Run(p, front), es[n]);
      if Replay(p, es, n).Some? {
        ReplayAdvances(Run(p, front), es[n], pts, t0, ts);
      } else {
        assert ReplayInstants(p, es) == ts;
      }
    }
  }

  lemma {:induction false} NoReplaysYet(t0: nat)
    ensures Ordered(t0, []) && Accumulated(t0, []) == 0
  {
  }

  lemma {:induction false} ReplayAdvances(q: Policy, e: Event, pts: nat, t0: nat, ts: seq<nat>)
    requires Ordered(t0, ts) && LastOr(t0, ts) <= e.at <= DURATION_MAX
    requires q.lastAt == Some(LastOr(t0, ts)) && q.lastPts == Some((pts + Accumulated(t0, ts)) % U32_RANGE)
    requires Apply(q, e).1.Some?
    ensures Ordered(t0, ts + [e.at]) && LastOr(t0, ts + [e.at]) == e.at
    ensures Apply(q, e).0.lastAt == Some(e.at)
    ensures Apply(q, e).1 == Apply(q, e).0.lastPts == Some((pts + Accumulated(t0, ts + [e.at])) % U32_RANGE)
  {
    hide Ordered, Accumulated, Ticks90k, WideTicks;
    var delta := e.at - LastOr(t0, ts);
    AccumulatedStep(t0, ts, e.at);
    NeverSaturates(delta);
    AddModulo(pts, Accumulated(t0, ts), Ticks90k(delta));
  }

  lemma {:induction false} AccumulatedStep(t0: nat, ts: seq<nat>, at: nat)
    requires Ordered(t0, ts) && LastOr(t0, ts) <= at
    ensures Ordered(t0, ts + [at])
    ensures Accumulated(t0, ts + [at]) == Accumulated(t0, ts) + Ticks90k(at - LastOr(t0, ts))
  {
    var us := ts + [at];
    assert us[..|us| - 1] == ts;
  }

  /** From a live broadcast on, the timestamp on the wire lags the 90 kHz wall clock by less than one tick a replay. */
  lemma {:induction false} ReplayDrift(p: Policy, pts: nat, t0: nat, es: seq<Event>)
    requires pts < U32_RANGE && t0 <= DURATION_MAX && Quiet(es) && EventsOrdered(t0, es)
    ensures var q := Apply(p, Broadcast(pts, t0)).0;
      var ts := ReplayInstants(q, es);
      && Run(q, es).lastPts == Some((pts + Accumulated(t0, ts)) % U32_RANGE)
      && t0 <= LastOr(t0, ts)
      && var elapsed := Ticks90k(LastOr(t0, ts) - t0);
      && Accumulated(t0, ts) <= elapsed
      && (ts != [] ==> elapsed - (|ts| - 1) <= Accumulated(t0, ts))
  {
    hide Run, Ticks90k, ReplayInstants, Accumulated;
    var q := Apply(p, Broadcast(pts, t0)).0;
    ReplayTimestamps(q, pts, t0, es);
    DriftBound(t0, ReplayInstants(q, es));
  }

  /** All ticks at whole multiples of 100 microseconds after `t0`. */
  predicate OnGrid(t0: nat, es: seq<Event>) {
    forall i :: 0 <= i < |es| && es[i].Tick? ==> (es[i].at - t0) % 100_000 == 0
  }

  lemma {:induction false} ReplaysOnGrid(p: Policy, t0: nat, es: seq<Event>)
    requires OnGrid(t0, es)
    ensures forall i :: 0 <= i < |ReplayInstants(p, es)| ==> (ReplayInstants(p, es)[i] - t0) % 100_000 == 0
  {
    hide ReplayPts;
    if es != [] { ReplaysOnGrid(p, t0, es[..|es| - 1]); }
  }

  /** On a cadence of whole 100 microseconds, such as the 200 ms tick, the replayed timestamps do not drift at all. */
  lemma {:induction false} ReplayExactOnGrid(p: Policy, pts: nat, t0: nat, es: seq<Event>)
    requires pts < U32_RANGE && t0 <= DURATION_MAX && Quiet(es) && EventsOrdered(t0, es) && OnGrid(t0, es)
    ensures var q := Apply(p, Broadcast(pts, t0)).0;
      var ts := ReplayInstants(q, es);
      && t0 <= LastOr(t0, ts)
      && Run(q, es).lastPts == Some((pts + Ticks90k(LastOr(t0, ts) - t0)) % U32_RANGE)
  {
    hide Run, Ticks90k, ReplayInstants, Accumulated;
    var q := Apply(p, Broadcast(pts, t0)).0;
    ReplayTimestamps(q, pts, t0, es);
    ReplaysOnGrid(q, t0, es);
    DriftFreeCadence(t0, ReplayInstants(q, es));
  }

  // ----- The driver -----

  datatype Nal = Nal(bytes: seq<bv8>, parameterSet: bool, decodable: bool)
  datatype Burst = Burst(nals: seq<Nal>, capturedPts: nat)
  datatype Frame = Frame(nals: seq<Nal>, pts: nat)

  predicate Replayable(n: Nal) { !n.parameterSet && n.decodable }

  /** The cached burst stripped of what must not travel in band, in order. */
  function Strip(nals: seq<Nal>): seq<Nal> {
    if nals == [] then []
    else
      var n := nals[|nals| - 1];
      Strip(nals[..|nals| - 1]) + (if Replayable(n) then [n] else [])
  }

  function AnchorOf(burst: Option<Burst>): Option<nat> {
    if burst.Some? && Strip(burst.value.nals) != [] then Some(burst.value.capturedPts) else None
  }

  /** Strip is the filter it should be: it keeps each NAL in its place exactly when it is decodable video. */
  lemma {:induction false} StripIsFilter(a: seq<Nal>, n: Nal)
    ensures Strip([]) == []
    ensures Strip(a + [n]) == Strip(a) + if !n.parameterSet && n.decodable then [n] else []
    ensures n in Strip(a) <==> n in a && !n.parameterSet && n.decodable
  {
    assert (a + [n])[..|a|] == a;
    StripMembers(a, n);
  }

  lemma {:induction false} StripMembers(a: seq<Nal>, n: Nal)
    ensures n in Strip(a) <==> n in a && !n.parameterSet && n.decodable
  {
    if a != [] {
      var k := |a| - 1;
      StripMembers(a[..k], n);
      assert a == a[..k] + [a[k]];
    }
  }

  /** A tick has something to replay exactly when a burst is cached that holds decodable video. */
  lemma {:induction false} AnchorIff(burst: Option<Burst>)
    ensures AnchorOf(burst).Some?
            <==> burst.Some? && exists n :: n in burst.value.nals && !n.parameterSet && n.decodable
    ensures AnchorOf(burst).Some? ==> AnchorOf(burst).value == burst.value.capturedPts
  {
    hide Strip;
    if burst.Some? {
      var nals := burst.value.nals;
      if Strip(nals) != [] {
        var n := Strip(nals)[0];
        StripMembers(nals, n);
      }
      if n :| n in nals && !n.parameterSet && n.decodable {
        StripMembers(nals, n);
      }
    }
  }

  /** One gap-detection tick: replays the stripped burst exactly when the policy asks for it. */
  method TickBridging(policy: BridgingPolicy, burst: Option<Burst>, now: nat) returns (sent: Option<Frame>)
    modifies policy
    ensures policy.View() == Apply(old(policy.View()), Tick(now, AnchorOf(burst))).0
    ensures sent == match Apply(old(policy.View()), Tick(now, AnchorOf(burst))).1
                    case None => None
                    case Some(pts) => Some(Frame(Strip(burst.value.nals), pts))
  {
    var nals: seq<Nal> := [];
    if burst.Some? {
      var all := burst.value.nals;
      for i := 0 to |all|
        invariant nals == Strip(all[..i])
      {
        assert all[..i + 1][..i] == all[..i];
        if Replayable(all[i]) { nals := nals + [all[i]]; }
      }
      assert all[..|all|] == all;
    }
    var anchor: Option<nat> := if nals == [] then None else Some(burst.value.capturedPts);
    var pts := policy.OnTick(now, anchor);
    sent := if pts.Some? then Some(Frame(nals, pts.value)) else None;
  }

  /** What the reader got from upstream; a video packet may or may not have been broadcast. */
  datatype Received = VideoPacket(broadcastPts: Option<nat>) | OtherPacket | DecodeError | StreamEnd

  /** The policy events behind one reader result. */
  function EventsOf(r: Received, arrived: nat, sent: nat): seq<Event> {
    match r
    case VideoPacket(None) => [Upstream(arrived)]
    case VideoPacket(Some(pts)) => [Upstream(arrived), Broadcast(pts, sent)]
    case _ => []
  }

  /**
   * One reader result. For a packet the policy is asked whether to drop live audio, before any broadcast of that
   * packet is recorded: audio is held back exactly while the source was bridging when the packet came. Any video
   * packet proves upstream alive; only a broadcast one ends a gap and moves the timestamp counters.
   */
  method ProcessStreamResult(policy: BridgingPolicy, r: Received, arrived: nat, sent: nat)
    returns (more: bool, dropAudio: bool)
    modifies policy
    ensures more <==> r != StreamEnd
    ensures dropAudio <==> (r.VideoPacket? || r.OtherPacket?) && old(policy.View()).state == Bridging
    ensures policy.View() == Run(old(policy.View()), EventsOf(r, arrived, sent))
    ensures policy.gapThreshold == old(policy.gapThreshold)
    ensures policy.lastUpstreamAt == if r.VideoPacket? then arrived else old(policy.lastUpstreamAt)
    ensures r.VideoPacket? && r.broadcastPts.Some? ==>
              && policy.state == Live
              && policy.lastEmittedPts == r.broadcastPts && policy.lastEmitWallclockAt == Some(sent)
    ensures !(r.VideoPacket? && r.broadcastPts.Some?) ==>
              && policy.state == old(policy.state)
              && policy.lastEmittedPts == old(policy.lastEmittedPts)
              && policy.lastEmitWallclockAt == old(policy.lastEmitWallclockAt)
  {
    ghost var p := policy.View();
    dropAudio := false;
    if r.VideoPacket? {
      policy.OnUpstreamPacket(arrived);
      RunStep(p, [], Upstream(arrived));
      assert [] + [Upstream(arrived)] == [Upstream(arrived)];
    }
    if r.VideoPacket? || r.OtherPacket? {
      dropAudio := policy.IsBridging();
    }
    if r.VideoPacket? && r.broadcastPts.Some? {
      policy.OnBroadcast(r.broadcastPts.value, sent);
      RunStep(p, [Upstream(arrived)], Broadcast(r.broadcastPts.value, sent));
      assert [Upstream(arrived)] + [Broadcast(r.broadcastPts.value, sent)] == EventsOf(r, arrived, sent);
    }
    more := r != StreamEnd;
  }
}
