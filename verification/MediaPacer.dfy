/** The per-source pacer: releases queued frames no faster than their durations say. */
module MediaPacer {
  import opened Prelude

  /** Durations and instants are nanoseconds. */
  datatype Config = Config(maxLead: nat, initialLatency: nat, snapOnPast: bool)

  const AUDIO := Config(2_000_000_000, 500_000_000, true)
  const VIDEO := Config(3_000_000_000, 1_500_000_000, false)

  /**
   * A queued frame: when it reached the queue, how long it lasts, and how late the scheduler was in
   * handing it over and in waking the task from its sleep.
   */
  datatype Item = Item(arrival: nat, duration: nat, recvLate: nat, wakeLate: nat)

  /** One turn of the pacer loop: the clock it read, the slot it chose, and when the frame went out. */
  datatype Turn = Turn(now: nat, target: nat, emit: nat)

  function NextTarget(c: Config, cursor: Option<nat>, now: nat): nat {
    match cursor
    case Some(t) =>
      if t > now + c.maxLead then now
      else if c.snapOnPast && t < now then now
      else t
    case None => now + c.initialLatency
  }

  /** The turn for `item`, given when the task was free again and where its cursor stood. */
  function TakeTurn(c: Config, item: Item, free: nat, cursor: Option<nat>): Turn {
    var now := Max(item.arrival, free) + item.recvLate;
    var target := NextTarget(c, cursor, now);
    Turn(now, target, if target > now then target + item.wakeLate else now)
  }

  /** The uncancelled run over a finite arrival schedule. */
  function Turns(c: Config, items: seq<Item>): (ts: seq<Turn>)
    ensures |ts| == |items|
  {
    if items == [] then []
    else
      var n := |items| - 1;
      var before := Turns(c, items[..n]);
      if n == 0 then [TakeTurn(c, items[0], 0, None)]
      else before + [TakeTurn(c, items[n], before[n - 1].emit, Some(before[n - 1].target + items[n - 1].duration))]
  }

  function Emits(ts: seq<Turn>): (es: seq<nat>)
    ensures |es| == |ts|
  {
    seq(|ts|, i requires 0 <= i < |ts| => ts[i].emit)
  }

  lemma {:induction false} EmitsStep(ts: seq<Turn>, n: nat)
    requires n < |ts|
    ensures Emits(ts)[..n + 1] == Emits(ts)[..n] + [ts[n].emit]
  {
  }

  lemma {:induction false} TurnsPrefix(c: Config, items: seq<Item>, k: nat)
    requires k <= |items|
    ensures Turns(c, items[..k]) == Turns(c, items)[..k]
  {
    if k < |items| {
      var n := |items| - 1;
      TurnsPrefix(c, items[..n], k);
      assert items[..n][..k] == items[..k];
      assert Turns(c, items)[..n] == Turns(c, items[..n]);
      assert Turns(c, items)[..k] == Turns(c, items)[..n][..k];
    } else {
      assert items[..k] == items;
    }
  }

  /** The i-th turn follows from the one before it, whatever comes later. */
  lemma {:induction false} TurnAt(c: Config, items: seq<Item>, i: nat)
    requires i < |items|
    ensures var ts := Turns(c, items);
      ts[i] == if i == 0 then TakeTurn(c, items[0], 0, None)
               else TakeTurn(c, items[i], ts[i - 1].emit, Some(ts[i - 1].target + items[i - 1].duration))
  {
    hide TakeTurn;
    var ts := Turns(c, items);
    TurnsPrefix(c, items, i + 1);
    TurnsPrefix(c, items, i);
    assert items[..i + 1][..i] == items[..i];
    assert ts[i] == Turns(c, items[..i + 1])[i];
    assert i > 0 ==> ts[i - 1] == Turns(c, items[..i])[i - 1];
  }

  /**
   * The task's loop: it emits exactly the turns of the uncancelled run that precede the cancellation. Nothing leaves
   * at or after the cancellation, and a frame is withheld only if it would have.
   */
  method MediaPacerTask(c: Config, items: seq<Item>, cancelAt: Option<nat>) returns (emitted: seq<nat>)
    ensures |emitted| <= |items|
    ensures emitted == Emits(Turns(c, items))[..|emitted|]
    ensures cancelAt.Some? ==> forall x :: x in emitted ==> x < cancelAt.value
    ensures |emitted| < |items| ==> cancelAt.Some? && cancelAt.value <= Turns(c, items)[|emitted|].emit
  {
    var nextEmitAt: Option<nat> := None;
    var free: nat := 0;
    var next := 0;
    emitted := [];
    ghost var ts := Turns(c, items);
    hide Turns, NextTarget, Emits;
    assert Emits(ts)[..0] == [];
    while next < |items|
      invariant next == |emitted| <= |items|
      invariant emitted == Emits(ts)[..next]
      invariant cancelAt.Some? ==> forall x :: x in emitted ==> x < cancelAt.value
      invariant free == if next == 0 then 0 else ts[next - 1].emit
      invariant nextEmitAt == if next == 0 then None else Some(ts[next - 1].target + items[next - 1].duration)
    {
      TurnAt(c, items, next);
      var item := items[next];
      var now := Max(item.arrival, free) + item.recvLate;
      if cancelAt.Some? && cancelAt.value <= now { return; }
      var target := NextTarget(c, nextEmitAt, now);
      free := now;
      if target > now {
        var woken := target + item.wakeLate;
        if cancelAt.Some? && cancelAt.value <= woken { return; }
        free := woken;
      }
      assert ts[next].emit == free;
      EmitsStep(ts, next);
      emitted := emitted + [free];
      nextEmitAt := Some(target + item.duration);
      next := next + 1;
    }
  }

  // ----- Facts common to both modes -----

  function Durations(items: seq<Item>): (ds: seq<nat>)
    ensures |ds| == |items|
  {
    seq(|items|, i requires 0 <= i < |items| => items[i].duration)
  }

  /** Total duration of the items `k..i`. */
  function Span(items: seq<Item>, k: nat, i: nat): nat
    requires k <= i <= |items|
  {
    Sum(Durations(items)[k..i])
  }

  lemma {:induction false} SpanStep(items: seq<Item>, k: nat, i: nat)
    requires k <= i < |items|
    ensures Span(items, k, i + 1) == Span(items, k, i) + items[i].duration
  {
    var ds := Durations(items);
    assert ds[k..i + 1][..i - k] == ds[k..i];
  }

  predicate Ideal(items: seq<Item>) {
    forall i :: 0 <= i < |items| ==> items[i].recvLate == 0 && items[i].wakeLate == 0
  }

  predicate DurationsCapped(c: Config, items: seq<Item>) {
    forall i :: 0 <= i < |items| ==> items[i].duration <= c.maxLead
  }

  predicate ArrivalsOrdered(items: seq<Item>) {
    forall i, j :: 0 <= i < j < |items| ==> items[i].arrival <= items[j].arrival
  }

  /** Turn `i` took the future-cap branch. */
  predicate CapFires(c: Config, items: seq<Item>, i: nat)
    requires 0 < i < |items|
  {
    var ts := Turns(c, items);
    ts[i - 1].target + items[i - 1].duration > ts[i].now + c.maxLead
  }

  /** A frame never leaves before its slot, before it arrived, or before its predecessor, and no later than it must. */
  lemma {:induction false} EmitsInOrder(c: Config, items: seq<Item>, i: nat)
    requires i < |items|
    ensures var t := Turns(c, items)[i];
      && t.target <= t.emit && t.now <= t.emit && items[i].arrival <= t.now
      && (i > 0 ==> Turns(c, items)[i - 1].emit <= t.now)
      && t.now - items[i].recvLate == Max(items[i].arrival, if i > 0 then Turns(c, items)[i - 1].emit else 0)
      && t.emit - t.now == if t.target > t.now then t.target - t.now + items[i].wakeLate else 0
  {
    TurnAt(c, items, i);
  }

  /** In either mode and for any lateness, an item no longer than the cap cannot push its successor over it. */
  lemma {:induction false} CapUnreachable(c: Config, items: seq<Item>, i: nat)
    requires 0 < i < |items|
    requires items[i - 1].duration <= c.maxLead
    ensures !CapFires(c, items, i)
  {
    EmitsInOrder(c, items, i - 1);
    EmitsInOrder(c, items, i);
  }

  /** When the cap does fire, in either mode, the frame goes out at once and the cursor starts again from there. */
  lemma {:induction false} CapReleasesAtOnce(c: Config, items: seq<Item>, i: nat)
    requires 0 < i < |items| && CapFires(c, items, i)
    ensures var t := Turns(c, items)[i]; t.target == t.emit == t.now
  {
    TurnAt(c, items, i);
  }

  // ----- Video: the schedule never drifts -----

  /** Exactly when no turn took the future cap is every slot the first slot plus the durations so far. */
  lemma {:induction false} VideoScheduleIff(c: Config, items: seq<Item>, n: nat)
    requires !c.snapOnPast && n < |items|
    ensures var ts := Turns(c, items);
      (forall i :: 0 <= i <= n ==> ts[i].target == ts[0].target + Span(items, 0, i))
      <==> (forall i :: 0 < i <= n ==> !CapFires(c, items, i))
  {
    hide Turns;
    var ts := Turns(c, items);
    if n == 0 {
      assert Durations(items)[0..0] == [];
    } else {
      VideoScheduleIff(c, items, n - 1);
      SpanStep(items, 0, n - 1);
      TurnAt(c, items, n);
      assert !CapFires(c, items, n) ==> ts[n].target == ts[n - 1].target + items[n - 1].duration;
      assert CapFires(c, items, n) ==> ts[n].target < ts[n - 1].target + items[n - 1].duration;
    }
  }

  /** While no cap fires, an ideal clock releases each frame at the later of its slot and its arrival. */
  lemma {:induction false} UncappedEmission(c: Config, items: seq<Item>, n: nat)
    requires !c.snapOnPast && Ideal(items) && ArrivalsOrdered(items) && n < |items|
    requires forall i :: 0 < i <= n ==> !CapFires(c, items, i)
    ensures var t := Turns(c, items)[n];
      && t.target == items[0].arrival + c.initialLatency + Span(items, 0, n)
      && t.emit == Max(t.target, items[n].arrival)
  {
    hide Turns;
    TurnAt(c, items, 0);
    TurnAt(c, items, n);
    VideoScheduleIff(c, items, n);
    if n > 0 {
      UncappedEmission(c, items, n - 1);
      SpanStep(items, 0, n - 1);
    }
  }

  /** By the arrivals and durations alone: item `i` is due within the lead, or its predecessor was no longer than it. */
  predicate WithinLead(c: Config, items: seq<Item>, i: nat)
    requires 0 < i < |items|
  {
    || items[i - 1].duration <= c.maxLead
    || items[0].arrival + c.initialLatency + Span(items, 0, i) <= items[i].arrival + c.maxLead
  }

  /** With an ideal clock the cap stays unused exactly when the schedule itself says so. */
  lemma {:induction false} CapUnusedIff(c: Config, items: seq<Item>, n: nat)
    requires !c.snapOnPast && Ideal(items) && ArrivalsOrdered(items) && n < |items|
    ensures (forall i :: 0 < i <= n ==> !CapFires(c, items, i))
            <==> (forall i :: 0 < i <= n ==> WithinLead(c, items, i))
  {
    if n > 0 {
      CapUnusedIff(c, items, n - 1);
      if forall i :: 0 < i <= n - 1 ==> !CapFires(c, items, i) {
        NextCapIff(c, items, n);
      }
    }
  }

  lemma {:induction false} NextCapIff(c: Config, items: seq<Item>, n: nat)
    requires !c.snapOnPast && Ideal(items) && ArrivalsOrdered(items) && 0 < n < |items|
    requires forall i :: 0 < i <= n - 1 ==> !CapFires(c, items, i)
    ensures !CapFires(c, items, n) <==> WithinLead(c, items, n)
  {
    hide Turns;
    UncappedEmission(c, items, n - 1);
    SpanStep(items, 0, n - 1);
    TurnAt(c, items, n);
  }

  /**
   * Zero accumulated drift, decided before the run: with an ideal clock and arrivals in order, every slot up to `n`
   * is the first slot plus the durations so far if and only if each item is due within the lead of its arrival or
   * follows one no longer than the lead.
   */
  lemma {:induction false} VideoDriftFreeIff(c: Config, items: seq<Item>, n: nat)
    requires !c.snapOnPast && Ideal(items) && ArrivalsOrdered(items) && n < |items|
    ensures (forall i :: 0 <= i <= n ==> Turns(c, items)[i].target == Turns(c, items)[0].target + Span(items, 0, i))
            <==> (forall i :: 0 < i <= n ==> WithinLead(c, items, i))
  {
    hide Turns;
    VideoScheduleIff(c, items, n);
    CapUnusedIff(c, items, n);
  }

  /** Zero accumulated drift: any arrivals, any lateness, durations within the cap. */
  lemma {:induction false} VideoNeverDrifts(c: Config, items: seq<Item>, i: nat)
    requires !c.snapOnPast && DurationsCapped(c, items) && i < |items|
    ensures var ts := Turns(c, items);
      && ts[0].target == items[0].arrival + items[0].recvLate + c.initialLatency
      && ts[i].target == ts[0].target + Span(items, 0, i)
  {
    forall j | 0 < j <= i ensures !CapFires(c, items, j) { CapUnreachable(c, items, j); }
    VideoScheduleIff(c, items, i);
    TurnAt(c, items, 0);
  }

  /** With an ideal clock each frame leaves at its slot, or on arrival when it arrives after its slot. */
  lemma {:induction false} VideoEmission(c: Config, items: seq<Item>, i: nat)
    requires !c.snapOnPast && DurationsCapped(c, items) && Ideal(items) && ArrivalsOrdered(items) && i < |items|
    ensures Turns(c, items)[i].emit
            == Max(items[0].arrival + c.initialLatency + Span(items, 0, i), items[i].arrival)
  {
    hide Turns;
    VideoNeverDrifts(c, items, i);
    TurnAt(c, items, i);
    if i > 0 {
      VideoEmission(c, items, i - 1);
      SpanStep(items, 0, i - 1);
    } else {
      assert Span(items, 0, 0) == 0;
    }
  }

  // ----- Audio: smooth spacing, snapping forward over silences -----

  /** Under any lateness an audio slot is the later of "previous slot plus duration" and "now". */
  lemma {:induction false} AudioSlot(c: Config, items: seq<Item>, i: nat)
    requires c.snapOnPast && i < |items|
    requires i > 0 ==> items[i - 1].duration <= c.maxLead
    ensures var ts := Turns(c, items);
      && ts[i].now <= ts[i].target
      && ts[i].emit == ts[i].target + (if ts[i].target > ts[i].now then items[i].wakeLate else 0)
      && ts[0].target == items[0].arrival + items[0].recvLate + c.initialLatency
      && (i > 0 ==> ts[i].target == Max(ts[i - 1].target + items[i - 1].duration, ts[i].now))
  {
    TurnAt(c, items, i);
    TurnAt(c, items, 0);
    if i > 0 { CapUnreachable(c, items, i); }
  }

  /** Under any lateness two frames leave at least a duration apart, less how late the first one was. */
  lemma {:induction false} AudioSpacing(c: Config, items: seq<Item>, i: nat)
    requires c.snapOnPast && i + 1 < |items| && items[i].duration <= c.maxLead
    requires i > 0 ==> items[i - 1].duration <= c.maxLead
    ensures Turns(c, items)[i].emit + items[i].duration <= Turns(c, items)[i + 1].emit + items[i].wakeLate
  {
    AudioSlot(c, items, i);
    AudioSlot(c, items, i + 1);
  }

  /** Earliest release of item `k` on its own account. */
  function Start(c: Config, items: seq<Item>, k: nat): nat
    requires k < |items|
  {
    if k == 0 then items[0].arrival + c.initialLatency else items[k].arrival
  }

  /** `e` is the largest of `Start(k)` plus the durations `k..i`, over all `k` up to `i`. */
  ghost predicate IsMaxPlus(c: Config, items: seq<Item>, i: nat, e: nat)
    requires i < |items|
  {
    && (forall k :: 0 <= k <= i ==> Start(c, items, k) + Span(items, k, i) <= e)
    && (exists k :: 0 <= k <= i && Start(c, items, k) + Span(items, k, i) == e)
  }

  /** That maximum, one item at a time: a function of arrivals and durations alone. */
  function MaxPlus(c: Config, items: seq<Item>, i: nat): nat
    requires i < |items|
  {
    if i == 0 then Start(c, items, 0) else Max(MaxPlus(c, items, i - 1) + items[i - 1].duration, items[i].arrival)
  }

  lemma {:induction false} EmptySpan(items: seq<Item>, i: nat)
    requires i <= |items|
    ensures Span(items, i, i) == 0
  {
  }

  lemma {:induction false} MaxPlusIsMaximum(c: Config, items: seq<Item>, i: nat)
    requires i < |items|
    ensures IsMaxPlus(c, items, i, MaxPlus(c, items, i))
  {
    hide Span;
    EmptySpan(items, i);
    if i == 0 {
      assert Start(c, items, 0) + Span(items, 0, 0) == MaxPlus(c, items, 0);
    } else {
      MaxPlusIsMaximum(c, items, i - 1);
      var e, d := MaxPlus(c, items, i - 1), items[i - 1].duration;
      forall k | 0 <= k < i ensures Span(items, k, i) == Span(items, k, i - 1) + d { SpanStep(items, k, i - 1); }
      var k :| 0 <= k <= i - 1 && Start(c, items, k) + Span(items, k, i - 1) == e;
      assert Start(c, items, k) + Span(items, k, i) == e + d;
      assert Start(c, items, i) + Span(items, i, i) == items[i].arrival;
    }
  }

  /** While no cap fires, an ideal clock releases each audio frame at that maximum. */
  lemma {:induction false} UncappedAudioEmission(c: Config, items: seq<Item>, n: nat)
    requires c.snapOnPast && Ideal(items) && n < |items|
    requires forall i :: 0 < i <= n ==> !CapFires(c, items, i)
    ensures var t := Turns(c, items)[n]; t.emit == t.target == MaxPlus(c, items, n)
  {
    hide Turns;
    TurnAt(c, items, n);
    if n > 0 {
      assert !CapFires(c, items, n);
      UncappedAudioEmission(c, items, n - 1);
    }
  }

  /** With an ideal clock the i-th audio emission is the max-plus convolution of arrivals and durations. */
  lemma {:induction false} AudioEmission(c: Config, items: seq<Item>, i: nat)
    requires c.snapOnPast && DurationsCapped(c, items) && Ideal(items) && i < |items|
    ensures IsMaxPlus(c, items, i, Turns(c, items)[i].emit)
  {
    hide Turns;
    forall j | 0 < j <= i ensures !CapFires(c, items, j) { CapUnreachable(c, items, j); }
    UncappedAudioEmission(c, items, i);
    MaxPlusIsMaximum(c, items, i);
  }

  /** By the arrivals and durations alone: item `i` is no longer than the lead, or its successor comes soon enough. */
  predicate AudioWithinLead(c: Config, items: seq<Item>, i: nat)
    requires i + 1 < |items|
  {
    || items[i].duration <= c.maxLead
    || MaxPlus(c, items, i) + items[i].duration <= items[i + 1].arrival + c.maxLead
  }

  lemma {:induction false} AudioCapIff(c: Config, items: seq<Item>, n: nat)
    requires c.snapOnPast && Ideal(items) && n + 1 < |items|
    requires forall i :: 0 < i <= n ==> !CapFires(c, items, i)
    ensures !CapFires(c, items, n + 1) <==> AudioWithinLead(c, items, n)
  {
    hide Turns;
    UncappedAudioEmission(c, items, n);
    TurnAt(c, items, n + 1);
  }

  /**
   * Decided before the run: with an ideal clock every audio frame up to `n` is followed at no less than its duration
   * if and only if each is no longer than the lead or its successor comes soon enough.
   */
  lemma {:induction false} AudioSpacingKeptIff(c: Config, items: seq<Item>, n: nat)
    requires c.snapOnPast && Ideal(items) && n < |items|
    ensures (forall i :: 0 <= i < n ==> SpacingKept(c, items, i))
            <==> (forall i :: 0 <= i < n ==> AudioWithinLead(c, items, i))
  {
    hide Turns;
    if n > 0 {
      AudioSpacingKeptIff(c, items, n - 1);
      AudioSpacingIff(c, items, n - 1);
      if forall i :: 0 <= i < n - 1 ==> SpacingKept(c, items, i) {
        forall i | 0 < i <= n - 1 ensures !CapFires(c, items, i) {
          assert SpacingKept(c, items, i - 1);
          AudioSpacingIff(c, items, i - 1);
        }
        AudioCapIff(c, items, n - 1);
        hide SpacingKept, AudioWithinLead;
        assert SpacingKept(c, items, n - 1) <==> AudioWithinLead(c, items, n - 1);
      }
    }
  }

  /** Frame `i` keeps its successor a duration away. */
  predicate SpacingKept(c: Config, items: seq<Item>, i: nat)
    requires i + 1 < |items|
  {
    Turns(c, items)[i].emit + items[i].duration <= Turns(c, items)[i + 1].emit
  }

  /** An audio item longer than the cap breaks the spacing: its successor is released early. */
  lemma {:induction false} OverlongItemSnapsBack()
    ensures var items := [Item(0, 2_500_000_000, 0, 0), Item(0, 64_000_000, 0, 0)];
      var ts := Turns(AUDIO, items);
      CapFires(AUDIO, items, 1) && ts[1].emit == ts[0].emit == 500_000_000
  {
    hide Turns;
    var items := [Item(0, 2_500_000_000, 0, 0), Item(0, 64_000_000, 0, 0)];
    TurnAt(AUDIO, items, 0);
    TurnAt(AUDIO, items, 1);
  }

  /** Ideal clock: consecutive audio frames keep the earlier one's duration exactly when the cap did not fire. */
  lemma {:induction false} AudioSpacingIff(c: Config, items: seq<Item>, i: nat)
    requires c.snapOnPast && Ideal(items) && i + 1 < |items|
    ensures SpacingKept(c, items, i) <==> !CapFires(c, items, i + 1)
  {
    hide Turns;
    TurnAt(c, items, i);
    TurnAt(c, items, i + 1);
  }

  // ----- The durations the video path feeds in -----

  const ANOMALY_CAP_TICKS: nat := 450_000

  /** How long a video frame is held, from the 32-bit 90 kHz timestamps of it and its predecessor. */
  function VideoFrameDuration(previous: Option<nat>, pts: nat): nat {
    match previous
    case None => 0
    case Some(p) =>
      var delta := (pts - p) % 0x1_0000_0000;
      var ticks := if delta > ANOMALY_CAP_TICKS then 0 else delta;
      ticks * 1_000_000 / 90_000 * 1000
  }

  /**
   * A frame is held for its timestamp advance modulo 2^32, rounded down to the microsecond, except that advances over
   * 5 s count as anomalies: those, and the first frame, are held for no time at all.
   */
  lemma {:induction false} VideoDurationExact(previous: nat, advance: nat)
    requires advance < 0x1_0000_0000
    ensures var held := VideoFrameDuration(Some(previous), (previous + advance) % 0x1_0000_0000);
      if advance > ANOMALY_CAP_TICKS then held == 0
      else held % 1000 == 0 && held * 90_000 <= advance * 1_000_000_000 < (held + 1000) * 90_000
    ensures VideoFrameDuration(None, advance) == 0
  {
    var wrapped := (previous + advance) / 0x1_0000_0000;
    assert (previous + advance) % 0x1_0000_0000 - previous == advance - wrapped * 0x1_0000_0000;
    ModuloOf(advance, wrapped);
  }

  lemma {:induction false} ModuloOf(advance: nat, k: nat)
    requires advance < 0x1_0000_0000
    ensures (advance - k * 0x1_0000_0000) % 0x1_0000_0000 == advance
  {
  }

  /** Held frames last at most 5 s, but the video cap is 3 s: gaps between 270 000 and 450 000 ticks exceed it. */
  lemma {:induction false} VideoDurationExceedsCapIff(previous: nat, pts: nat)
    ensures VideoFrameDuration(Some(previous), pts) <= 5_000_000_000
    ensures VideoFrameDuration(Some(previous), pts) > VIDEO.maxLead
            <==> 270_000 < (pts - previous) % 0x1_0000_0000 <= ANOMALY_CAP_TICKS
  {
  }

  /** So the video schedule does drift on some inputs: a 4 s timestamp gap in a burst is skipped outright. */
  lemma {:induction false} VideoDriftsOnLongGap()
    ensures var held := VideoFrameDuration(Some(0), 360_000);
      var items := [Item(0, 0, 0, 0), Item(0, held, 0, 0), Item(0, 0, 0, 0)];
      && held == 4_000_000_000 && Span(items, 0, 2) == held
      && Turns(VIDEO, items)[2].target == Turns(VIDEO, items)[0].target
  {
    hide Turns;
    var items := [Item(0, 0, 0, 0), Item(0, 4_000_000_000, 0, 0), Item(0, 0, 0, 0)];
    TurnAt(VIDEO, items, 0);
    TurnAt(VIDEO, items, 1);
    TurnAt(VIDEO, items, 2);
    SpanStep(items, 0, 0);
    SpanStep(items, 0, 1);
    assert Span(items, 0, 0) == 0;
  }
}
