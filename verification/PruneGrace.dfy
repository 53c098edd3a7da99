/** The idle sweep: a source without subscribers is stopped once it has been seen idle for the whole grace window. */
module PruneGrace {
  import opened Prelude
  import opened CameraLifecycle

  /** What one sweep makes of a source, given its idle marker: removed, or kept with a new marker. */
  datatype Verdict = Removed | Kept(marker: Option<nat>)

  function Judge(marker: Option<nat>, subscribers: nat, now: nat, grace: nat): Verdict {
    if subscribers > 0 then Kept(None)
    else match marker
      case None => if grace == 0 then Removed else Kept(Some(now))
      case Some(since) => if SaturatingSub(now, since) >= grace then Removed else Kept(marker)
  }

  class StreamSource {
    var subscribers: nat
    var lastIdleSince: Option<nat>
    var stopped: bool

    /** The sweep's look at one source: whether it stays registered. */
    method Visit(now: nat, grace: nat) returns (keep: bool)
      modifies this
      ensures var verdict := Judge(old(lastIdleSince), old(subscribers), now, grace);
        && subscribers == old(subscribers)
        && keep == verdict.Kept?
        && stopped == (old(stopped) || verdict.Removed?)
        && (verdict.Kept? ==> lastIdleSince == verdict.marker)
    {
      if subscribers > 0 {
        lastIdleSince := None;
        return true;
      }
      if lastIdleSince.None? {
        lastIdleSince := Some(now);
        if grace == 0 {
          stopped := true;
          return false;
        }
        return true;
      }
      keep := SaturatingSub(now, lastIdleSince.value) < grace;
      if !keep { stopped := true; }
    }
  }

  class Registry {
    var sources: map<StreamKind, StreamSource>

    ghost function Registered(): set<StreamSource>
      reads this
    {
      set k | k in sources :: sources[k]
    }

    ghost predicate Distinct()
      reads this
    {
      forall j, k :: j in sources && k in sources && j != k ==> sources[j] != sources[k]
    }

    /** One sweep over the registry, in an arbitrary order of its entries. */
    method PruneIdleStreamSourcesAt(now: nat, grace: nat)
      requires Distinct()
      modifies this, Registered()
      ensures Distinct()
      ensures forall k :: k in sources ==> k in old(sources) && sources[k] == old(sources)[k]
      ensures forall k :: k in old(sources) ==>
                var source := old(sources)[k];
                var verdict := old(Judge(source.lastIdleSince, source.subscribers, now, grace));
                && (k in sources <==> verdict.Kept?)
                && source.stopped == (old(source.stopped) || verdict.Removed?)
                && (verdict.Kept? ==> source.lastIdleSince == verdict.marker)
                && source.subscribers == old(source.subscribers)
    {
      hide Judge;
      ghost var verdicts := map k | k in sources :: Judge(sources[k].lastIdleSince, sources[k].subscribers, now, grace);
      var todo := sources.Keys;
      var expired: set<StreamKind> := {};
      while todo != {}
        modifies Registered()
        invariant todo <= sources.Keys
        invariant expired <= sources.Keys - todo
        invariant forall k :: k in sources ==> sources[k].subscribers == old(sources[k].subscribers)
        invariant forall k :: k in todo ==>
                    && sources[k].lastIdleSince == old(sources[k].lastIdleSince)
                    && sources[k].stopped == old(sources[k].stopped)
        invariant forall k :: k in sources && k !in todo ==>
                    && (k in expired <==> verdicts[k].Removed?)
                    && sources[k].stopped == (old(sources[k].stopped) || verdicts[k].Removed?)
                    && (verdicts[k].Kept? ==> sources[k].lastIdleSince == verdicts[k].marker)
        decreases todo
      {
        var kind :| kind in todo;
        var keep := sources[kind].Visit(now, grace);
        if !keep { expired := expired + {kind}; }
        todo := todo - {kind};
      }
      sources := sources - expired;
    }
  }

  // ----- A source under repeated sweeps -----

  /** One sweep's sighting of a source. */
  datatype Sighting = Sighting(at: nat, subscribers: nat)

  /** The verdict after a whole history of sweeps; removal is final. */
  function Fate(seen: seq<Sighting>, grace: nat): Verdict {
    if seen == [] then Kept(None)
    else
      var last := seen[|seen| - 1];
      match Fate(seen[..|seen| - 1], grace)
      case Removed => Removed
      case Kept(marker) => Judge(marker, last.subscribers, last.at, grace)
  }

  predicate InOrder(seen: seq<Sighting>) {
    forall i, j :: 0 <= i <= j < |seen| ==> seen[i].at <= seen[j].at
  }

  /** Every sweep from `i` to `j` saw no subscriber. */
  predicate IdleThroughout(seen: seq<Sighting>, i: nat, j: nat)
    requires i <= j < |seen|
  {
    forall k :: i <= k <= j ==> seen[k].subscribers == 0
  }

  /** Sweeps `i` and `j` bound an idle stretch at least as long as the grace. */
  predicate Expired(seen: seq<Sighting>, grace: nat, i: nat, j: nat)
    requires i <= j < |seen|
  {
    IdleThroughout(seen, i, j) && seen[i].at + grace <= seen[j].at
  }

  /** While kept, the marker is the instant of the first sweep of the current idle stretch. */
  ghost predicate MarkerFits(seen: seq<Sighting>, marker: Option<nat>) {
    if seen == [] || seen[|seen| - 1].subscribers > 0 then marker == None
    else exists i :: 0 <= i < |seen| && IdleThroughout(seen, i, |seen| - 1) && marker == Some(seen[i].at)
                     && (i > 0 ==> seen[i - 1].subscribers > 0)
  }

  lemma {:induction false} MarkerKept(seen: seq<Sighting>, grace: nat)
    requires Fate(seen, grace).Kept?
    ensures MarkerFits(seen, Fate(seen, grace).marker)
  {
    if seen != [] {
      var n := |seen| - 1;
      var front := seen[..n];
      MarkerKept(front, grace);
      if seen[n].subscribers == 0 {
        if Fate(front, grace).marker.Some? {
          var i :| 0 <= i < n && IdleThroughout(front, i, n - 1) && Fate(front, grace).marker == Some(front[i].at)
                   && (i > 0 ==> front[i - 1].subscribers > 0);
          assert IdleThroughout(seen, i, n);
          assert i > 0 ==> seen[i - 1] == front[i - 1];
        } else {
          assert n > 0 ==> seen[n - 1] == front[n - 1];
          assert IdleThroughout(seen, n, n);
        }
      }
    }
  }

  /** The sweep that ends a history removes a source kept so far exactly when some idle stretch just expired. */
  lemma {:induction false} PrunedAtExactly(seen: seq<Sighting>, grace: nat, j: nat)
    requires InOrder(seen) && j < |seen| && Fate(seen[..j], grace).Kept?
    ensures Fate(seen[..j + 1], grace).Removed? <==> exists i :: 0 <= i <= j && Expired(seen, grace, i, j)
  {
    hide Judge;
    assert seen[..j + 1][..j] == seen[..j];
    MarkerKept(seen[..j], grace);
    JudgedExactly(seen, grace, j, Fate(seen[..j], grace).marker);
  }

  lemma {:induction false} JudgedExactly(seen: seq<Sighting>, grace: nat, j: nat, marker: Option<nat>)
    requires InOrder(seen) && j < |seen| && MarkerFits(seen[..j], marker)
    ensures Judge(marker, seen[j].subscribers, seen[j].at, grace).Removed?
            <==> exists i :: 0 <= i <= j && Expired(seen, grace, i, j)
  {
    var front := seen[..j];
    assert forall k :: 0 <= k < j ==> front[k] == seen[k];
    if seen[j].subscribers == 0 {
      if marker.None? {
        assert j > 0 ==> seen[j - 1].subscribers > 0;
        assert IdleThroughout(seen, j, j);
        assert grace == 0 ==> Expired(seen, grace, j, j);
        forall i | 0 <= i <= j && Expired(seen, grace, i, j) ensures i == j {}
      } else {
        var i :| 0 <= i < j && IdleThroughout(front, i, j - 1) && marker == Some(front[i].at)
                 && (i > 0 ==> front[i - 1].subscribers > 0);
        assert IdleThroughout(seen, i, j);
        assert SaturatingSub(seen[j].at, seen[i].at) >= grace ==> Expired(seen, grace, i, j);
        forall k | 0 <= k <= j && Expired(seen, grace, k, j) ensures i <= k && Expired(seen, grace, i, j) {}
      }
    }
  }

  /** A source is gone after a history of sweeps exactly when two of them bound an expired idle stretch. */
  lemma {:induction false} PrunedIffExpired(seen: seq<Sighting>, grace: nat)
    requires InOrder(seen)
    ensures Fate(seen, grace).Removed? <==> exists i, j :: 0 <= i <= j < |seen| && Expired(seen, grace, i, j)
  {
    if seen != [] {
      var n := |seen| - 1;
      var front := seen[..n];
      PrunedIffExpired(front, grace);
      assert forall i, j :: 0 <= i <= j < n ==> (Expired(front, grace, i, j) <==> Expired(seen, grace, i, j));
      assert seen[..n + 1] == seen;
      if Fate(front, grace).Kept? {
        PrunedAtExactly(seen, grace, n);
      } else {
        var i, j :| 0 <= i <= j < n && Expired(front, grace, i, j);
        assert Expired(seen, grace, i, j);
      }
    }
  }

  /** Sweeps no further than `period` apart, the first no later than `period` after `from`. */
  predicate Regular(seen: seq<Sighting>, from: nat, period: nat) {
    && (seen != [] ==> seen[0].at <= from + period)
    && forall i :: 0 <= i < |seen| - 1 ==> seen[i + 1].at <= seen[i].at + period
  }

  /** Looking from sweep `start` on, the first sighting at or after `t` is at most one period late. */
  lemma {:induction false} FirstAtOrAfter(seen: seq<Sighting>, from: nat, period: nat, start: nat, t: nat)
    returns (i: nat)
    requires InOrder(seen) && Regular(seen, from, period) && start < |seen|
    requires seen[start].at <= t + period && t <= seen[|seen| - 1].at
    ensures start <= i < |seen| && t <= seen[i].at <= t + period
  {
    i := start;
    while seen[i].at < t
      invariant start <= i < |seen|
      invariant seen[i].at <= t + period
      decreases |seen| - i
    {
      assert seen[i + 1].at <= seen[i].at + period;
      i := i + 1;
    }
  }

  /** With sweeps at most `period` apart, the last viewer's departure leads to removal within grace plus two periods. */
  lemma {:induction false} PrunedInTime(seen: seq<Sighting>, grace: nat, period: nat, left: nat) returns (j: nat)
    requires InOrder(seen) && seen != [] && Regular(seen, left, period)
    requires forall i :: 0 <= i < |seen| && left <= seen[i].at ==> seen[i].subscribers == 0
    requires left + grace + period <= seen[|seen| - 1].at
    ensures j < |seen| && left <= seen[j].at <= left + grace + 2 * period
    ensures Fate(seen[..j + 1], grace).Removed?
  {
    var i := FirstAtOrAfter(seen, left, period, 0, left);
    j := FirstAtOrAfter(seen, left, period, i, seen[i].at + grace);
    var upTo := seen[..j + 1];
    assert Expired(upTo, grace, i, j);
    PrunedIffExpired(upTo, grace);
  }
}
