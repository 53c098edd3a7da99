/**
 * The window-deduplicated overflow warning: calls from any number of threads, interleaved at their atomic
 * operations on the two shared words.
 */
module OverflowLog {
  import opened Prelude

  const WINDOW_NS: nat := 60_000_000_000

  /** Where one call stands; `now` is the monotonic clock it read first, already cut to 64 bits. */
  datatype Pc =
    | Begun(now: nat)
    | Loaded(now: nat, prev: nat)
    | Won
    | Warning(suppressed: nat)
    | Lost
    | Done

  datatype Sys = Sys(
    lastLogged: nat,
    suppressed: nat,
    calls: seq<Pc>,
    lines: nat,
    reported: nat,
    stamps: seq<nat>,
    clock: nat)

  const INIT := Sys(0, 0, [], 0, 0, [], 0)

  datatype Step =
    | Call(now: nat)
    | Load(call: nat)
    | CompareExchange(call: nat)
    | SwapOut(call: nat)
    | Warn(call: nat)
    | FetchAdd(call: nat)

  predicate ShouldLog(now: nat, prev: nat) {
    prev == 0 || SaturatingSub(now, prev) >= WINDOW_NS
  }

  function Next(s: Sys, step: Step): Option<Sys> {
    if step.Call? then
      if s.clock <= step.now then Some(s.(calls := s.calls + [Begun(step.now)], clock := step.now)) else None
    else if step.call >= |s.calls| then None
    else
      var i := step.call;
      match (step, s.calls[i])
      case (Load(_), Begun(now)) => Some(s.(calls := s.calls[i := Loaded(now, s.lastLogged)]))
      case (CompareExchange(_), Loaded(now, prev)) =>
        if ShouldLog(now, prev) && s.lastLogged == prev
        then Some(s.(calls := s.calls[i := Won], lastLogged := now, stamps := s.stamps + [now]))
        else Some(s.(calls := s.calls[i := Lost]))
      case (SwapOut(_), Won) => Some(s.(calls := s.calls[i := Warning(s.suppressed)], suppressed := 0))
      case (Warn(_), Warning(n)) =>
        Some(s.(calls := s.calls[i := Done], lines := s.lines + 1, reported := s.reported + n))
      case (FetchAdd(_), Lost) => Some(s.(calls := s.calls[i := Done], suppressed := s.suppressed + 1))
      case _ => None
  }

  function Exec(s: Sys, steps: seq<Step>): Option<Sys> {
    if steps == [] then Some(s)
    else match Exec(s, steps[..|steps| - 1])
      case None => None
      case Some(t) => Next(t, steps[|steps| - 1])
  }

  // ----- Conservation -----

  function Weigh(calls: seq<Pc>, weight: Pc -> nat): (ws: seq<nat>)
    ensures |ws| == |calls|
  {
    seq(|calls|, i requires 0 <= i < |calls| => weight(calls[i]))
  }

  function IsDone(pc: Pc): nat { if pc.Done? then 1 else 0 }
  function Carried(pc: Pc): nat { if pc.Warning? then pc.suppressed else 0 }
  function OwesLine(pc: Pc): nat { if pc.Won? || pc.Warning? then 1 else 0 }

  function Total(calls: seq<Pc>, weight: Pc -> nat): nat { Sum(Weigh(calls, weight)) }

  lemma {:induction false} TotalUpdate(calls: seq<Pc>, weight: Pc -> nat, i: nat, pc: Pc)
    requires i < |calls|
    ensures Total(calls[i := pc], weight) + weight(calls[i]) == Total(calls, weight) + weight(pc)
  {
    SumUpdate(Weigh(calls, weight), i, weight(pc));
    assert Weigh(calls[i := pc], weight) == Weigh(calls, weight)[i := weight(pc)];
  }

  lemma {:induction false} TotalAppend(calls: seq<Pc>, weight: Pc -> nat, pc: Pc)
    ensures Total(calls + [pc], weight) == Total(calls, weight) + weight(pc)
  {
    SumAppend(Weigh(calls, weight), [weight(pc)]);
    assert Weigh(calls + [pc], weight) == Weigh(calls, weight) + [weight(pc)];
  }

  /** Finished calls are accounted for by lines, counts already reported, the shared count, and counts in flight. */
  ghost predicate Balanced(s: Sys) {
    && Total(s.calls, IsDone) == s.lines + s.reported + s.suppressed + Total(s.calls, Carried)
    && s.lines + Total(s.calls, OwesLine) == |s.stamps|
  }

  ghost predicate Spaced(stamps: seq<nat>) {
    forall i :: 0 <= i < |stamps| - 1 && stamps[i] != 0 ==> stamps[i] + WINDOW_NS <= stamps[i + 1]
  }

  ghost predicate Inv(s: Sys) {
    && Balanced(s)
    && s.lastLogged == (if s.stamps == [] then 0 else s.stamps[|s.stamps| - 1])
    && (s.lastLogged == 0 ==> forall i :: 0 <= i < |s.calls| && s.calls[i].Loaded? ==> s.calls[i].prev == 0)
    && Spaced(s.stamps)
  }

  lemma {:induction false} StepBalanced(s: Sys, step: Step)
    requires Balanced(s) && Next(s, step).Some?
    ensures Balanced(Next(s, step).value)
  {
    hide Total;
    var t := Next(s, step).value;
    if step.Call? {
      TotalAppend(s.calls, IsDone, Begun(step.now));
      TotalAppend(s.calls, Carried, Begun(step.now));
      TotalAppend(s.calls, OwesLine, Begun(step.now));
    } else {
      var i := step.call;
      assert t.calls == s.calls[i := t.calls[i]];
      TotalUpdate(s.calls, IsDone, i, t.calls[i]);
      TotalUpdate(s.calls, Carried, i, t.calls[i]);
      TotalUpdate(s.calls, OwesLine, i, t.calls[i]);
    }
  }

  lemma {:induction false} StepSpaced(s: Sys, step: Step)
    requires Inv(s) && Next(s, step).Some?
    ensures Inv(Next(s, step).value)
  {
    hide Balanced;
    StepBalanced(s, step);
  }

  lemma {:induction false} Safety(steps: seq<Step>)
    requires Exec(INIT, steps).Some?
    ensures Inv(Exec(INIT, steps).value)
  {
    if steps == [] {
      assert Weigh([], IsDone) == [] && Weigh([], Carried) == [] && Weigh([], OwesLine) == [];
    } else {
      hide Next, Inv;
      Safety(steps[..|steps| - 1]);
      StepSpaced(Exec(INIT, steps[..|steps| - 1]).value, steps[|steps| - 1]);
    }
  }

  // ----- What holds on every schedule -----

  predicate Quiescent(s: Sys) {
    forall i :: 0 <= i < |s.calls| ==> s.calls[i].Done?
  }

  lemma {:induction false} TotalConstant(calls: seq<Pc>, weight: Pc -> nat, w: nat)
    requires forall i :: 0 <= i < |calls| ==> weight(calls[i]) == w
    ensures Total(calls, weight) == |calls| * w
  {
    if calls == [] {
      assert Weigh(calls, weight) == [];
    } else {
      var n := |calls| - 1;
      TotalConstant(calls[..n], weight, w);
      TotalAppend(calls[..n], weight, calls[n]);
      assert calls == calls[..n] + [calls[n]];
    }
  }

  /** No overflow goes missing: once quiet, every call is one line, one reported count, or one still suppressed. */
  lemma {:induction false} NothingUncounted(steps: seq<Step>)
    requires Exec(INIT, steps).Some? && Quiescent(Exec(INIT, steps).value)
    ensures var s := Exec(INIT, steps).value;
      && |s.calls| == s.lines + s.reported + s.suppressed
      && s.lines == |s.stamps|
  {
    hide Exec, Total;
    Safety(steps);
    var s := Exec(INIT, steps).value;
    TotalConstant(s.calls, IsDone, 1);
    TotalConstant(s.calls, Carried, 0);
    TotalConstant(s.calls, OwesLine, 0);
  }

  // ----- What a line reports -----

  predicate IsAdd(step: Step) { step.FetchAdd? }
  predicate IsWarn(step: Step) { step.Warn? }

  function Tally(steps: seq<Step>, p: Step -> bool): nat {
    if steps == [] then 0
    else Tally(steps[..|steps| - 1], p) + if p(steps[|steps| - 1]) then 1 else 0
  }

  lemma {:induction false} TallyAppend(a: seq<Step>, b: seq<Step>, p: Step -> bool)
    ensures Tally(a + b, p) == Tally(a, p) + Tally(b, p)
  {
    if b == [] {
      assert a + b == a;
    } else {
      assert (a + b)[..|a + b| - 1] == a + b[..|b| - 1];
      TallyAppend(a, b[..|b| - 1], p);
    }
  }

  /** `k` is where counting began again: the start, or just past the latest swap. */
  predicate SinceSwap(steps: seq<Step>, k: nat) {
    && k <= |steps| && (k > 0 ==> steps[k - 1].SwapOut?)
    && forall j :: k <= j < |steps| ==> !steps[j].SwapOut?
  }

  lemma {:induction false} StepCounts(s: Sys, step: Step)
    requires Next(s, step).Some?
    ensures var t := Next(s, step).value;
      && t.suppressed == (if step.SwapOut? then 0 else s.suppressed + if IsAdd(step) then 1 else 0)
      && t.lines == s.lines + (if IsWarn(step) then 1 else 0)
      && t.reported + t.suppressed + Total(t.calls, Carried)
         == s.reported + s.suppressed + Total(s.calls, Carried) + if IsAdd(step) then 1 else 0
  {
    hide Total;
    var t := Next(s, step).value;
    if step.Call? {
      TotalAppend(s.calls, Carried, Begun(step.now));
    } else {
      assert t.calls == s.calls[step.call := t.calls[step.call]];
      TotalUpdate(s.calls, Carried, step.call, t.calls[step.call]);
    }
  }

  lemma {:induction false} AllCounted(steps: seq<Step>)
    requires Exec(INIT, steps).Some?
    ensures var s := Exec(INIT, steps).value;
      && s.lines == Tally(steps, IsWarn)
      && s.reported + s.suppressed + Total(s.calls, Carried) == Tally(steps, IsAdd)
  {
    hide Next, Total;
    if steps == [] {
      TotalConstant([], Carried, 0);
    } else {
      AllCounted(steps[..|steps| - 1]);
      StepCounts(Exec(INIT, steps[..|steps| - 1]).value, steps[|steps| - 1]);
    }
  }

  lemma {:induction false} SharedCount(steps: seq<Step>, k: nat)
    requires Exec(INIT, steps).Some? && SinceSwap(steps, k)
    ensures Exec(INIT, steps).value.suppressed == Tally(steps[k..], IsAdd)
  {
    hide Next, Total;
    if steps != [] {
      var n := |steps| - 1;
      StepCounts(Exec(INIT, steps[..n]).value, steps[n]);
      if k <= n {
        SharedCount(steps[..n], k);
        TallyAppend(steps[k..n], [steps[n]], IsAdd);
        assert steps[k..] == steps[k..n] + [steps[n]] && steps[..n][k..] == steps[k..n];
        assert [steps[n]][..0] == [];
      }
    }
  }

  /**
   * On every schedule the shared count is the suppressed calls since the latest swap, and all those before it have
   * been reported or are carried by a line about to be written.
   */
  lemma {:induction false} SuppressedSinceSwap(steps: seq<Step>, k: nat)
    requires Exec(INIT, steps).Some? && SinceSwap(steps, k)
    ensures var s := Exec(INIT, steps).value;
      && s.suppressed == Tally(steps[k..], IsAdd)
      && s.reported + Total(s.calls, Carried) == Tally(steps[..k], IsAdd)
      && s.lines == Tally(steps, IsWarn)
  {
    hide Exec, Total, Tally;
    AllCounted(steps);
    SharedCount(steps, k);
    TallyAppend(steps[..k], steps[k..], IsAdd);
    assert steps == steps[..k] + steps[k..];
  }

  /** A line in flight keeps its count until its own call writes it. */
  lemma {:induction false} StepKeepsLine(s: Sys, step: Step, c: nat)
    requires Next(s, step).Some? && c < |s.calls| && s.calls[c].Warning?
    ensures step != Warn(c) ==> c < |Next(s, step).value.calls| && Next(s, step).value.calls[c] == s.calls[c]
    ensures step == Warn(c) ==> Next(s, step).value.reported == s.reported + s.calls[c].suppressed
    ensures step != SwapOut(c)
  {
  }

  lemma {:induction false} LineKept(steps: seq<Step>, k: nat, i: nat, c: nat)
    requires i < |steps| && SinceSwap(steps[..i], k) && steps[i] == SwapOut(c) && Exec(INIT, steps).Some?
    requires forall j :: i < j < |steps| ==> steps[j] != Warn(c)
    ensures var s := Exec(INIT, steps).value;
      c < |s.calls| && s.calls[c] == Warning(Tally(steps[k..i], IsAdd))
    decreases |steps|
  {
    var n := |steps| - 1;
    var front := steps[..n];
    if i == n {
      SharedCount(front, k);
    } else {
      hide Next, Tally, SinceSwap;
      assert front[..i] == steps[..i] && front[k..i] == steps[k..i];
      LineKept(front, k, i, c);
      StepKeepsLine(Exec(INIT, front).value, steps[n], c);
    }
  }

  /**
   * The number a line reports: exactly the calls suppressed since the line before it was drawn up, whatever other
   * calls do between the swap and the warning.
   */
  lemma {:induction false} LineReports(steps: seq<Step>, k: nat, i: nat, c: nat)
    requires i < |steps| && SinceSwap(steps[..i], k) && steps[i] == SwapOut(c)
    requires forall j :: i < j < |steps| ==> steps[j] != Warn(c)
    requires Exec(INIT, steps + [Warn(c)]).Some?
    ensures Exec(INIT, steps).Some?
    ensures Exec(INIT, steps + [Warn(c)]).value.reported
            == Exec(INIT, steps).value.reported + Tally(steps[k..i], IsAdd)
  {
    hide Next, Tally, SinceSwap;
    assert (steps + [Warn(c)])[..|steps|] == steps;
    LineKept(steps, k, i, c);
    StepKeepsLine(Exec(INIT, steps).value, Warn(c), c);
  }

  /** From a nonzero stamp on, `k` further lines take at least `k` windows. */
  lemma {:induction false} RateLimited(steps: seq<Step>, i: nat, j: nat)
    requires Exec(INIT, steps).Some? && i <= j < |Exec(INIT, steps).value.stamps|
    requires Exec(INIT, steps).value.stamps[i] != 0
    ensures var stamps := Exec(INIT, steps).value.stamps;
      stamps[i] + (j - i) * WINDOW_NS <= stamps[j]
  {
    hide Exec, Balanced;
    Safety(steps);
    var stamps := Exec(INIT, steps).value.stamps;
    if i < j {
      RateLimited(steps, i, j - 1);
      assert stamps[j - 1] + WINDOW_NS <= stamps[j];
    }
  }

  /** A call that meets no interference logs exactly when no line was ever stamped or the window has passed. */
  lemma {:induction false} UndisturbedCallLogsIff(s: Sys, now: nat)
    requires s.clock <= now
    ensures var k := |s.calls|;
      var t := Exec(s, [Call(now), Load(k), CompareExchange(k)]);
      && t.Some?
      && (s.lastLogged == 0 || s.lastLogged + WINDOW_NS <= now <==> t.value.stamps == s.stamps + [now])
      && (s.lastLogged == 0 || s.lastLogged + WINDOW_NS <= now <==> t.value.calls[k].Won?)
      && t.value.calls == s.calls + [if t.value.calls[k].Won? then Won else Lost]
      && t.value.lastLogged == (if t.value.calls[k].Won? then now else s.lastLogged)
      && (t.value.lines, t.value.reported, t.value.suppressed) == (s.lines, s.reported, s.suppressed)
  {
    var k := |s.calls|;
    var steps := [Call(now), Load(k), CompareExchange(k)];
    assert steps[..2] == [Call(now), Load(k)] && steps[..2][..1] == [Call(now)] && steps[..2][..1][..0] == [];
    assert Exec(s, steps[..2][..1][..0]) == Some(s);
    assert Exec(s, steps[..2][..1]) == Next(s, Call(now));
    assert Exec(s, steps[..2]) == Next(Next(s, Call(now)).value, Load(k));
    assert Exec(s, steps) == Next(Exec(s, steps[..2]).value, CompareExchange(k));
    assert |s.stamps + [now]| != |s.stamps|;
  }

  /** Run to its end undisturbed, a call either writes a line with the whole suppressed count, or adds itself to it. */
  lemma {:induction false} UndisturbedCallCounts(s: Sys, now: nat)
    requires s.clock <= now
    ensures var k := |s.calls|;
      var logs := s.lastLogged == 0 || s.lastLogged + WINDOW_NS <= now;
      var rest := if logs then [SwapOut(k), Warn(k)] else [FetchAdd(k)];
      var t := Exec(s, [Call(now), Load(k), CompareExchange(k)] + rest);
      && t.Some? && t.value.calls == s.calls + [Done]
      && (logs ==> && t.value.lines == s.lines + 1 && t.value.reported == s.reported + s.suppressed
                   && t.value.suppressed == 0 && t.value.lastLogged == now)
      && (!logs ==> && t.value.lines == s.lines && t.value.reported == s.reported
                    && t.value.suppressed == s.suppressed + 1 && t.value.lastLogged == s.lastLogged)
  {
    UndisturbedCallLogsIff(s, now);
    var k := |s.calls|;
    var first := [Call(now), Load(k), CompareExchange(k)];
    if s.lastLogged == 0 || s.lastLogged + WINDOW_NS <= now {
      var steps := first + [SwapOut(k), Warn(k)];
      assert steps[..4] == first + [SwapOut(k)] && steps[..4][..3] == first;
    } else {
      var steps := first + [FetchAdd(k)];
      assert steps[..3] == first;
    }
  }

  ghost predicate Reachable(s: Sys) {
    exists steps :: Exec(INIT, steps) == Some(s)
  }

  lemma {:induction false} Hop(s: Sys, step: Step) returns (t: Sys)
    requires Reachable(s) && Next(s, step).Some?
    ensures Reachable(t) && t == Next(s, step).value
  {
    hide Next;
    t := Next(s, step).value;
    var steps :| Exec(INIT, steps) == Some(s);
    assert (steps + [step])[..|steps|] == steps;
    assert Exec(INIT, steps + [step]) == Some(t);
  }

  /** Whatever follows keeps the stamps already stored, and the invariant. */
  lemma {:induction false} StampsOnlyGrow(s: Sys, steps: seq<Step>)
    requires Inv(s) && Exec(s, steps).Some?
    ensures Inv(Exec(s, steps).value) && s.stamps <= Exec(s, steps).value.stamps
  {
    hide Inv, Next;
    if steps != [] {
      var front := Exec(s, steps[..|steps| - 1]).value;
      var last := steps[|steps| - 1];
      StampsOnlyGrow(s, steps[..|steps| - 1]);
      StepSpaced(front, last);
      assert front.stamps <= Next(front, last).value.stamps by { StepGrows(front, last); }
    }
  }

  lemma {:induction false} StepGrows(s: Sys, step: Step)
    requires Next(s, step).Some?
    ensures s.stamps <= Next(s, step).value.stamps
  {
  }

  /** On this schedule the line after the ones already logged, if there is one, comes a window later. */
  ghost predicate NextLineSpaced(s: Sys, steps: seq<Step>)
    requires s.stamps != []
  {
    var t := Exec(s, steps);
    t.Some? && |t.value.stamps| > |s.stamps| ==>
      s.stamps[|s.stamps| - 1] + WINDOW_NS <= t.value.stamps[|s.stamps|]
  }

  /** The call has read a clock and may still log it. */
  predicate InFlight(pc: Pc) { pc.Begun? || pc.Loaded? }

  /** The clock, and every reading that may still be logged, is past the first window. */
  ghost predicate Late(s: Sys) {
    s.clock >= WINDOW_NS && forall i :: 0 <= i < |s.calls| && InFlight(s.calls[i]) ==> s.calls[i].now >= WINDOW_NS
  }

  lemma {:induction false} StepStaysLate(s: Sys, step: Step)
    requires Late(s) && Next(s, step).Some?
    ensures Late(Next(s, step).value)
    ensures var t := Next(s, step).value;
      || t.stamps == s.stamps
      || (|t.stamps| == |s.stamps| + 1 && s.stamps <= t.stamps && t.stamps[|s.stamps|] >= WINDOW_NS)
  {
  }

  /** Late stays late, and whatever is logged from then on is stamped past the first window. */
  lemma {:induction false} StaysLate(s: Sys, steps: seq<Step>)
    requires Late(s) && Exec(s, steps).Some?
    ensures var t := Exec(s, steps).value;
      && Late(t) && s.stamps <= t.stamps
      && forall i :: |s.stamps| <= i < |t.stamps| ==> t.stamps[i] >= WINDOW_NS
  {
    hide Late, Next;
    if steps != [] {
      StaysLate(s, steps[..|steps| - 1]);
      StepStaysLate(Exec(s, steps[..|steps| - 1]).value, steps[|steps| - 1]);
    }
  }

  /** While the latest stamp is zero, a call in flight can log its reading at once. */
  lemma {:induction false} InFlightCanLog(s: Sys, i: nat) returns (steps: seq<Step>)
    requires Inv(s) && s.lastLogged == 0 && i < |s.calls| && InFlight(s.calls[i])
    ensures Exec(s, steps).Some? && Exec(s, steps).value.stamps == s.stamps + [s.calls[i].now]
  {
    hide Balanced;
    assert Exec(s, []) == Some(s);
    if s.calls[i].Loaded? {
      steps := [CompareExchange(i)];
      assert steps[..0] == [];
    } else {
      steps := [Load(i), CompareExchange(i)];
      assert steps[..1] == [Load(i)] && steps[..1][..0] == [];
      assert Exec(s, steps[..1]) == Next(s, Load(i));
    }
  }

  /**
   * At most one line a window, and exactly when: the line after the latest one comes a window later on every
   * continuation if and only if the latest stamp is not zero, or the clock and all readings still in flight are past
   * the first window.
   */
  lemma {:induction false} NextLineSpacedIff(s: Sys)
    requires Reachable(s) && s.stamps != []
    ensures (forall steps :: NextLineSpaced(s, steps)) <==> s.stamps[|s.stamps| - 1] != 0 || Late(s)
  {
    hide Exec, Balanced;
    var start :| Exec(INIT, start) == Some(s);
    Safety(start);
    if s.stamps[|s.stamps| - 1] != 0 || Late(s) {
      forall steps ensures NextLineSpaced(s, steps) {
        if Exec(s, steps).Some? {
          StampsOnlyGrow(s, steps);
          if Late(s) { StaysLate(s, steps); }
        }
      }
    } else if s.clock < WINDOW_NS {
      var steps := [Call(s.clock), Load(|s.calls|), CompareExchange(|s.calls|)];
      UndisturbedCallLogsIff(s, s.clock);
      assert !NextLineSpaced(s, steps);
    } else {
      var i :| 0 <= i < |s.calls| && InFlight(s.calls[i]) && s.calls[i].now < WINDOW_NS;
      var steps := InFlightCanLog(s, i);
      assert !NextLineSpaced(s, steps);
    }
  }

  lemma {:induction false} InitReachable()
    ensures Reachable(INIT)
  {
    assert Exec(INIT, []) == Some(INIT);
  }

  /** The nonzero condition is needed: a first line logged at clock zero does not open a window. */
  lemma {:induction false} ZeroStampOpensNoWindow()
    ensures exists s :: Reachable(s) && s.stamps == [0, 5]
  {
    hide Reachable;
    InitReachable();
    var s := INIT;
    s := Hop(s, Call(0));
    s := Hop(s, Call(5));
    s := Hop(s, Load(0));
    s := Hop(s, CompareExchange(0));
    s := Hop(s, Load(1));
    s := Hop(s, CompareExchange(1));
    assert s.stamps == [0, 5];
  }
}
