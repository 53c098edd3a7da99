/**
 * That the lifecycle gets where it is going: the task is never stuck and returns soon after a cancel, and a call left
 * to itself ends with the result its caller is promised.
 */
module CameraProgress {
  import opened Prelude
  import opened CameraLifecycle
  import opened CameraRuns

  // ----- The task returns after a cancel -----

  /** A drain has at most one source of each kind to stop. */
  lemma {:induction false} RegistryIsShort(registry: map<StreamKind, SourceId>)
    ensures |set k | k in registry :: registry[k]| <= 3
  {
    var ids := set k | k in registry :: registry[k];
    var main := if Main in registry then {registry[Main]} else {};
    var sub := if Sub in registry then {registry[Sub]} else {};
    var extern := if Extern in registry then {registry[Extern]} else {};
    forall id | id in ids ensures id in main + sub + extern {
      var k :| k in registry && registry[k] == id;
      assert k == Main || k == Sub || k == Extern;
    }
    assert main + sub + extern == ids + (main + sub + extern - ids);
  }

  lemma {:induction false} CallerLeavesDrain(s: Sys, c: nat, act: CallerAct)
    requires c < |s.callers| && CallerStep(s, c, act).Some?
    ensures CallerStep(s, c, act).value.pending == s.pending
  {
  }

  lemma {:induction false} StaysShort(s: Sys, step: Step)
    requires |s.pending| <= 3 && Next(s, step).Some?
    ensures |Next(s, step).value.pending| <= 3
  {
    hide CallerStep, RunStep, Target, News, StateAfter;
    match step
    case Call(c, act) => CallerLeavesDrain(s, c, act);
    case Task(act) =>
      RunFrame(s, act);
      RegistryIsShort(s.registry);
      if act.StopOne? { assert s.pending == (s.pending - {act.source}) + {act.source}; }
    case _ =>
  }

  lemma {:induction false} DrainIsShort(steps: seq<Step>)
    requires Exec(INIT, steps).Some?
    ensures |Exec(INIT, steps).value.pending| <= 3
  {
    hide Next;
    if steps != [] {
      DrainIsShort(steps[..|steps| - 1]);
      StaysShort(Exec(INIT, steps[..|steps| - 1]).value, steps[|steps| - 1]);
    }
  }

  /** How many steps the task can still take once it has been cancelled, with `n` sources left to stop. */
  function StepsLeftAt(pc: RunPc, n: nat): nat {
    match pc
    case Parked => 23
    case Announcing => 22
    case Attempting => 21
    case GoingLive => 20
    case FillingSlot => 19
    case InSession => 18
    case EndingTasks => 17
    case Stopping(false) => 16
    case Draining(false) => 12 + n
    case LoggingOut => 11
    case ClearingSlot => 10
    case GoingDown => 9
    case Failing => 9
    case BackingOff => 8
    case Deciding => 7
    case AuthFailing => 7
    case Leaving => 6
    case Stopping(true) => 5
    case Draining(true) => 1 + n
    case Returned => 0
  }

  function StepsLeft(s: Sys): nat {
    StepsLeftAt(s.run, |s.pending|)
  }

  lemma {:induction false} TargetIsNearer(s: Sys, act: RunAct, n: nat, n': nat)
    requires s.cancelled && Ready(s.run, act) && (act.DrainRegistry? ==> n' <= 3) && (act.StopOne? ==> n' < n)
    ensures StepsLeftAt(Target(s, act), n') < StepsLeftAt(s.run, n)
  {
  }

  lemma {:induction false} TaskAdvances(s: Sys, act: RunAct)
    requires s.cancelled && RunStep(s, act).Some?
    ensures StepsLeft(RunStep(s, act).value) < StepsLeft(s)
  {
    hide News, StateAfter, Target, StepsLeftAt;
    var t := RunStep(s, act).value;
    if act.DrainRegistry? { RegistryIsShort(s.registry); }
    if act.StopOne? { assert s.pending == t.pending + {act.source}; }
    TargetIsNearer(s, act, |s.pending|, |t.pending|);
  }

  lemma {:induction false} OthersLeaveTask(s: Sys, step: Step)
    requires !step.Task? && Next(s, step).Some?
    ensures Next(s, step).value.run == s.run && Next(s, step).value.pending == s.pending
    ensures s.cancelled ==> Next(s, step).value.cancelled
  {
    hide CallerStep;
    if step.Call? {
      CallerLeavesTask(s, step.caller, step.callerAct);
      CallerLeavesDrain(s, step.caller, step.callerAct);
    }
  }

  /** Steps of the task among the steps from `i` on. */
  function TaskSteps(steps: seq<Step>, i: nat): nat
    requires i <= |steps|
    decreases |steps| - i
  {
    if i == |steps| then 0 else TaskSteps(steps, i + 1) + if steps[i].Task? then 1 else 0
  }

  lemma {:induction false} Bounded(steps: seq<Step>, i: nat)
    requires Exec(INIT, steps).Some? && i <= |steps| && Before(steps, i).cancelled
    ensures TaskSteps(steps, i) + StepsLeft(Exec(INIT, steps).value) <= StepsLeft(Before(steps, i))
    decreases |steps| - i
  {
    hide Next, Exec, StepsLeft;
    if i < |steps| {
      StepAt(steps, i);
      var s, t := Before(steps, i), Before(steps, i + 1);
      if steps[i].Task? {
        TaskIsStep(s, steps[i]);
        TaskAdvances(s, steps[i].runAct);
      } else {
        OthersLeaveTask(s, steps[i]);
        SameRun(s, t);
      }
      Bounded(steps, i + 1);
    } else {
      assert steps[..i] == steps;
    }
  }

  lemma {:induction false} TaskIsStep(s: Sys, step: Step)
    requires step.Task?
    ensures Next(s, step) == RunStep(s, step.runAct)
    ensures Next(s, step).Some? ==> Next(s, step).value.cancelled == s.cancelled
  {
    hide Target, News, StateAfter;
  }

  lemma {:induction false} SameRun(s: Sys, t: Sys)
    requires t.run == s.run && t.pending == s.pending
    ensures StepsLeft(t) == StepsLeft(s)
  {
  }

  /**
   * Shutdown is prompt: whatever the callers and the sweep do, after a cancel the task takes at most 23 more steps,
   * and a schedule that gives it that many has it return.
   */
  lemma {:induction false} CancelEndsTask(steps: seq<Step>, i: nat)
    requires Exec(INIT, steps).Some? && i < |steps| && steps[i] == Cancel
    ensures TaskSteps(steps, i + 1) <= 23
    ensures TaskSteps(steps, i + 1) == 23 ==> Exec(INIT, steps).value.run == Returned
  {
    hide Exec;
    StepAt(steps, i);
    Bounded(steps, i + 1);
    PrefixRuns(steps, i + 1);
    DrainIsShort(steps[..i + 1]);
    ReturnedIsLast(Before(steps, i + 1));
    ReturnedIsLast(Exec(INIT, steps).value);
  }

  lemma {:induction false} ReturnedIsLast(s: Sys)
    ensures |s.pending| <= 3 ==> StepsLeft(s) <= 23
    ensures StepsLeft(s) == 0 <==> s.run == Returned
  {
  }

  /** Until it has returned the task always has a next step. */
  lemma {:induction false} TaskNeverStuck(s: Sys) returns (act: RunAct)
    requires s.run != Returned
    ensures RunStep(s, act).Some?
  {
    match s.run
    case Deciding => act := Decide(false);
    case Parked => act := Wake(false);
    case Announcing => act := Announce;
    case Attempting => act := Attempt(OtherFailure);
    case Failing => act := NoteFailure;
    case AuthFailing => act := NoteAuthFailure;
    case GoingLive => act := GoLive;
    case FillingSlot => act := FillSlot;
    case InSession => act := EndKeepalive;
    case EndingTasks => act := EndTasks;
    case Stopping(_) => act := DrainRegistry;
    case Draining(_) =>
      if id :| id in s.pending { act := StopOne(id); } else { act := DrainOver; }
    case LoggingOut => act := TryLogout;
    case ClearingSlot => act := ClearSlot;
    case GoingDown => act := GoDown;
    case BackingOff => act := BackoffOver(false);
    case Leaving => act := MarkStopped;
  }

  /** A cancelled task left to run does return, and soon. */
  lemma {:induction false} CancelledTaskReturns(s: Sys) returns (acts: seq<RunAct>)
    requires s.cancelled
    ensures Drive(s, acts).Some? && Drive(s, acts).value.run == Returned
    ensures |acts| <= StepsLeft(s)
    decreases StepsLeft(s)
  {
    hide RunStep, StepsLeft;
    acts := [];
    if s.run != Returned {
      var act := TaskNeverStuck(s);
      TaskAdvances(s, act);
      TaskIsStep(s, Task(act));
      var t := RunStep(s, act).value;
      var more := CancelledTaskReturns(t);
      acts := [act] + more;
      assert acts[1..] == more;
    }
  }

  // ----- A call gets its answer -----

  /** A schedule of one call alone, from its front. */
  function CallAlone(s: Sys, c: nat, acts: seq<CallerAct>): Option<Sys>
    decreases |acts|
  {
    if acts == [] then Some(s)
    else if c >= |s.callers| then None
    else match CallerStep(s, c, acts[0])
      case None => None
      case Some(t) => CallAlone(t, c, acts[1..])
  }

  lemma {:induction false} CallOne(s: Sys, c: nat, act: CallerAct, t: Sys, more: seq<CallerAct>)
    requires c < |s.callers| && CallerStep(s, c, act) == Some(t)
    ensures CallAlone(s, c, [act] + more) == CallAlone(t, c, more)
  {
    hide CallerStep;
    assert ([act] + more)[1..] == more;
  }

  lemma {:induction false} NothingMore(s: Sys, c: nat)
    ensures CallAlone(s, c, []) == Some(s)
  {
  }

  /** The call is over, answered with `r`, and everything else is as it was. */
  function Ended(s: Sys, c: nat, r: Option<SourceId>): Sys
    requires c < |s.callers|
  {
    s.(callers := s.callers[c := Caller(s.callers[c].kind, Finished(r))], lock := None)
  }

  /** The call is over, answered with a source of session `n` that it started and registered. */
  function EndedFresh(s: Sys, c: nat, n: nat): Sys
    requires c < |s.callers|
  {
    var kind, id := s.callers[c].kind, |s.started|;
    Ended(s, c, Some(id)).(registry := s.registry[kind := id], started := s.started + [kind],
                           startedIn := s.startedIn + [n])
  }

  lemma {:induction false} Starts(s: Sys, c: nat) returns (acts: seq<CallerAct>)
    requires c < |s.callers| && s.callers[c].pc.Starting?
    ensures CallAlone(s, c, acts) == Some(EndedFresh(s, c, s.callers[c].pc.camera))
  {
    hide CallAlone;
    var s1 := CallerStep(s, c, StartSource).value;
    var s2 := CallerStep(s1, c, InsertSource).value;
    var t := CallerStep(s2, c, ReleaseLock).value;
    acts := [StartSource] + ([InsertSource] + ([ReleaseLock] + []));
    CallOne(s, c, StartSource, s1, [InsertSource] + ([ReleaseLock] + []));
    CallOne(s1, c, InsertSource, s2, [ReleaseLock] + []);
    CallOne(s2, c, ReleaseLock, t, []);
    NothingMore(t, c);
    assert t.callers == EndedFresh(s, c, s.callers[c].pc.camera).callers;
  }

  lemma {:induction false} Releases(s: Sys, c: nat) returns (acts: seq<CallerAct>)
    requires c < |s.callers| && s.callers[c].pc.Releasing?
    ensures CallAlone(s, c, acts) == Some(Ended(s, c, s.callers[c].pc.result))
  {
    hide CallAlone;
    acts := [ReleaseLock] + [];
    CallOne(s, c, ReleaseLock, Ended(s, c, s.callers[c].pc.result), []);
    NothingMore(Ended(s, c, s.callers[c].pc.result), c);
  }

  lemma {:induction false} EndedAfterMove(s: Sys, c: nat, pc: CallerPc)
    requires c < |s.callers|
    ensures forall r :: Ended(At(s, c, pc), c, r) == Ended(s, c, r)
    ensures forall n :: EndedFresh(At(s, c, pc), c, n) == EndedFresh(s, c, n)
  {
    forall r ensures Ended(At(s, c, pc), c, r) == Ended(s, c, r) {
      assert Ended(At(s, c, pc), c, r).callers == Ended(s, c, r).callers;
    }
    forall n ensures EndedFresh(At(s, c, pc), c, n) == EndedFresh(s, c, n) {
      assert EndedFresh(At(s, c, pc), c, n).callers == EndedFresh(s, c, n).callers;
    }
  }

  /** Prefixes a step that only moves the caller. */
  lemma {:induction false} Then(s: Sys, c: nat, act: CallerAct, pc: CallerPc, more: seq<CallerAct>)
    requires c < |s.callers| && CallerStep(s, c, act) == Some(At(s, c, pc))
    ensures CallAlone(s, c, [act] + more) == CallAlone(At(s, c, pc), c, more)
    ensures forall r :: Ended(At(s, c, pc), c, r) == Ended(s, c, r)
    ensures forall n :: EndedFresh(At(s, c, pc), c, n) == EndedFresh(s, c, n)
  {
    hide CallAlone, CallerStep, At, Ended, EndedFresh;
    CallOne(s, c, act, At(s, c, pc), more);
    EndedAfterMove(s, c, pc);
  }

  /** Inside the lock with the kind unregistered: the three checks, then a new source or none. */
  lemma {:induction false} ChecksAlone(s: Sys, c: nat) returns (acts: seq<CallerAct>)
    requires c < |s.callers| && s.callers[c].pc == CheckingCancel
    ensures CallAlone(s, c, acts)
            == Some(if !s.cancelled && s.state == Connected && s.slotFilled then EndedFresh(s, c, s.session)
                    else Ended(s, c, None))
  {
    hide CallAlone, Ended, EndedFresh;
    if s.cancelled {
      var more := Releases(At(s, c, Releasing(None)), c);
      Then(s, c, CheckCancel, Releasing(None), more);
      acts := [CheckCancel] + more;
    } else {
      var more := StateAlone(At(s, c, CheckingState), c);
      Then(s, c, CheckCancel, CheckingState, more);
      acts := [CheckCancel] + more;
    }
  }

  lemma {:induction false} StateAlone(s: Sys, c: nat) returns (acts: seq<CallerAct>)
    requires c < |s.callers| && s.callers[c].pc == CheckingState
    ensures CallAlone(s, c, acts)
            == Some(if s.state == Connected && s.slotFilled then EndedFresh(s, c, s.session) else Ended(s, c, None))
  {
    hide CallAlone, Ended, EndedFresh;
    if s.state != Connected {
      var more := Releases(At(s, c, Releasing(None)), c);
      Then(s, c, CheckState, Releasing(None), more);
      acts := [CheckState] + more;
    } else {
      var more := SlotAlone(At(s, c, ReadingSlot), c);
      Then(s, c, CheckState, ReadingSlot, more);
      acts := [CheckState] + more;
    }
  }

  lemma {:induction false} SlotAlone(s: Sys, c: nat) returns (acts: seq<CallerAct>)
    requires c < |s.callers| && s.callers[c].pc == ReadingSlot
    ensures CallAlone(s, c, acts)
            == Some(if s.slotFilled then EndedFresh(s, c, s.session) else Ended(s, c, None))
  {
    hide CallAlone, Ended, EndedFresh;
    if s.slotFilled {
      var more := Starts(At(s, c, Starting(s.session)), c);
      Then(s, c, ReadSlot, Starting(s.session), more);
      acts := [ReadSlot] + more;
    } else {
      var more := Releases(At(s, c, Releasing(None)), c);
      Then(s, c, ReadSlot, Releasing(None), more);
      acts := [ReadSlot] + more;
    }
  }

  /** From the re-check on: a source registered meanwhile is reused. */
  lemma {:induction false} RecheckAlone(s: Sys, c: nat) returns (acts: seq<CallerAct>)
    requires c < |s.callers| && s.callers[c].pc == Rechecking
    ensures CallAlone(s, c, acts) == Some(Served(s, c))
  {
    hide CallAlone, Ended, EndedFresh;
    var kind := s.callers[c].kind;
    if kind in s.registry {
      var more := Releases(At(s, c, Releasing(Some(s.registry[kind]))), c);
      Then(s, c, Recheck, Releasing(Some(s.registry[kind])), more);
      acts := [Recheck] + more;
    } else {
      var more := ChecksAlone(At(s, c, CheckingCancel), c);
      Then(s, c, Recheck, CheckingCancel, more);
      acts := [Recheck] + more;
    }
  }

  /** What a call that meets no interference comes to: the registered source, a new one, or unavailable. */
  function Served(s: Sys, c: nat): Sys
    requires c < |s.callers|
  {
    var kind := s.callers[c].kind;
    if kind in s.registry then Ended(s, c, Some(s.registry[kind]))
    else if !s.cancelled && s.state == Connected && s.slotFilled then EndedFresh(s, c, s.session)
    else Ended(s, c, None)
  }

  lemma {:induction false} LockAlone(s: Sys, c: nat) returns (acts: seq<CallerAct>)
    requires c < |s.callers| && s.callers[c].pc == AwaitingLock && s.lock.None?
    ensures CallAlone(s, c, acts) == Some(Served(s, c))
  {
    var t := At(s, c, Rechecking).(lock := Some(c));
    var more := RecheckAlone(t, c);
    acts := [TakeLock] + more;
    CallOne(s, c, TakeLock, t, more);
    hide CallAlone, CallerStep;
    EndedAfterMove(s, c, Rechecking);
    assert Served(t, c) == Served(At(s, c, Rechecking), c);
  }

  lemma {:induction false} LookAlone(s: Sys, c: nat) returns (acts: seq<CallerAct>)
    requires c < |s.callers| && s.callers[c].pc == LookingUp && s.lock.None?
    ensures CallAlone(s, c, acts) == Some(Served(s, c))
  {
    hide CallAlone;
    var kind := s.callers[c].kind;
    if kind in s.registry {
      Then(s, c, LookUp, Finished(Some(s.registry[kind])), []);
      NothingMore(At(s, c, Finished(Some(s.registry[kind]))), c);
      acts := [LookUp] + [];
    } else {
      var more := LockAlone(At(s, c, AwaitingLock), c);
      Then(s, c, LookUp, AwaitingLock, more);
      acts := [LookUp] + more;
    }
  }

  /**
   * A call left to itself always ends, lock released: unavailable when the task is cancelled or the camera is not
   * Connected, else with the registered source of its kind, else with a new one of the current session, which is then
   * registered. Nothing else changes.
   */
  lemma {:induction false} UndisturbedCall(s: Sys, c: nat) returns (acts: seq<CallerAct>)
    requires c < |s.callers| && s.callers[c].pc == Polling && s.lock.None?
    ensures CallAlone(s, c, acts)
            == Some(if s.cancelled || s.state != Connected then Ended(s, c, None) else Served(s, c))
  {
    hide CallAlone;
    if s.cancelled {
      Then(s, c, PollCancel, Finished(None), []);
      NothingMore(At(s, c, Finished(None)), c);
      acts := [PollCancel] + [];
    } else {
      var more := PollAlone(At(s, c, PollingState), c);
      Then(s, c, PollCancel, PollingState, more);
      acts := [PollCancel] + more;
    }
  }

  lemma {:induction false} PollAlone(s: Sys, c: nat) returns (acts: seq<CallerAct>)
    requires c < |s.callers| && s.callers[c].pc == PollingState && s.lock.None?
    ensures CallAlone(s, c, acts) == Some(if s.state != Connected then Ended(s, c, None) else Served(s, c))
  {
    hide CallAlone;
    if s.state != Connected {
      Then(s, c, PollGiveUp, Finished(None), []);
      NothingMore(At(s, c, Finished(None)), c);
      acts := [PollGiveUp] + [];
    } else {
      var more := LookAlone(At(s, c, LookingUp), c);
      Then(s, c, PollPass, LookingUp, more);
      acts := [PollPass] + more;
    }
  }
}
