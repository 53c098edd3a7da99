/**
 * What every schedule of the lifecycle promises about its own steps: when the camera is dialled again, when `run`
 * gives up, and what a caller has seen before it starts a source.
 */
module CameraRuns {
  import opened Prelude
  import opened CameraLifecycle

  /** The state in which the i-th step of a schedule is taken. */
  function Before(steps: seq<Step>, i: nat): Sys
    requires i <= |steps|
  {
    match Exec(INIT, steps[..i])
    case Some(s) => s
    case None => INIT
  }

  lemma {:induction false} PrefixRuns(steps: seq<Step>, i: nat)
    requires i <= |steps| && Exec(INIT, steps).Some?
    ensures Exec(INIT, steps[..i]).Some?
  {
    hide Next;
    if i < |steps| {
      var front := steps[..|steps| - 1];
      PrefixRuns(front, i);
      assert front[..i] == steps[..i];
    } else {
      assert steps[..i] == steps;
    }
  }

  /** Each step of a schedule takes the state before it to the state before the next. */
  lemma {:induction false} StepAt(steps: seq<Step>, i: nat)
    requires i < |steps| && Exec(INIT, steps).Some?
    ensures Exec(INIT, steps[..i]).Some?
    ensures Next(Before(steps, i), steps[i]) == Some(Before(steps, i + 1))
  {
    hide Next;
    PrefixRuns(steps, i);
    PrefixRuns(steps, i + 1);
    assert steps[..i + 1][..i] == steps[..i];
  }

  // ----- When is the camera dialled again? -----

  /** The task is on its way out for good. */
  predicate WindingDown(pc: RunPc) {
    pc.AuthFailing? || pc.Leaving? || pc == Stopping(true) || pc == Draining(true) || pc.Returned?
  }

  lemma {:induction false} WindingDownStep(s: Sys, step: Step)
    requires WindingDown(s.run) && Next(s, step).Some?
    ensures WindingDown(Next(s, step).value.run)
    ensures step != Task(Announce)
  {
    hide CallerStep;
    if step.Call? { CallerLeavesTask(s, step.caller, step.callerAct); }
  }

  lemma {:induction false} CallerLeavesTask(s: Sys, c: nat, act: CallerAct)
    requires c < |s.callers| && CallerStep(s, c, act).Some?
    ensures var t := CallerStep(s, c, act).value;
      t.run == s.run && t.state == s.state && t.cancelled == s.cancelled && t.trace == s.trace
  {
  }

  lemma {:induction false} WindsDownFrom(steps: seq<Step>, i: nat, j: nat)
    requires i <= j < |steps| && Exec(INIT, steps).Some? && WindingDown(Before(steps, i).run)
    ensures WindingDown(Before(steps, j).run) && steps[j] != Task(Announce)
    decreases j - i
  {
    hide Exec, Next, WindingDown;
    StepAt(steps, i);
    WindingDownStep(Before(steps, i), steps[i]);
    if i < j { WindsDownFrom(steps, i + 1, j); }
  }

  /** The i-th step is the task's own discovery that it has been cancelled. */
  predicate SeesCancel(steps: seq<Step>, i: nat)
    requires i < |steps|
  {
    || steps[i] == Task(Wake(true)) || steps[i] == Task(Attempt(CancelWon)) || steps[i] == Task(BackoffOver(true))
    || (steps[i].Task? && steps[i].runAct.Decide? && Before(steps, i).cancelled)
  }

  /** Once the task has noticed a cancel it connects no more. */
  lemma {:induction false} NoConnectAfterCancelSeen(steps: seq<Step>, i: nat, j: nat)
    requires Exec(INIT, steps).Some? && i < j < |steps| && SeesCancel(steps, i)
    ensures steps[j] != Task(Announce)
  {
    hide Exec;
    StepAt(steps, i);
    assert WindingDown(Before(steps, i + 1).run);
    WindsDownFrom(steps, i + 1, j);
  }

  /** Refused credentials are never tried again: no connect attempt follows one, on any schedule. */
  lemma {:induction false} NoRetryAfterRefusal(steps: seq<Step>, i: nat, j: nat)
    requires Exec(INIT, steps).Some? && i < j < |steps| && steps[i] == Task(Attempt(AuthRefused))
    ensures steps[j] != Task(Announce)
  {
    StepAt(steps, i);
    assert WindingDown(Before(steps, i + 1).run);
    WindsDownFrom(steps, i + 1, j);
  }

  /** Cancelled, and past the point where a connect attempt can still begin. */
  predicate Spent(s: Sys) {
    s.cancelled && !s.run.Parked? && !s.run.Announcing?
  }

  lemma {:induction false} SpentStep(s: Sys, step: Step)
    requires s.cancelled && Next(s, step).Some?
    ensures Next(s, step).value.cancelled
    ensures Spent(s) ==> Spent(Next(s, step).value) && step != Task(Announce)
    ensures step == Task(Announce) ==> Spent(Next(s, step).value)
  {
    hide CallerStep;
    if step.Call? { CallerLeavesTask(s, step.caller, step.callerAct); }
  }

  lemma {:induction false} StaysSpent(steps: seq<Step>, i: nat, j: nat)
    requires i <= j < |steps| && Exec(INIT, steps).Some? && Spent(Before(steps, i))
    ensures Spent(Before(steps, j)) && steps[j] != Task(Announce)
    decreases j - i
  {
    hide Exec, Next;
    StepAt(steps, i);
    SpentStep(Before(steps, i), steps[i]);
    if i < j { StaysSpent(steps, i + 1, j); }
  }

  lemma {:induction false} StaysCancelled(steps: seq<Step>, i: nat, j: nat)
    requires i <= j <= |steps| && Exec(INIT, steps).Some? && Before(steps, i).cancelled
    ensures Before(steps, j).cancelled
    decreases j - i
  {
    hide Exec, Next;
    if i < j {
      StepAt(steps, i);
      SpentStep(Before(steps, i), steps[i]);
      StaysCancelled(steps, i + 1, j);
    }
  }

  /** After a cancel at most one more connect attempt begins, the one already on its way. */
  lemma {:induction false} OneConnectAfterCancel(steps: seq<Step>, i: nat, j: nat, k: nat)
    requires Exec(INIT, steps).Some? && i < j < k < |steps|
    requires steps[i] == Cancel && steps[j] == Task(Announce)
    ensures steps[k] != Task(Announce)
  {
    hide Exec;
    StepAt(steps, i);
    StaysCancelled(steps, i + 1, j);
    StepAt(steps, j);
    SpentStep(Before(steps, j), steps[j]);
    StaysSpent(steps, j + 1, k);
  }

  /** The task has connected and not slept since. */
  predicate Unrested(pc: RunPc) {
    !pc.Deciding? && !pc.Parked? && !pc.Announcing?
  }

  lemma {:induction false} UnrestedStep(s: Sys, step: Step)
    requires Unrested(s.run) && Next(s, step).Some? && step != Task(BackoffOver(false))
    ensures Unrested(Next(s, step).value.run) && step != Task(Announce)
  {
    hide CallerStep;
    if step.Call? { CallerLeavesTask(s, step.caller, step.callerAct); }
  }

  lemma {:induction false} RestsBefore(steps: seq<Step>, i: nat, j: nat)
    requires i <= j < |steps| && Exec(INIT, steps).Some? && Unrested(Before(steps, i).run)
    requires steps[j] == Task(Announce)
    ensures exists k :: i <= k < j && steps[k] == Task(BackoffOver(false))
    decreases j - i
  {
    hide Exec, Next, Unrested;
    StepAt(steps, i);
    if steps[i] != Task(BackoffOver(false)) {
      UnrestedStep(Before(steps, i), steps[i]);
      RestsBefore(steps, i + 1, j);
    }
  }

  /** The camera is never hammered: between any two connect attempts the task sleeps its back-off to the end. */
  lemma {:induction false} BackoffBetweenConnects(steps: seq<Step>, i: nat, j: nat)
    requires Exec(INIT, steps).Some? && i < j < |steps|
    requires steps[i] == Task(Announce) && steps[j] == Task(Announce)
    ensures exists k :: i < k < j && steps[k] == Task(BackoffOver(false))
  {
    hide Exec;
    StepAt(steps, i);
    assert Unrested(Before(steps, i + 1).run);
    RestsBefore(steps, i + 1, j);
  }

  /** A battery camera that parks stays undisturbed: it is dialled again only after something has woken the task. */
  lemma {:induction false} ParkedUntilWoken(steps: seq<Step>, i: nat, j: nat)
    requires Exec(INIT, steps).Some? && i < j < |steps|
    requires steps[i] == Task(Decide(true)) && steps[j] == Task(Announce)
    ensures exists k :: i < k < j && steps[k] == Task(Wake(false))
  {
    StepAt(steps, i);
    if Before(steps, i).cancelled {
      NoConnectAfterCancelSeen(steps, i, j);
      assert false;
    } else {
      StaysParked(steps, i + 1, j);
    }
  }

  lemma {:induction false} StaysParked(steps: seq<Step>, i: nat, j: nat)
    requires i <= j < |steps| && Exec(INIT, steps).Some? && Before(steps, i).run == Parked
    requires steps[j] == Task(Announce)
    ensures exists k :: i <= k < j && steps[k] == Task(Wake(false))
    decreases j - i
  {
    hide Exec, Next, WindingDown;
    StepAt(steps, i);
    ParkedStep(Before(steps, i), steps[i]);
    if steps[i] == Task(Wake(true)) {
      WindsDownFrom(steps, i + 1, j);
      assert false;
    } else if steps[i] != Task(Wake(false)) {
      StaysParked(steps, i + 1, j);
    }
  }

  lemma {:induction false} ParkedStep(s: Sys, step: Step)
    requires s.run == Parked && Next(s, step).Some?
    ensures step == Task(Wake(true)) ==> WindingDown(Next(s, step).value.run)
    ensures step != Task(Wake(true)) && step != Task(Wake(false)) ==>
              step != Task(Announce) && Next(s, step).value.run == Parked
  {
    hide CallerStep;
    if step.Call? { CallerLeavesTask(s, step.caller, step.callerAct); }
  }

  /** A schedule of the task alone, from its front. */
  function Drive(s: Sys, acts: seq<RunAct>): Option<Sys>
    decreases |acts|
  {
    if acts == [] then Some(s)
    else match RunStep(s, acts[0])
      case None => None
      case Some(t) => Drive(t, acts[1..])
  }

  /** Any other failure is retried: unless cancelled, the task can be dialling again five steps later. */
  lemma {:induction false} OtherFailureIsRetried(s: Sys)
    requires s.run == Attempting && !s.cancelled
    ensures var t := Drive(s, [Attempt(OtherFailure), NoteFailure, BackoffOver(false), Decide(false), Announce]);
      t.Some? && t.value.run == Attempting && t.value.trace == s.trace + [ConnectFailed, ConnectBegun]
  {
    var acts := [Attempt(OtherFailure), NoteFailure, BackoffOver(false), Decide(false), Announce];
    var s1 := RunEffect(s, acts[0]);
    var s2 := RunEffect(s1, acts[1]);
    var s3 := RunEffect(s2, acts[2]);
    var s4 := RunEffect(s3, acts[3]);
    var s5 := RunEffect(s4, acts[4]);
    DriveOne(s, acts);
    DriveOne(s1, acts[1..]);
    DriveOne(s2, acts[2..]);
    DriveOne(s3, acts[3..]);
    DriveOne(s4, acts[4..]);
    assert Drive(s5, acts[5..]) == Some(s5);
    assert s5.trace == s.trace + [ConnectFailed, ConnectBegun];
  }

  lemma {:induction false} DriveOne(s: Sys, acts: seq<RunAct>)
    requires acts != [] && Ready(s.run, acts[0]) && Permitted(s, acts[0])
    ensures Drive(s, acts) == Drive(RunEffect(s, acts[0]), acts[1..])
  {
    hide RunEffect;
  }

  /** A successful attempt opens a session: Connected, then the slot filled. */
  lemma {:induction false} SuccessOpensSession(s: Sys)
    requires s.run == Attempting
    ensures var t := Drive(s, [Attempt(Succeeded), GoLive, FillSlot]);
      && t.Some? && t.value.run == InSession && t.value.state == Connected && t.value.slotFilled
      && t.value.session == s.session + 1
  {
    var acts := [Attempt(Succeeded), GoLive, FillSlot];
    var s1 := RunEffect(s, acts[0]);
    var s2 := RunEffect(s1, acts[1]);
    DriveOne(s, acts);
    DriveOne(s1, acts[1..]);
    DriveOne(s2, acts[2..]);
    assert Drive(RunEffect(s2, acts[2]), acts[3..]) == Some(RunEffect(s2, acts[2]));
  }

  // ----- When does `run` give up? -----

  ghost predicate Accounted(s: Sys, steps: seq<Step>) {
    && (s.cancelled ==> Cancel in steps)
    && (s.run.AuthFailing? ==> Task(Attempt(AuthRefused)) in steps)
    && (WindingDown(s.run) ==> Cancel in steps || Task(Attempt(AuthRefused)) in steps)
  }

  lemma {:induction false} AccountedStep(s: Sys, front: seq<Step>, step: Step)
    requires Accounted(s, front) && Next(s, step).Some?
    ensures Accounted(Next(s, step).value, front + [step])
  {
    hide CallerStep;
    assert forall x :: x in front + [step] <==> x in front || x == step;
    if step.Call? { CallerLeavesTask(s, step.caller, step.callerAct); }
  }

  lemma {:induction false} AlwaysAccounted(steps: seq<Step>)
    requires Exec(INIT, steps).Some?
    ensures Accounted(Exec(INIT, steps).value, steps)
  {
    hide Next, Accounted;
    if steps == [] {
      InitAccounted();
    } else {
      var n := |steps| - 1;
      AlwaysAccounted(steps[..n]);
      AccountedStep(Exec(INIT, steps[..n]).value, steps[..n], steps[n]);
      assert steps == steps[..n] + [steps[n]];
    }
  }

  lemma {:induction false} InitAccounted()
    ensures Accounted(INIT, [])
  {
  }

  /** `run` returns for two reasons only: it was cancelled, or the camera refused its credentials. */
  lemma {:induction false} ReturnsOnlyWhenToldTo(steps: seq<Step>)
    requires Exec(INIT, steps).Some? && Exec(INIT, steps).value.run == Returned
    ensures Cancel in steps || Task(Attempt(AuthRefused)) in steps
  {
    hide Exec;
    AlwaysAccounted(steps);
  }

  /** The published state follows the task: Connecting while it dials, Connected in session, Disconnected else. */
  lemma {:induction false} StateFollowsTask(s: Sys)
    requires Reachable(s)
    ensures s.run.Attempting? ==> s.state == Connecting
    ensures s.run.InSession? || s.run.EndingTasks? || s.run.LoggingOut? || s.run.ClearingSlot? ==> s.state == Connected
    ensures s.run.Parked? || s.run.BackingOff? || s.run.Returned? ==> s.state == Disconnected
  {
    hide LockInv, KindInv, PlaceInv, TraceInv, Fits;
    ReachableSafe(s);
  }

  // ----- What a caller has seen before it starts a source -----

  /** Call `c` has found the camera task not cancelled, at its step `look`. */
  ghost predicate SawUncancelled(steps: seq<Step>, c: nat, look: CallerAct) {
    exists i :: 0 <= i < |steps| && steps[i] == Call(c, look) && !Before(steps, i).cancelled
  }

  /** It has found the task not cancelled and after that, at its step `next`, the camera Connected. */
  ghost predicate SawConnected(steps: seq<Step>, c: nat, look: CallerAct, next: CallerAct) {
    exists i :: 0 <= i < |steps| && steps[i] == Call(c, next) && Before(steps, i).state == Connected
                && SawUncancelled(steps[..i], c, look)
  }

  /** The poll has let the call through. */
  ghost predicate SawLive(steps: seq<Step>, c: nat) {
    SawConnected(steps, c, PollCancel, PollPass)
  }

  /** Under the lock it has found the same again, and after that the slot filled, by session `n`. */
  ghost predicate SawSlot(steps: seq<Step>, c: nat, n: nat) {
    exists i :: 0 <= i < |steps| && steps[i] == Call(c, ReadSlot) && Before(steps, i).slotFilled
                && Before(steps, i).session == n && SawConnected(steps[..i], c, CheckCancel, CheckState)
  }

  ghost predicate VettedCaller(steps: seq<Step>, c: nat, pc: CallerPc) {
    && (pc == Polling || pc == PollingState || pc == Finished(None) || SawLive(steps, c))
    && (pc.PollingState? ==> SawUncancelled(steps, c, PollCancel))
    && (pc.CheckingState? ==> SawUncancelled(steps, c, CheckCancel))
    && (pc.ReadingSlot? ==> SawConnected(steps, c, CheckCancel, CheckState))
    && (pc.Starting? ==> SawSlot(steps, c, pc.camera))
  }

  lemma {:induction false} BeforeFront(front: seq<Step>, step: Step, i: nat)
    requires i <= |front|
    ensures Before(front + [step], i) == Before(front, i)
    ensures (front + [step])[..i] == front[..i]
  {
    assert (front + [step])[..i] == front[..i];
  }

  /** What has been seen stays seen. */
  lemma {:induction false} UncancelledKept(front: seq<Step>, step: Step, c: nat, look: CallerAct)
    ensures SawUncancelled(front, c, look) ==> SawUncancelled(front + [step], c, look)
  {
    hide Before;
    var steps := front + [step];
    if SawUncancelled(front, c, look) {
      var i :| 0 <= i < |front| && front[i] == Call(c, look) && !Before(front, i).cancelled;
      BeforeFront(front, step, i);
      assert steps[i] == Call(c, look);
    }
  }

  lemma {:induction false} ConnectedKept(front: seq<Step>, step: Step, c: nat, look: CallerAct, next: CallerAct)
    ensures SawConnected(front, c, look, next) ==> SawConnected(front + [step], c, look, next)
  {
    hide Before, SawUncancelled;
    var steps := front + [step];
    if SawConnected(front, c, look, next) {
      var i :| 0 <= i < |front| && front[i] == Call(c, next) && Before(front, i).state == Connected
               && SawUncancelled(front[..i], c, look);
      BeforeFront(front, step, i);
      assert steps[i] == Call(c, next);
    }
  }

  lemma {:induction false} SlotKept(front: seq<Step>, step: Step, c: nat, n: nat)
    ensures SawSlot(front, c, n) ==> SawSlot(front + [step], c, n)
  {
    hide Before, SawConnected;
    var steps := front + [step];
    if SawSlot(front, c, n) {
      var i :| 0 <= i < |front| && front[i] == Call(c, ReadSlot) && Before(front, i).slotFilled
               && Before(front, i).session == n && SawConnected(front[..i], c, CheckCancel, CheckState);
      BeforeFront(front, step, i);
      assert steps[i] == Call(c, ReadSlot);
    }
  }

  /** The step a caller takes now is added to what it has seen. */
  lemma {:induction false} SightAdded(front: seq<Step>, s: Sys, c: nat, act: CallerAct)
    requires Exec(INIT, front) == Some(s) && c < |s.callers| && CallerStep(s, c, act).Some?
    requires VettedCaller(front, c, s.callers[c].pc)
    ensures VettedCaller(front + [Call(c, act)], c, CallerStep(s, c, act).value.callers[c].pc)
  {
    hide Exec;
    var steps := front + [Call(c, act)];
    var n := |front|;
    assert steps[n] == Call(c, act) && steps[..n] == front;
    assert Before(steps, n) == s;
    ConnectedKept(front, Call(c, act), c, PollCancel, PollPass);
    NewSight(steps, c);
    hide Before, SawUncancelled, SawConnected, SawSlot;
  }

  lemma {:induction false} NewSight(steps: seq<Step>, c: nat)
    requires steps != []
    ensures var n := |steps| - 1;
      var s, act, front := Before(steps, n), steps[n], steps[..n];
      && (forall look :: act == Call(c, look) && !s.cancelled ==> SawUncancelled(steps, c, look))
      && (act == Call(c, PollPass) && s.state == Connected && SawUncancelled(front, c, PollCancel) ==>
            SawLive(steps, c))
      && (act == Call(c, CheckState) && s.state == Connected && SawUncancelled(front, c, CheckCancel) ==>
            SawConnected(steps, c, CheckCancel, CheckState))
      && (act == Call(c, ReadSlot) && s.slotFilled && SawConnected(front, c, CheckCancel, CheckState) ==>
            SawSlot(steps, c, s.session))
  {
    hide Before;
  }

  lemma {:induction false} AlwaysVetted(steps: seq<Step>, c: nat)
    requires Exec(INIT, steps).Some? && c < |Exec(INIT, steps).value.callers|
    ensures VettedCaller(steps, c, Exec(INIT, steps).value.callers[c].pc)
  {
    hide Next, VettedCaller;
    if steps != [] {
      var n := |steps| - 1;
      var front, step := steps[..n], steps[n];
      var s := Exec(INIT, front).value;
      assert steps == front + [step];
      OthersKept(s, step, c);
      if c < |s.callers| {
        AlwaysVetted(front, c);
        if step.Call? && step.caller == c {
          CallIsStep(s, step);
          SightAdded(front, s, c, step.callerAct);
        } else {
          VettedKept(front, step, c, s.callers[c].pc);
        }
      } else {
        PollingIsVetted(steps, c);
      }
    }
  }

  lemma {:induction false} CallIsStep(s: Sys, step: Step)
    requires step.Call? && Next(s, step).Some?
    ensures step.caller < |s.callers| && Next(s, step) == CallerStep(s, step.caller, step.callerAct)
  {
    hide CallerStep;
  }

  lemma {:induction false} PollingIsVetted(steps: seq<Step>, c: nat)
    ensures VettedCaller(steps, c, Polling)
  {
  }

  lemma {:induction false} VettedKept(front: seq<Step>, step: Step, c: nat, pc: CallerPc)
    requires VettedCaller(front, c, pc)
    ensures VettedCaller(front + [step], c, pc)
  {
    hide SawUncancelled, SawConnected, SawSlot;
    UncancelledKept(front, step, c, PollCancel);
    UncancelledKept(front, step, c, CheckCancel);
    ConnectedKept(front, step, c, PollCancel, PollPass);
    ConnectedKept(front, step, c, CheckCancel, CheckState);
    if pc.Starting? { SlotKept(front, step, c, pc.camera); }
  }

  /** A step leaves every caller but its own where it was; a new one starts by polling. */
  lemma {:induction false} OthersKept(s: Sys, step: Step, c: nat)
    requires Next(s, step).Some? && c < |Next(s, step).value.callers|
    ensures var t := Next(s, step).value;
      && (c < |s.callers| && !(step.Call? && step.caller == c) ==> t.callers[c] == s.callers[c])
      && (c >= |s.callers| ==> t.callers[c].pc == Polling)
  {
    hide CallerStep, RunStep, Target, News, StateAfter;
    if step.Task? { RunFrame(s, step.runAct); }
    if step.Call? { CallerLeavesOthers(s, step.caller, step.callerAct); }
  }

  lemma {:induction false} CallerLeavesOthers(s: Sys, c: nat, act: CallerAct)
    requires c < |s.callers| && CallerStep(s, c, act).Some?
    ensures var t := CallerStep(s, c, act).value;
      |t.callers| == |s.callers| && forall d :: 0 <= d < |s.callers| && d != c ==> t.callers[d] == s.callers[d]
  {
  }

  /**
   * No source is started blindly: before a call starts one it has, under the lock and in this order, found the task
   * not cancelled, the camera Connected and the slot filled; the source is fed by the session whose camera it read.
   */
  lemma {:induction false} StartsAreVetted(steps: seq<Step>, j: nat, c: nat)
    requires Exec(INIT, steps).Some? && j < |steps| && steps[j] == Call(c, StartSource)
    ensures exists n :: SawSlot(steps[..j], c, n) && Before(steps, j + 1).startedIn == Before(steps, j).startedIn + [n]
  {
    hide Exec, Next, SawLive, SawSlot;
    StepAt(steps, j);
    StartRecords(Before(steps, j), c);
    AlwaysVetted(steps[..j], c);
    var pc := Before(steps, j).callers[c].pc;
    assert SawSlot(steps[..j], c, pc.camera);
  }

  lemma {:induction false} StartRecords(s: Sys, c: nat)
    requires Next(s, Call(c, StartSource)).Some?
    ensures c < |s.callers| && s.callers[c].pc.Starting?
    ensures Next(s, Call(c, StartSource)).value.startedIn == s.startedIn + [s.callers[c].pc.camera]
  {
  }

  /** No call is handed a source unless its poll found the task not cancelled and then the camera Connected. */
  lemma {:induction false} SourcesOnlyWhenConnected(steps: seq<Step>, c: nat)
    requires Exec(INIT, steps).Some? && c < |Exec(INIT, steps).value.callers|
    requires var pc := Exec(INIT, steps).value.callers[c].pc; pc.Finished? && pc.result.Some?
    ensures SawLive(steps, c)
  {
    hide Exec;
    AlwaysVetted(steps, c);
  }

  /** A call that looks while its kind is registered is handed that very source, and starts nothing. */
  lemma {:induction false} RegisteredIsReused(s: Sys, c: nat, act: CallerAct)
    requires c < |s.callers| && (act == LookUp || act == Recheck) && CallerStep(s, c, act).Some?
    requires s.callers[c].kind in s.registry
    ensures var t := CallerStep(s, c, act).value;
      var pc := t.callers[c].pc;
      && (pc.Finished? || pc.Releasing?) && pc.result == Some(s.registry[s.callers[c].kind])
      && t.started == s.started && t.registry == s.registry
  {
  }
}
