/**
 * What happens across sessions: sources that outlive the camera connection that feeds them, and schedules on which
 * the teardown's promises fail.
 */
module CameraHandover {
  import opened Prelude
  import opened CameraLifecycle

  /** A caller that read the slot while it was filled and has not inserted yet. */
  predicate HasCamera(pc: CallerPc) {
    pc.Starting? || pc.Inserting?
  }

  predicate NoCameraInHand(s: Sys) {
    forall c :: 0 <= c < |s.callers| ==> !HasCamera(s.callers[c].pc)
  }

  lemma {:induction false} ExecOne(s: Sys, step: Step)
    ensures Exec(s, [step]) == Next(s, step)
  {
    assert [step][..0] == [];
    assert Exec(s, []) == Some(s);
  }

  lemma {:induction false} ExecTwo(s: Sys, a: Step, b: Step)
    requires Next(s, a).Some?
    ensures Exec(s, [a, b]) == Next(Next(s, a).value, b)
  {
    ExecOne(s, a);
    assert [a, b][..1] == [a];
  }

  // ----- Sources of a session that is over -----

  /** The session whose camera feeds a source. */
  function SessionOf(s: Sys, id: SourceId): nat {
    if id < |s.startedIn| then s.startedIn[id] else 0
  }

  /** Some registered source is fed by session `n` or an earlier one. */
  ghost predicate RegistersOld(s: Sys, n: nat) {
    exists k :: k in s.registry && SessionOf(s, s.registry[k]) <= n
  }

  /** Nothing of session `n` or before is registered, in a caller's hand, or to be had from the slot. */
  ghost predicate Past(s: Sys, n: nat) {
    && (s.slotFilled ==> n < s.session)
    && n <= s.session
    && |s.startedIn| == |s.started|
    && !RegistersOld(s, n)
    && (forall k :: k in s.registry ==> s.registry[k] < |s.started|)
    && (forall c :: 0 <= c < |s.callers| ==>
          && (s.callers[c].pc.Starting? ==> n < s.callers[c].pc.camera)
          && (s.callers[c].pc.Inserting? ==> s.callers[c].pc.source < |s.started|
                                             && n < SessionOf(s, s.callers[c].pc.source)))
  }

  lemma {:induction false} MoveStaysPast(s: Sys, c: nat, pc: CallerPc, n: nat)
    requires Past(s, n) && c < |s.callers| && !pc.Inserting? && (pc.Starting? ==> n < pc.camera)
    ensures Past(At(s, c, pc), n)
  {
    assert forall id: nat :: SessionOf(At(s, c, pc), id) == SessionOf(s, id);
  }

  lemma {:induction false} StartStaysPast(s: Sys, c: nat, n: nat)
    requires Past(s, n) && c < |s.callers| && s.callers[c].pc.Starting?
    ensures Past(CallerStep(s, c, StartSource).value, n)
  {
    var t := CallerStep(s, c, StartSource).value;
    assert forall id: nat :: id < |s.startedIn| ==> SessionOf(t, id) == SessionOf(s, id);
  }

  lemma {:induction false} InsertStaysPast(s: Sys, c: nat, n: nat)
    requires Past(s, n) && c < |s.callers| && s.callers[c].pc.Inserting?
    ensures Past(CallerStep(s, c, InsertSource).value, n)
  {
    var t := CallerStep(s, c, InsertSource).value;
    assert forall id: nat :: SessionOf(t, id) == SessionOf(s, id);
    forall k | k in t.registry ensures SessionOf(t, t.registry[k]) > n {
      if k != s.callers[c].kind { assert k in s.registry && t.registry[k] == s.registry[k]; }
    }
  }

  lemma {:induction false} SameButLock(s: Sys, lock: Option<nat>, n: nat)
    requires Past(s, n)
    ensures Past(s.(lock := lock), n)
  {
    assert forall id: nat :: SessionOf(s.(lock := lock), id) == SessionOf(s, id);
  }

  lemma {:induction false} CallerStaysPast(s: Sys, c: nat, act: CallerAct, n: nat)
    requires Past(s, n) && c < |s.callers| && CallerStep(s, c, act).Some?
    ensures Past(CallerStep(s, c, act).value, n)
  {
    assert s.slotFilled ==> n < s.session;
    hide Past, At;
    match act
    case StartSource => StartStaysPast(s, c, n);
    case InsertSource => InsertStaysPast(s, c, n);
    case TakeLock =>
      MoveStaysPast(s, c, Rechecking, n);
      SameButLock(At(s, c, Rechecking), Some(c), n);
    case ReleaseLock =>
      MoveStaysPast(s, c, Finished(s.callers[c].pc.result), n);
      SameButLock(At(s, c, Finished(s.callers[c].pc.result)), None, n);
    case _ => MoveStaysPast(s, c, MovedTo(s, c, act), n);
  }

  lemma {:induction false} StaysPast(s: Sys, step: Step, n: nat)
    requires Past(s, n) && Next(s, step).Some?
    ensures Past(Next(s, step).value, n)
  {
    hide CallerStep;
    match step
    case Call(c, act) => CallerStaysPast(s, c, act, n);
    case Task(act) =>
      RunFrame(s, act);
      hide RunStep, Target, News, StateAfter;
    case _ =>
  }

  lemma {:induction false} PastForever(s: Sys, steps: seq<Step>, n: nat)
    requires Past(s, n) && Exec(s, steps).Some?
    ensures Past(Exec(s, steps).value, n)
  {
    hide Next, Past;
    if steps != [] {
      PastForever(s, steps[..|steps| - 1], n);
      StaysPast(Exec(s, steps[..|steps| - 1]).value, steps[|steps| - 1], n);
    }
  }

  /** Somewhere ahead a source of session `n` or before is registered. */
  ghost predicate OldAhead(s: Sys, n: nat) {
    exists steps, t :: Exec(s, steps) == Some(t) && RegistersOld(t, n)
  }

  lemma {:induction false} RegisteredIsOld(s: Sys)
    requires KindInv(s) && s.registry != map[]
    ensures OldAhead(s, s.session)
  {
    var k :| k in s.registry;
    assert SessionOf(s, s.registry[k]) <= s.session;
    assert Exec(s, []) == Some(s) && RegistersOld(s, s.session);
  }

  lemma {:induction false} LateInsertIsOld(s: Sys, c: nat)
    requires KindInv(s) && c < |s.callers| && HasCamera(s.callers[c].pc)
    ensures OldAhead(s, s.session)
  {
    var start, insert := Call(c, StartSource), Call(c, InsertSource);
    if s.callers[c].pc.Inserting? {
      ExecOne(s, insert);
      var t := Next(s, insert).value;
      var id := s.callers[c].pc.source;
      assert t.registry[s.callers[c].kind] == id && SessionOf(t, id) == s.startedIn[id] <= s.session;
      assert Exec(s, [insert]) == Some(t) && RegistersOld(t, s.session);
    } else {
      ExecTwo(s, start, insert);
      var t := Next(Next(s, start).value, insert).value;
      assert t.registry[s.callers[c].kind] == |s.started| && SessionOf(t, |s.started|) == s.callers[c].pc.camera;
      assert Exec(s, [start, insert]) == Some(t) && RegistersOld(t, s.session);
    }
  }

  /**
   * The teardown is meant to leave no reader on a connection that is gone. With the slot empty, no continuation,
   * however many sessions it opens, ever registers a source of a session that is over, exactly when the registry is
   * empty and no caller has a camera in hand.
   */
  lemma {:induction false} OldSessionGoneIff(s: Sys)
    requires Reachable(s) && !s.slotFilled
    ensures !OldAhead(s, s.session) <==> s.registry == map[] && NoCameraInHand(s)
  {
    hide Exec, Next;
    ReachableSafe(s);
    if s.registry != map[] {
      RegisteredIsOld(s);
    } else if !NoCameraInHand(s) {
      var c :| 0 <= c < |s.callers| && HasCamera(s.callers[c].pc);
      LateInsertIsOld(s, c);
    } else {
      assert Past(s, s.session);
      forall steps, t | Exec(s, steps) == Some(t) ensures !RegistersOld(t, s.session) {
        PastForever(s, steps, s.session);
      }
    }
  }

  /** At that moment every source ever started has been told to stop, except those registered or in a caller's hand. */
  lemma {:induction false} AllStoppedIff(s: Sys)
    requires Reachable(s) && s.pending == {}
    ensures (forall id: nat :: id < |s.started| ==> id in s.stopped)
            <==> (s.registry == map[] && forall c :: 0 <= c < |s.callers| ==> !s.callers[c].pc.Inserting?)
  {
    hide SessionInv;
    ReachableSafe(s);
    if k :| k in s.registry {
      assert Registered(s, s.registry[k]);
    }
    if c :| 0 <= c < |s.callers| && s.callers[c].pc.Inserting? {
      assert HoldsLock(s.callers[c].pc) && InHand(s, s.callers[c].pc.source);
    }
  }

  // ----- After `run` has returned -----

  ghost predicate Emptied(s: Sys) {
    s.run == Returned && !s.slotFilled && s.registry == map[] && NoCameraInHand(s)
  }

  lemma {:induction false} EmptiedStep(s: Sys, step: Step)
    requires Emptied(s) && Next(s, step).Some?
    ensures Emptied(Next(s, step).value)
  {
  }

  lemma {:induction false} EmptiedForever(s: Sys, steps: seq<Step>)
    requires Emptied(s) && Exec(s, steps).Some?
    ensures Emptied(Exec(s, steps).value)
  {
    hide Next, Emptied;
    if steps != [] {
      EmptiedForever(s, steps[..|steps| - 1]);
      EmptiedStep(Exec(s, steps[..|steps| - 1]).value, steps[|steps| - 1]);
    }
  }

  /** Somewhere ahead a source is registered. */
  ghost predicate FilledAhead(s: Sys) {
    exists steps, t :: Exec(s, steps) == Some(t) && t.registry != map[]
  }

  lemma {:induction false} OldAheadFills(s: Sys, n: nat)
    requires OldAhead(s, n)
    ensures FilledAhead(s)
  {
    hide Exec;
    var steps, t :| Exec(s, steps) == Some(t) && RegistersOld(t, n);
    assert t.registry != map[];
  }

  /**
   * The final drain is meant to leave no source behind. It does exactly when the registry is still empty as `run`
   * returns and no caller has the camera in hand; one that has can still register a source at any later time.
   */
  lemma {:induction false} RegistryStaysEmptyIff(s: Sys)
    requires Reachable(s) && s.run == Returned
    ensures !FilledAhead(s) <==> s.registry == map[] && NoCameraInHand(s)
  {
    hide Exec, Next;
    SlotImpliesConnected(s);
    OldSessionGoneIff(s);
    if s.registry == map[] && NoCameraInHand(s) {
      forall steps, t | Exec(s, steps) == Some(t) ensures t.registry == map[] { EmptiedForever(s, steps); }
    } else {
      OldAheadFills(s, s.session);
    }
  }

  // ----- Schedules on which the promises fail -----

  lemma {:induction false} Hop(s: Sys, step: Step) returns (t: Sys)
    requires Reachable(s) && Next(s, step).Some?
    ensures Reachable(t) && t == Next(s, step).value
  {
    hide Next;
    t := Next(s, step).value;
    var steps :| Exec(INIT, steps) == Some(s);
    assert (steps + [step])[..|steps|] == steps;
    assert Exec(INIT, steps + [step]) == Some(t);
  }

  lemma {:induction false} InitReachable()
    ensures Reachable(INIT)
  {
    assert Exec(INIT, []) == Some(INIT);
  }

  const AT_SESSION := Sys(false, Connected, true, InSession, map[], None, [Caller(Main, Polling)], [], {}, {},
                          [ConnectBegun, SlotFilled], 1, [])
  const WITH_CAMERA := AT_SESSION.(lock := Some(0), callers := [Caller(Main, Starting(1))])
  const HALF_DOWN := WITH_CAMERA.(run := Draining(false))
  const TORN_DOWN := WITH_CAMERA.(state := Disconnected, slotFilled := false, run := BackingOff,
                                  trace := [ConnectBegun, SlotFilled, SourcesStopped, LogoutTried, SlotCleared])

  lemma {:induction false} SessionReachable()
    ensures Reachable(AT_SESSION)
  {
    hide Reachable;
    InitReachable();
    var s := INIT;
    s := Hop(s, Spawn(Main));
    s := Hop(s, Task(Decide(false)));
    s := Hop(s, Task(Announce));
    s := Hop(s, Task(Attempt(Succeeded)));
    s := Hop(s, Task(GoLive));
    s := Hop(s, Task(FillSlot));
    assert s.trace == AT_SESSION.trace;
    assert s == AT_SESSION;
  }

  lemma {:induction false} CallerLocks()
    requires Reachable(AT_SESSION)
    ensures Reachable(AT_SESSION.(lock := Some(0), callers := [Caller(Main, Rechecking)]))
  {
    hide Reachable;
    var s := AT_SESSION;
    s := Hop(s, Call(0, PollCancel));
    s := Hop(s, Call(0, PollPass));
    s := Hop(s, Call(0, LookUp));
    s := Hop(s, Call(0, TakeLock));
    assert s == AT_SESSION.(lock := Some(0), callers := [Caller(Main, Rechecking)]);
  }

  lemma {:induction false} CallerTakesCamera()
    requires Reachable(AT_SESSION)
    ensures Reachable(WITH_CAMERA)
  {
    hide Reachable;
    CallerLocks();
    var s := AT_SESSION.(lock := Some(0), callers := [Caller(Main, Rechecking)]);
    s := Hop(s, Call(0, Recheck));
    s := Hop(s, Call(0, CheckCancel));
    s := Hop(s, Call(0, CheckState));
    s := Hop(s, Call(0, ReadSlot));
    assert s == WITH_CAMERA;
  }

  lemma {:induction false} SessionDraining()
    requires Reachable(WITH_CAMERA)
    ensures Reachable(HALF_DOWN)
  {
    hide Reachable;
    var s := WITH_CAMERA;
    s := Hop(s, Task(EndKeepalive));
    s := Hop(s, Task(EndTasks));
    s := Hop(s, Task(DrainRegistry));
    assert s.trace == HALF_DOWN.trace;
    assert s == HALF_DOWN;
  }

  lemma {:induction false} SessionTornDown()
    requires Reachable(HALF_DOWN)
    ensures Reachable(TORN_DOWN)
  {
    hide Reachable, CallerStep, Sweep;
    var s := HALF_DOWN;
    s := Hop(s, Task(DrainOver));
    s := Hop(s, Task(TryLogout));
    s := Hop(s, Task(ClearSlot));
    s := Hop(s, Task(GoDown));
    assert s.trace == TORN_DOWN.trace;
    assert s == TORN_DOWN;
  }

  lemma {:induction false} TornDownUnderACaller()
    ensures Reachable(WITH_CAMERA) && Reachable(TORN_DOWN)
  {
    hide Reachable;
    SessionReachable();
    CallerTakesCamera();
    SessionDraining();
    SessionTornDown();
  }

  /** Some schedule has `run` return while a caller still has the camera in hand. */
  lemma {:induction false} RunCanReturnUnderACaller()
    ensures exists s :: Reachable(s) && s.run == Returned && s.registry == map[] && !NoCameraInHand(s)
  {
    hide Reachable, CallerStep, Sweep;
    TornDownUnderACaller();
    var s := TORN_DOWN;
    s := Hop(s, Cancel);
    s := Hop(s, Task(BackoffOver(true)));
    s := Hop(s, Task(MarkStopped));
    s := Hop(s, Task(DrainRegistry));
    s := Hop(s, Task(DrainOver));
    assert s.run == Returned && HasCamera(s.callers[0].pc);
  }

  const REGISTERED := AT_SESSION.(registry := map[Main := 0], callers := [Caller(Main, Finished(Some(0)))],
                                  started := [Main], startedIn := [1])
  const CLAIMED := REGISTERED.(run := Draining(false), registry := map[], pending := {0},
                               callers := [Caller(Main, Finished(Some(0))), Caller(Main, Polling)])

  lemma {:induction false} SourceRegistered()
    requires Reachable(WITH_CAMERA)
    ensures Reachable(REGISTERED)
  {
    hide Reachable;
    var s := WITH_CAMERA;
    s := Hop(s, Call(0, StartSource));
    s := Hop(s, Call(0, InsertSource));
    s := Hop(s, Call(0, ReleaseLock));
    assert s.trace == REGISTERED.trace;
    assert s == REGISTERED;
  }

  lemma {:induction false} SourceClaimed()
    requires Reachable(REGISTERED)
    ensures Reachable(CLAIMED)
  {
    hide Reachable;
    var s := REGISTERED;
    s := Hop(s, Spawn(Main));
    s := Hop(s, Task(EndKeepalive));
    s := Hop(s, Task(EndTasks));
    s := Hop(s, Task(DrainRegistry));
    assert s.pending == {0} by {
      assert Main in REGISTERED.registry && REGISTERED.registry[Main] == 0;
    }
    assert s.trace == CLAIMED.trace;
    assert s == CLAIMED;
  }

  const RECHECKED := CLAIMED.(lock := Some(1),
                              callers := [Caller(Main, Finished(Some(0))), Caller(Main, CheckingCancel)])
  const NEAR_START := RECHECKED.(callers := [Caller(Main, Finished(Some(0))), Caller(Main, Starting(1))])

  lemma {:induction false} SecondCallerLocks()
    requires Reachable(CLAIMED)
    ensures Reachable(RECHECKED)
  {
    hide Reachable;
    var s := CLAIMED;
    s := Hop(s, Call(1, PollCancel));
    s := Hop(s, Call(1, PollPass));
    s := Hop(s, Call(1, LookUp));
    s := Hop(s, Call(1, TakeLock));
    s := Hop(s, Call(1, Recheck));
    assert s == RECHECKED;
  }

  lemma {:induction false} SecondCallerTakesCamera()
    requires Reachable(RECHECKED)
    ensures Reachable(NEAR_START)
  {
    hide Reachable;
    var s := RECHECKED;
    s := Hop(s, Call(1, CheckCancel));
    s := Hop(s, Call(1, CheckState));
    s := Hop(s, Call(1, ReadSlot));
    assert s == NEAR_START;
  }

  /** A second `start_video` can go out while the first source is only listed for stopping, and not stopped. */
  lemma {:induction false} DuplicateStartReachable()
    ensures exists s :: Reachable(s) && s.started == [Main, Main] && s.stopped == {} && s.pending == {0}
  {
    hide Reachable;
    TornDownUnderACaller();
    SourceRegistered();
    SourceClaimed();
    SecondCallerLocks();
    SecondCallerTakesCamera();
    var s := NEAR_START;
    s := Hop(s, Call(1, StartSource));
    assert s.started == [Main, Main] && s.stopped == {} && s.pending == {0};
  }

  const LEFT_BEHIND := TORN_DOWN.(registry := map[Main := 0], lock := None, started := [Main], startedIn := [1],
                                  callers := [Caller(Main, Finished(Some(0)))])
  const RECONNECTING := LEFT_BEHIND.(state := Connecting, run := Attempting,
                                     trace := [ConnectBegun, SlotFilled, SourcesStopped, LogoutTried, SlotCleared,
                                               ConnectBegun])
  const SECOND_SESSION := RECONNECTING.(state := Connected, slotFilled := true, run := InSession, session := 2,
                                        trace := [ConnectBegun, SlotFilled, SourcesStopped, LogoutTried, SlotCleared,
                                                  ConnectBegun, SlotFilled])

  lemma {:induction false} SourceLeftBehind()
    requires Reachable(TORN_DOWN)
    ensures Reachable(LEFT_BEHIND)
  {
    hide Reachable;
    var s := TORN_DOWN;
    s := Hop(s, Call(0, StartSource));
    s := Hop(s, Call(0, InsertSource));
    s := Hop(s, Call(0, ReleaseLock));
    assert s.trace == LEFT_BEHIND.trace;
    assert s == LEFT_BEHIND;
  }

  lemma {:induction false} ReconnectReachable()
    requires Reachable(LEFT_BEHIND)
    ensures Reachable(RECONNECTING)
  {
    hide Reachable;
    var s := LEFT_BEHIND;
    s := Hop(s, Task(BackoffOver(false)));
    s := Hop(s, Task(Decide(false)));
    s := Hop(s, Task(Announce));
    assert s.trace == RECONNECTING.trace;
    assert s == RECONNECTING;
  }

  lemma {:induction false} SecondSessionReachable()
    requires Reachable(RECONNECTING)
    ensures Reachable(SECOND_SESSION)
  {
    hide Reachable;
    var s := RECONNECTING;
    s := Hop(s, Task(Attempt(Succeeded)));
    s := Hop(s, Task(GoLive));
    s := Hop(s, Task(FillSlot));
    assert s.trace == SECOND_SESSION.trace;
    assert s == SECOND_SESSION;
  }

  /** A source of the first session can be handed to a caller of the second. */
  lemma {:induction false} StaleSourceServed()
    ensures exists s :: Reachable(s) && s.run == InSession && s.session == 2 && |s.callers| == 2
                        && s.callers[1].pc == Finished(Some(0)) && SessionOf(s, 0) == 1 && 0 !in s.stopped
  {
    hide Reachable;
    TornDownUnderACaller();
    SourceLeftBehind();
    ReconnectReachable();
    SecondSessionReachable();
    var s := SECOND_SESSION;
    s := Hop(s, Spawn(Main));
    s := Hop(s, Call(1, PollCancel));
    s := Hop(s, Call(1, PollPass));
    s := Hop(s, Call(1, LookUp));
    assert s.session == 2 && s.callers[1].pc == Finished(Some(0)) && SessionOf(s, 0) == 1;
  }
}
