/**
 * One camera's lifecycle as a transition system: the connect/session/teardown task, any number of concurrent
 * stream requests, and the idle sweep, interleaved at the granularity of their lock-protected accesses.
 */
module CameraLifecycle {
  import opened Prelude

  datatype StreamKind = Main | Sub | Extern
  datatype CameraState = Disconnected | Connecting | Connected

  /** Sources are numbered in the order they are started. */
  type SourceId = nat

  /**
   * Where a `stream_source` call stands. From `Rechecking` to `Releasing` it holds the create-lock; while
   * `Starting` it holds the camera handle of a session, which are numbered from one.
   */
  datatype CallerPc =
    | Polling
    | PollingState
    | LookingUp
    | AwaitingLock
    | Rechecking
    | CheckingCancel
    | CheckingState
    | ReadingSlot
    | Starting(camera: nat)
    | Inserting(source: SourceId)
    | Releasing(result: Option<SourceId>)
    | Finished(result: Option<SourceId>)

  datatype Caller = Caller(kind: StreamKind, pc: CallerPc)

  /** Where the `run` task stands; `final` marks the stop and drain of its epilogue. */
  datatype RunPc =
    | Deciding
    | Parked
    | Announcing
    | Attempting
    | Failing
    | AuthFailing
    | GoingLive
    | FillingSlot
    | InSession
    | EndingTasks
    | LoggingOut
    | ClearingSlot
    | GoingDown
    | BackingOff
    | Stopping(final: bool)
    | Draining(final: bool)
    | Leaving
    | Returned

  /** What an observer of the task sees, in order. */
  datatype Milestone =
    | ConnectBegun
    | ConnectFailed
    | AuthFailed
    | SlotFilled
    | SourcesStopped
    | LogoutTried
    | SlotCleared
    | FinalStop
    | RunReturned

  datatype Sys = Sys(
    cancelled: bool,
    state: CameraState,
    slotFilled: bool,
    run: RunPc,
    registry: map<StreamKind, SourceId>,
    lock: Option<nat>,
    callers: seq<Caller>,
    started: seq<StreamKind>,
    stopped: set<SourceId>,
    pending: set<SourceId>,
    trace: seq<Milestone>,
    session: nat,
    startedIn: seq<nat>)

  const INIT := Sys(false, Disconnected, false, Deciding, map[], None, [], [], {}, {}, [], 0, [])

  datatype CallerAct =
    | PollCancel | PollPass | PollAgain | PollGiveUp | LookUp | TakeLock | Recheck | CheckCancel | CheckState
    | ReadSlot | StartSource | InsertSource | ReleaseLock | Abandon

  datatype ConnectOutcome = Succeeded | AuthRefused | OtherFailure | CancelWon

  datatype RunAct =
    | Decide(park: bool)
    | Wake(cancelWon: bool)
    | Announce
    | Attempt(outcome: ConnectOutcome)
    | NoteFailure
    | NoteAuthFailure
    | GoLive
    | FillSlot
    | EndKeepalive
    | EndTasks
    | DrainRegistry
    | StopOne(source: SourceId)
    | DrainOver
    | TryLogout
    | ClearSlot
    | GoDown
    | BackoffOver(cancelWon: bool)
    | MarkStopped

  datatype Step =
    | Cancel
    | Spawn(kind: StreamKind)
    | Call(caller: nat, callerAct: CallerAct)
    | Prune(kinds: set<StreamKind>)
    | Task(runAct: RunAct)

  function At(s: Sys, c: nat, pc: CallerPc): Sys
    requires c < |s.callers|
  {
    s.(callers := s.callers[c := s.callers[c].(pc := pc)])
  }

  function Found(s: Sys, kind: StreamKind): Option<SourceId> {
    if kind in s.registry then Some(s.registry[kind]) else None
  }

  /** One atomic step of a `stream_source` call, if it is enabled. */
  function CallerStep(s: Sys, c: nat, act: CallerAct): Option<Sys>
    requires c < |s.callers|
  {
    var Caller(kind, pc) := s.callers[c];
    match (act, pc)
    case (PollCancel, Polling) => Some(At(s, c, if s.cancelled then Finished(None) else PollingState))
    case (PollPass, PollingState) => if s.state == Connected then Some(At(s, c, LookingUp)) else None
    case (PollAgain, PollingState) => if s.state != Connected then Some(At(s, c, Polling)) else None
    case (PollGiveUp, PollingState) => if s.state != Connected then Some(At(s, c, Finished(None))) else None
    case (LookUp, LookingUp) =>
      Some(At(s, c, if kind in s.registry then Finished(Found(s, kind)) else AwaitingLock))
    case (TakeLock, AwaitingLock) => if s.lock.None? then Some(At(s, c, Rechecking).(lock := Some(c))) else None
    case (Recheck, Rechecking) =>
      Some(At(s, c, if kind in s.registry then Releasing(Found(s, kind)) else CheckingCancel))
    case (CheckCancel, CheckingCancel) => Some(At(s, c, if s.cancelled then Releasing(None) else CheckingState))
    case (CheckState, CheckingState) => Some(At(s, c, if s.state != Connected then Releasing(None) else ReadingSlot))
    case (ReadSlot, ReadingSlot) => Some(At(s, c, if s.slotFilled then Starting(s.session) else Releasing(None)))
    case (StartSource, Starting(camera)) =>
      Some(At(s, c, Inserting(|s.started|)).(started := s.started + [kind], startedIn := s.startedIn + [camera]))
    case (InsertSource, Inserting(source)) =>
      Some(At(s, c, Releasing(Some(source))).(registry := s.registry[kind := source]))
    case (ReleaseLock, Releasing(result)) => Some(At(s, c, Finished(result)).(lock := None))
    case (Abandon, Polling) => Some(At(s, c, Finished(None)))
    case (Abandon, AwaitingLock) => Some(At(s, c, Finished(None)))
    case _ => None
  }

  /** Where a connect attempt leads. */
  function AfterAttempt(outcome: ConnectOutcome): RunPc {
    match outcome
    case Succeeded => GoingLive
    case AuthRefused => AuthFailing
    case OtherFailure => Failing
    case CancelWon => Leaving
  }

  /** The position from which an action is taken. */
  predicate Ready(pc: RunPc, act: RunAct) {
    match act
    case Decide(_) => pc.Deciding?
    case Wake(_) => pc.Parked?
    case Announce => pc.Announcing?
    case Attempt(_) => pc.Attempting?
    case NoteFailure => pc.Failing?
    case NoteAuthFailure => pc.AuthFailing?
    case GoLive => pc.GoingLive?
    case FillSlot => pc.FillingSlot?
    case EndKeepalive => pc.InSession?
    case EndTasks => pc.EndingTasks?
    case DrainRegistry => pc.Stopping?
    case StopOne(_) => pc.Draining?
    case DrainOver => pc.Draining?
    case TryLogout => pc.LoggingOut?
    case ClearSlot => pc.ClearingSlot?
    case GoDown => pc.GoingDown?
    case BackoffOver(_) => pc.BackingOff?
    case MarkStopped => pc.Leaving?
  }

  /** What else an action waits for: a cancel arm for the cancel, a drain for its list. */
  predicate Permitted(s: Sys, act: RunAct) {
    match act
    case Wake(cancelWon) => cancelWon ==> s.cancelled
    case Attempt(outcome) => outcome == CancelWon ==> s.cancelled
    case BackoffOver(cancelWon) => cancelWon ==> s.cancelled
    case StopOne(source) => source in s.pending
    case DrainOver => s.pending == {}
    case _ => true
  }

  /** Where an action leads. */
  function Target(s: Sys, act: RunAct): RunPc {
    match act
    case Decide(park) => if s.cancelled then Leaving else if park then Parked else Announcing
    case Wake(cancelWon) => if cancelWon then Leaving else Announcing
    case Announce => Attempting
    case Attempt(outcome) => AfterAttempt(outcome)
    case NoteFailure => BackingOff
    case NoteAuthFailure => Leaving
    case GoLive => FillingSlot
    case FillSlot => InSession
    case EndKeepalive => EndingTasks
    case EndTasks => Stopping(false)
    case DrainRegistry => Draining(s.run == Stopping(true))
    case StopOne(_) => s.run
    case DrainOver => if s.run == Draining(true) then Returned else LoggingOut
    case TryLogout => ClearingSlot
    case ClearSlot => GoingDown
    case GoDown => BackingOff
    case BackoffOver(cancelWon) => if cancelWon then Leaving else Deciding
    case MarkStopped => Stopping(true)
  }

  /** The milestones an action passes. */
  function News(pc: RunPc, act: RunAct): seq<Milestone> {
    match act
    case Announce => [ConnectBegun]
    case NoteFailure => [ConnectFailed]
    case NoteAuthFailure => [AuthFailed]
    case FillSlot => [SlotFilled]
    case DrainOver => if pc == Draining(true) then [FinalStop, RunReturned] else [SourcesStopped]
    case TryLogout => [LogoutTried]
    case ClearSlot => [SlotCleared]
    case _ => []
  }

  /** The camera state an action sets. */
  function StateAfter(state: CameraState, act: RunAct): CameraState {
    match act
    case Announce => Connecting
    case GoLive => Connected
    case NoteFailure => Disconnected
    case NoteAuthFailure => Disconnected
    case GoDown => Disconnected
    case MarkStopped => Disconnected
    case _ => state
  }

  /** The effect of an action, field by field: it writes only what the task owns, and in a drain the registry. */
  function RunEffect(s: Sys, act: RunAct): Sys {
    s.(run := Target(s, act),
       trace := s.trace + News(s.run, act),
       state := StateAfter(s.state, act),
       slotFilled := act.FillSlot? || (s.slotFilled && !act.ClearSlot?),
       session := if act.FillSlot? then s.session + 1 else s.session,
       registry := if act.DrainRegistry? then map[] else s.registry,
       pending := if act.DrainRegistry? then set k | k in s.registry :: s.registry[k]
                  else if act.StopOne? then s.pending - {act.source} else s.pending,
       stopped := if act.StopOne? then s.stopped + {act.source} else s.stopped)
  }

  /** One atomic step of the `run` task, if it is enabled. */
  function RunStep(s: Sys, act: RunAct): Option<Sys> {
    if Ready(s.run, act) && Permitted(s, act) then Some(RunEffect(s, act)) else None
  }

  /** The sweep, under the registry's write lock: some idle sources are stopped and removed together. */
  function Sweep(s: Sys, kinds: set<StreamKind>): Sys {
    s.(registry := s.registry - kinds,
       stopped := s.stopped + set k | k in kinds && k in s.registry :: s.registry[k])
  }

  function Next(s: Sys, step: Step): Option<Sys> {
    match step
    case Cancel => Some(s.(cancelled := true))
    case Spawn(kind) => Some(s.(callers := s.callers + [Caller(kind, Polling)]))
    case Call(c, act) => if c < |s.callers| then CallerStep(s, c, act) else None
    case Prune(kinds) => Some(Sweep(s, kinds))
    case Task(act) => RunStep(s, act)
  }

  /** The state after a schedule, if every step of it was enabled. */
  function Exec(s: Sys, steps: seq<Step>): Option<Sys> {
    if steps == [] then Some(s)
    else match Exec(s, steps[..|steps| - 1])
      case None => None
      case Some(t) => Next(t, steps[|steps| - 1])
  }

  // ----- The registry -----

  predicate HoldsLock(pc: CallerPc) {
    pc.Rechecking? || pc.CheckingCancel? || pc.CheckingState? || pc.ReadingSlot? || pc.Starting? || pc.Inserting?
    || pc.Releasing?
  }

  /** Past the re-check and not yet inserted. */
  predicate Creating(pc: CallerPc) {
    pc.CheckingCancel? || pc.CheckingState? || pc.ReadingSlot? || pc.Starting? || pc.Inserting?
  }

  predicate Registered(s: Sys, id: SourceId) {
    exists k :: k in s.registry && s.registry[k] == id
  }

  /** Started by the lock holder and not yet registered. */
  predicate InHand(s: Sys, id: SourceId) {
    s.lock.Some? && s.lock.value < |s.callers| && s.callers[s.lock.value].pc == Inserting(id)
  }

  /** Exactly the lock holder is inside the locked section, and its kind is unregistered while it creates. */
  ghost predicate LockInv(s: Sys) {
    && (s.lock.Some? ==> s.lock.value < |s.callers|)
    && (forall c :: 0 <= c < |s.callers| ==> (HoldsLock(s.callers[c].pc) <==> s.lock == Some(c)))
    && (forall c :: 0 <= c < |s.callers| && Creating(s.callers[c].pc) ==> s.callers[c].kind !in s.registry)
  }

  /** Every name of a source is the name of a started source, of the right kind and of a session that has begun. */
  ghost predicate KindInv(s: Sys) {
    && |s.startedIn| == |s.started|
    && (forall id :: 0 <= id < |s.startedIn| ==> s.startedIn[id] <= s.session)
    && (forall c :: 0 <= c < |s.callers| && s.callers[c].pc.Starting? ==> s.callers[c].pc.camera <= s.session)
    && (forall a, b :: a in s.pending && b in s.pending && a < |s.started| && b < |s.started| ==>
          s.started[a] == s.started[b] ==> a == b)
    && (forall k :: k in s.registry ==> s.registry[k] < |s.started| && s.started[s.registry[k]] == k)
    && (forall c :: 0 <= c < |s.callers| ==>
          var caller := s.callers[c];
          && (caller.pc.Inserting? ==> caller.pc.source < |s.started| && s.started[caller.pc.source] == caller.kind)
          && (caller.pc.Releasing? || caller.pc.Finished? ==>
                caller.pc.result.Some? ==> caller.pc.result.value < |s.started|
                                           && s.started[caller.pc.result.value] == caller.kind))
  }

  /** Each started source is in exactly one place, and nothing else is anywhere. */
  ghost predicate PlaceInv(s: Sys) {
    && (forall id :: id in s.stopped || id in s.pending ==> id < |s.started|)
    && (forall id: nat :: id < |s.started| ==> Registered(s, id) || id in s.stopped || InHand(s, id) || id in s.pending)
    && (forall id: nat :: Registered(s, id) ==> id !in s.stopped && !InHand(s, id) && id !in s.pending)
    && (forall id: nat :: InHand(s, id) ==> id !in s.stopped && id !in s.pending)
    && (forall id: nat :: id in s.pending ==> id !in s.stopped)
    && (s.pending != {} ==> s.run.Draining?)
  }

  // ----- The session -----

  predicate SlotOpen(pc: RunPc) {
    pc.InSession? || pc.EndingTasks? || pc == Stopping(false) || pc == Draining(false)
    || pc.LoggingOut? || pc.ClearingSlot?
  }

  function StateAt(pc: RunPc): set<CameraState> {
    match pc
    case Attempting => {Connecting}
    case Failing => {Connecting}
    case AuthFailing => {Connecting}
    case GoingLive => {Connecting}
    case FillingSlot => {Connected}
    case GoingDown => {Connected}
    case Leaving => {Disconnected, Connecting}
    case Deciding => {Disconnected}
    case Parked => {Disconnected}
    case Announcing => {Disconnected}
    case BackingOff => {Disconnected}
    case Returned => {Disconnected}
    case _ => if SlotOpen(pc) then {Connected} else {Disconnected}
  }

  predicate MayFollow(a: Milestone, b: Milestone) {
    match a
    case ConnectBegun => b == SlotFilled || b == ConnectFailed || b == AuthFailed || b == FinalStop
    case ConnectFailed => b == ConnectBegun || b == FinalStop
    case AuthFailed => b == FinalStop
    case SlotFilled => b == SourcesStopped
    case SourcesStopped => b == LogoutTried
    case LogoutTried => b == SlotCleared
    case SlotCleared => b == ConnectBegun || b == FinalStop
    case FinalStop => b == RunReturned
    case RunReturned => false
  }

  function Last(trace: seq<Milestone>): Option<Milestone> {
    if trace == [] then None else Some(trace[|trace| - 1])
  }

  /** The latest milestone as the task's position implies it. */
  predicate Fits(pc: RunPc, last: Option<Milestone>) {
    var between := last == None || last == Some(ConnectFailed) || last == Some(SlotCleared);
    match pc
    case Attempting => last == Some(ConnectBegun)
    case Failing => last == Some(ConnectBegun)
    case AuthFailing => last == Some(ConnectBegun)
    case GoingLive => last == Some(ConnectBegun)
    case FillingSlot => last == Some(ConnectBegun)
    case InSession => last == Some(SlotFilled)
    case EndingTasks => last == Some(SlotFilled)
    case LoggingOut => last == Some(SourcesStopped)
    case ClearingSlot => last == Some(LogoutTried)
    case GoingDown => last == Some(SlotCleared)
    case Returned => last == Some(RunReturned)
    case Stopping(false) => last == Some(SlotFilled)
    case Draining(false) => last == Some(SlotFilled)
    case Deciding => between
    case Parked => between
    case Announcing => between
    case BackingOff => between
    case _ => between || last == Some(ConnectBegun) || last == Some(AuthFailed)
  }

  ghost predicate TraceInv(trace: seq<Milestone>) {
    && (trace != [] ==> trace[0] == ConnectBegun || trace[0] == FinalStop)
    && forall i :: 0 <= i < |trace| - 1 ==> MayFollow(trace[i], trace[i + 1])
  }

  ghost predicate SessionInv(s: Sys) {
    && (s.slotFilled <==> SlotOpen(s.run))
    && s.state in StateAt(s.run)
    && Fits(s.run, Last(s.trace))
    && TraceInv(s.trace)
  }

  ghost predicate Inv(s: Sys) {
    LockInv(s) && KindInv(s) && PlaceInv(s) && SessionInv(s)
  }

  // ----- Every step keeps the invariants -----

  /** Where the sources are depends only on the registry and on what the lock holder has in hand. */
  lemma {:induction false} SamePlaces(s: Sys, t: Sys)
    requires PlaceInv(s)
    requires t.registry == s.registry && t.started == s.started && t.stopped == s.stopped && t.pending == s.pending
    requires forall id: nat :: InHand(t, id) <==> InHand(s, id)
    requires t.run == s.run || s.pending == {}
    ensures PlaceInv(t)
  {
    hide InHand;
    assert forall id: nat :: Registered(t, id) <==> Registered(s, id);
  }

  /** A caller moving on without touching the lock, the registry or the sources. */
  lemma {:induction false} MoveKeeps(s: Sys, c: nat, pc: CallerPc)
    requires Inv(s) && c < |s.callers|
    requires HoldsLock(pc) == HoldsLock(s.callers[c].pc) && !pc.Inserting? && !s.callers[c].pc.Inserting?
    requires Creating(pc) ==> s.callers[c].kind !in s.registry
    requires pc.Starting? ==> pc.camera <= s.session
    requires (pc.Releasing? || pc.Finished?) && pc.result.Some? ==> pc.result == Found(s, s.callers[c].kind)
    ensures Inv(At(s, c, pc))
  {
    hide SlotOpen, StateAt, Fits, TraceInv, PlaceInv;
    SamePlaces(s, At(s, c, pc));
  }

  lemma {:induction false} TakeLockKeeps(s: Sys, c: nat)
    requires Inv(s) && c < |s.callers| && s.callers[c].pc == AwaitingLock && s.lock.None?
    ensures Inv(At(s, c, Rechecking).(lock := Some(c)))
  {
    hide SlotOpen, StateAt, Fits, TraceInv, PlaceInv;
    SamePlaces(s, At(s, c, Rechecking).(lock := Some(c)));
  }

  lemma {:induction false} ReleaseKeeps(s: Sys, c: nat)
    requires Inv(s) && c < |s.callers| && s.callers[c].pc.Releasing?
    ensures Inv(At(s, c, Finished(s.callers[c].pc.result)).(lock := None))
  {
    hide SlotOpen, StateAt, Fits, TraceInv, PlaceInv;
    SamePlaces(s, At(s, c, Finished(s.callers[c].pc.result)).(lock := None));
  }

  lemma {:induction false} StartKeeps(s: Sys, c: nat)
    requires Inv(s) && c < |s.callers| && s.callers[c].pc.Starting?
    ensures Inv(At(s, c, Inserting(|s.started|)).(started := s.started + [s.callers[c].kind],
                                                  startedIn := s.startedIn + [s.callers[c].pc.camera]))
  {
    hide SlotOpen, StateAt, Fits, TraceInv;
    var t := At(s, c, Inserting(|s.started|)).(started := s.started + [s.callers[c].kind],
                                               startedIn := s.startedIn + [s.callers[c].pc.camera]);
    assert s.lock == Some(c);
    assert forall id: nat :: InHand(t, id) <==> id == |s.started|;
    assert forall id: nat :: !InHand(s, id);
    assert forall id: nat :: Registered(t, id) <==> Registered(s, id);
  }

  lemma {:induction false} InsertKeeps(s: Sys, c: nat)
    requires Inv(s) && c < |s.callers| && s.callers[c].pc.Inserting?
    ensures var id := s.callers[c].pc.source;
      Inv(At(s, c, Releasing(Some(id))).(registry := s.registry[s.callers[c].kind := id]))
  {
    hide SlotOpen, StateAt, Fits, TraceInv;
    var id := s.callers[c].pc.source;
    var kind := s.callers[c].kind;
    var t := At(s, c, Releasing(Some(id))).(registry := s.registry[kind := id]);
    assert s.lock == Some(c) && kind !in s.registry;
    assert forall other: nat :: InHand(s, other) <==> other == id;
    assert forall other: nat :: !InHand(t, other);
    assert t.registry[kind] == id;
    forall other: nat ensures Registered(t, other) <==> Registered(s, other) || other == id {
      if Registered(s, other) {
        var k :| k in s.registry && s.registry[k] == other;
        assert k in t.registry && t.registry[k] == other;
      }
    }
  }

  lemma {:induction false} CallerKeeps(s: Sys, c: nat, act: CallerAct)
    requires Inv(s) && c < |s.callers| && CallerStep(s, c, act).Some?
    ensures Inv(CallerStep(s, c, act).value)
  {
    hide PlaceInv, SessionInv, KindInv, LockInv, At;
    match act
    case TakeLock => TakeLockKeeps(s, c);
    case StartSource => StartKeeps(s, c);
    case InsertSource => InsertKeeps(s, c);
    case ReleaseLock => ReleaseKeeps(s, c);
    case _ =>
      CreatingUnregistered(s, c);
      MoveKeeps(s, c, MovedTo(s, c, act));
  }

  lemma {:induction false} CreatingUnregistered(s: Sys, c: nat)
    requires LockInv(s) && c < |s.callers|
    ensures Creating(s.callers[c].pc) ==> s.callers[c].kind !in s.registry
  {
  }

  /** The destination of a step that only moves its caller. */
  ghost function MovedTo(s: Sys, c: nat, act: CallerAct): CallerPc
    requires c < |s.callers|
  {
    var Caller(kind, pc) := s.callers[c];
    match act
    case PollCancel => if s.cancelled then Finished(None) else PollingState
    case PollPass => LookingUp
    case PollAgain => Polling
    case LookUp => if kind in s.registry then Finished(Found(s, kind)) else AwaitingLock
    case Recheck => if kind in s.registry then Releasing(Found(s, kind)) else CheckingCancel
    case CheckCancel => if s.cancelled then Releasing(None) else CheckingState
    case CheckState => if s.state != Connected then Releasing(None) else ReadingSlot
    case ReadSlot => if s.slotFilled then Starting(s.session) else Releasing(None)
    case _ => Finished(None)
  }

  lemma {:induction false} TraceGrows(trace: seq<Milestone>, m: Milestone)
    requires TraceInv(trace) && MayContinue(Last(trace), m)
    ensures TraceInv(trace + [m])
  {
  }

  /** Slot, state and position agree along the task. */
  lemma {:induction false} RunKeepsSlot(s: Sys, act: RunAct)
    requires SessionInv(s) && RunStep(s, act).Some?
    ensures var t := RunStep(s, act).value;
      (t.slotFilled <==> SlotOpen(t.run)) && t.state in StateAt(t.run)
  {
    hide Fits, TraceInv, News, Permitted;
    assert s.state in StateAt(s.run);
  }

  /** Each action's milestones continue the trace, and leave the latest one as the new position implies it. */
  lemma {:induction false} NewsFits(s: Sys, act: RunAct, last: Option<Milestone>)
    requires Ready(s.run, act) && Fits(s.run, last)
    ensures var news := News(s.run, act);
      && Fits(Target(s, act), if news == [] then last else Some(news[|news| - 1]))
      && (news != [] ==> MayContinue(last, news[0]))
      && |news| <= 2 && (|news| == 2 ==> MayFollow(news[0], news[1]))
  {
  }

  predicate MayContinue(last: Option<Milestone>, m: Milestone) {
    match last
    case None => m == ConnectBegun || m == FinalStop
    case Some(a) => MayFollow(a, m)
  }

  lemma {:induction false} RunKeepsTrace(s: Sys, act: RunAct)
    requires Fits(s.run, Last(s.trace)) && TraceInv(s.trace) && RunStep(s, act).Some?
    ensures var t := RunStep(s, act).value;
      Fits(t.run, Last(t.trace)) && TraceInv(t.trace)
  {
    hide Fits, TraceInv, Ready, Permitted, Target, News, MayFollow;
    NewsFits(s, act, Last(s.trace));
    var news := News(s.run, act);
    var t := RunStep(s, act).value;
    assert t.run == Target(s, act) && t.trace == s.trace + news;
    if news == [] {
      assert t.trace == s.trace;
    } else if |news| == 1 {
      TraceGrows(s.trace, news[0]);
      assert t.trace == s.trace + [news[0]];
    } else {
      TraceGrows(s.trace, news[0]);
      TraceGrows(s.trace + [news[0]], news[1]);
      assert t.trace == s.trace + [news[0]] + [news[1]];
    }
  }

  /** What the task leaves alone: the callers, their lock, and outside a drain the sources too. */
  lemma {:induction false} RunFrame(s: Sys, act: RunAct)
    requires RunStep(s, act).Some?
    ensures RunStep(s, act).value == RunEffect(s, act)
    ensures act.DrainRegistry? ==> !s.run.Draining? && RunEffect(s, act).run.Draining?
    ensures act.StopOne? ==> s.run.Draining? && act.source in s.pending && RunEffect(s, act).run == s.run
    ensures act.DrainOver? ==> s.pending == {}
    ensures s.run.Draining? ==> act.StopOne? || act.DrainOver?
  {
  }

  lemma {:induction false} RunKeepsRegistry(s: Sys, act: RunAct)
    requires LockInv(s) && KindInv(s) && RunStep(s, act).Some?
    ensures var t := RunStep(s, act).value; LockInv(t) && KindInv(t)
  {
    hide RunStep, Target, News, StateAfter;
    RunFrame(s, act);
  }

  lemma {:induction false} RunKeepsPlaces(s: Sys, act: RunAct)
    requires KindInv(s) && PlaceInv(s) && RunStep(s, act).Some?
    ensures PlaceInv(RunStep(s, act).value)
  {
    hide RunStep, Target, News, StateAfter;
    RunFrame(s, act);
    var t := RunStep(s, act).value;
    assert forall id: nat :: InHand(t, id) <==> InHand(s, id);
    if act.DrainRegistry? {
      assert s.pending == {};
      assert forall id: nat :: id in t.pending <==> Registered(s, id);
    } else if act.StopOne? {
      assert forall id: nat :: Registered(t, id) <==> Registered(s, id);
      assert forall id: nat :: id in s.pending <==> id in t.pending || id == act.source;
      assert forall id: nat :: id in t.stopped <==> id in s.stopped || id == act.source;
    } else {
      NotDrainingNoPending(s);
      SamePlaces(s, t);
    }
  }

  lemma {:induction false} NotDrainingNoPending(s: Sys)
    requires PlaceInv(s)
    ensures !s.run.Draining? ==> s.pending == {}
  {
  }

  lemma {:induction false} SweepKeeps(s: Sys, kinds: set<StreamKind>)
    requires Inv(s)
    ensures Inv(Sweep(s, kinds))
  {
    hide SlotOpen, StateAt, Fits, TraceInv;
    var t := Sweep(s, kinds);
    assert forall id: nat :: InHand(t, id) <==> InHand(s, id);
    forall id: nat ensures Registered(t, id) <==> Registered(s, id) && id !in t.stopped {
      if Registered(s, id) {
        var k :| k in s.registry && s.registry[k] == id;
        assert id !in s.stopped;
        assert k !in kinds ==> k in t.registry && t.registry[k] == id;
      }
    }
    assert forall id: nat :: id in t.stopped <==> id in s.stopped || (Registered(s, id) && !Registered(t, id));
  }

  lemma {:induction false} StepKeeps(s: Sys, step: Step)
    requires Inv(s) && Next(s, step).Some?
    ensures Inv(Next(s, step).value)
  {
    hide CallerStep, RunStep, SlotOpen, StateAt, Fits, TraceInv, PlaceInv;
    match step
    case Call(c, act) => CallerKeeps(s, c, act);
    case Task(act) =>
      RunKeepsSlot(s, act);
      RunKeepsTrace(s, act);
      RunKeepsRegistry(s, act);
      RunKeepsPlaces(s, act);
    case Prune(kinds) => SweepKeeps(s, kinds);
    case _ => SamePlaces(s, Next(s, step).value);
  }

  lemma {:induction false} InitSafe()
    ensures Inv(INIT)
  {
  }

  /** Every state of every schedule satisfies the invariants. */
  lemma {:induction false} Safety(steps: seq<Step>)
    requires Exec(INIT, steps).Some?
    ensures Inv(Exec(INIT, steps).value)
  {
    hide Next, Inv;
    if steps == [] {
      InitSafe();
    } else {
      Safety(steps[..|steps| - 1]);
      StepKeeps(Exec(INIT, steps[..|steps| - 1]).value, steps[|steps| - 1]);
    }
  }

  // ----- What the invariants mean -----

  /** Reachable by some schedule. */
  ghost predicate Reachable(s: Sys) {
    exists steps :: Exec(INIT, steps) == Some(s)
  }

  lemma {:induction false} ReachableSafe(s: Sys)
    requires Reachable(s)
    ensures Inv(s)
  {
    hide Inv;
    var steps :| Exec(INIT, steps) == Some(s);
    Safety(steps);
  }

  /** An insert never overwrites an entry. */
  lemma {:induction false} InsertNeverOverwrites(s: Sys, c: nat)
    requires Reachable(s) && Next(s, Call(c, InsertSource)).Some?
    ensures s.callers[c].kind !in s.registry
    ensures Next(s, Call(c, InsertSource)).value.registry == s.registry[s.callers[c].kind := s.callers[c].pc.source]
  {
    hide PlaceInv, KindInv, SessionInv;
    ReachableSafe(s);
  }

  /** A source that has been started and not told to stop. */
  predicate Unstopped(s: Sys, id: SourceId) {
    id < |s.started| && id !in s.stopped
  }

  /** Only the lock holder starts a source, and any unstopped source of that kind is already in a drain's list. */
  lemma {:induction false} StartsAreExclusive(s: Sys, step: Step)
    requires Reachable(s) && Next(s, step).Some? && Next(s, step).value.started != s.started
    ensures step.Call? && step.callerAct == StartSource && s.lock == Some(step.caller)
    ensures Next(s, step).value.started == s.started + [s.callers[step.caller].kind]
    ensures forall id: nat :: Unstopped(s, id) && s.started[id] == s.callers[step.caller].kind ==> id in s.pending
  {
    ReachableSafe(s);
    OnlyStartStarts(s, step);
    hide Next, SessionInv;
    forall id: nat | Unstopped(s, id) && id !in s.pending ensures s.started[id] != s.callers[step.caller].kind {
      UnclaimedPlace(s, id);
    }
  }

  lemma {:induction false} OnlyStartStarts(s: Sys, step: Step)
    requires LockInv(s) && Next(s, step).Some? && Next(s, step).value.started != s.started
    ensures step.Call? && step.callerAct == StartSource && step.caller < |s.callers|
    ensures s.callers[step.caller].pc.Starting? && s.lock == Some(step.caller)
    ensures s.callers[step.caller].kind !in s.registry
    ensures Next(s, step).value.started == s.started + [s.callers[step.caller].kind]
  {
    hide RunStep, CallerStep, Target, News, StateAfter;
    match step
    case Task(act) => RunFrame(s, act);
    case Call(c, act) => CallerStarts(s, c, act);
    case _ =>
  }

  lemma {:induction false} CallerStarts(s: Sys, c: nat, act: CallerAct)
    requires c < |s.callers| && CallerStep(s, c, act).Some?
    ensures act != StartSource ==> CallerStep(s, c, act).value.started == s.started
    ensures act == StartSource ==>
              s.callers[c].pc.Starting? && CallerStep(s, c, act).value.started == s.started + [s.callers[c].kind]
  {
  }

  /**
   * When a start duplicates: at the moment a caller is about to start a source, an unstopped one of that kind exists
   * exactly when a drain still lists one.
   */
  lemma {:induction false} StartDuplicatesIff(s: Sys, c: nat)
    requires Reachable(s) && Next(s, Call(c, StartSource)).Some?
    ensures (exists id: nat :: Unstopped(s, id) && s.started[id] == s.callers[c].kind)
            <==> (exists id :: id in s.pending && id < |s.started| && s.started[id] == s.callers[c].kind)
  {
    ReachableSafe(s);
    StartsAreExclusive(s, Call(c, StartSource));
    hide Next, SessionInv, LockInv, KindInv;
    if id :| id in s.pending && id < |s.started| && s.started[id] == s.callers[c].kind {
      assert Unstopped(s, id);
    }
  }

  /** Two unstopped sources of one kind never coexist, except that one of them, and only one, is being drained. */
  lemma {:induction false} TwinsOnlyInADrain(s: Sys, a: SourceId, b: SourceId)
    requires Reachable(s) && Unstopped(s, a) && Unstopped(s, b) && a != b && s.started[a] == s.started[b]
    ensures (a in s.pending) != (b in s.pending)
  {
    hide SessionInv;
    ReachableSafe(s);
    if a !in s.pending { UnclaimedPlace(s, a); }
    if b !in s.pending { UnclaimedPlace(s, b); }
  }

  /**
   * No duplicate `start_video` is outstanding, exactly when no source in a drain's list has been replaced: its kind
   * is registered again, or in the lock holder's hand.
   */
  lemma {:induction false} NoDuplicateIff(s: Sys)
    requires Reachable(s)
    ensures (forall a: nat, b: nat :: Unstopped(s, a) && Unstopped(s, b) && s.started[a] == s.started[b] ==> a == b)
            <==> (forall id: nat :: id in s.pending && id < |s.started| ==> !Replaced(s, s.started[id]))
  {
    ReachableSafe(s);
    hide SessionInv, LockInv;
    if id: nat :| id in s.pending && id < |s.started| && Replaced(s, s.started[id]) {
      var k := s.started[id];
      var other := if k in s.registry then s.registry[k] else s.callers[s.lock.value].pc.source;
      assert Registered(s, other) || InHand(s, other);
      assert Unstopped(s, other) && Unstopped(s, id) && s.started[other] == k && other != id;
    } else {
      forall a: nat, b: nat | Unstopped(s, a) && Unstopped(s, b) && s.started[a] == s.started[b] ensures a == b {
        if a != b {
          TwinsOnlyInADrain(s, a, b);
          UnclaimedPlace(s, if a in s.pending then b else a);
        }
      }
    }
  }

  /** A source of this kind is registered, or has been started by the lock holder and not inserted yet. */
  predicate Replaced(s: Sys, kind: StreamKind) {
    kind in s.registry
    || (s.lock.Some? && s.lock.value < |s.callers| && s.callers[s.lock.value].pc.Inserting?
        && s.callers[s.lock.value].kind == kind)
  }

  lemma {:induction false} UnclaimedPlace(s: Sys, id: SourceId)
    requires Inv(s) && Unstopped(s, id) && id !in s.pending
    ensures (s.started[id] in s.registry && s.registry[s.started[id]] == id)
            || (InHand(s, id) && s.started[id] !in s.registry && s.callers[s.lock.value].kind == s.started[id])
  {
    hide SessionInv;
    if Registered(s, id) {
      var k :| k in s.registry && s.registry[k] == id;
    }
  }

  /** No source leaks: each one ever started is registered, stopped, in the lock holder's hand, or being drained. */
  lemma {:induction false} NoSourceLeaks(s: Sys, id: SourceId)
    requires Reachable(s) && id < |s.started|
    ensures Count(Registered(s, id)) + Count(id in s.stopped) + Count(InHand(s, id)) + Count(id in s.pending) == 1
  {
    hide SessionInv, LockInv, KindInv;
    ReachableSafe(s);
  }

  function Count(b: bool): nat { if b then 1 else 0 }

  /** A caller is only ever handed a source of the kind it asked for. */
  lemma {:induction false} ResultHasRequestedKind(s: Sys, c: nat)
    requires Reachable(s) && c < |s.callers| && s.callers[c].pc.Finished? && s.callers[c].pc.result.Some?
    ensures s.callers[c].pc.result.value < |s.started|
    ensures s.started[s.callers[c].pc.result.value] == s.callers[c].kind
  {
    hide SessionInv, LockInv, PlaceInv;
    ReachableSafe(s);
  }

  /** At every atomic step a filled slot means Connected, and `run` returns with the slot empty, Disconnected. */
  lemma {:induction false} SlotImpliesConnected(s: Sys)
    requires Reachable(s)
    ensures s.slotFilled ==> s.state == Connected
    ensures s.run == Returned ==> !s.slotFilled && s.state == Disconnected && s.pending == {}
  {
    hide LockInv, KindInv, TraceInv;
    ReachableSafe(s);
  }

  lemma {:induction false} ReachableTrace(s: Sys)
    requires Reachable(s)
    ensures TraceInv(s.trace)
  {
    hide LockInv, KindInv, PlaceInv, TraceInv;
    ReachableSafe(s);
  }

  /**
   * Between filling the slot and any later connect, the session stops its sources, then tries to log out exactly
   * once, then clears the slot, with nothing in between.
   */
  lemma {:induction false} TeardownBeforeReconnect(s: Sys, i: nat, j: nat)
    requires Reachable(s) && i < j < |s.trace| && s.trace[i] == SlotFilled && s.trace[j] == ConnectBegun
    ensures i + 4 <= j
    ensures s.trace[i..i + 4] == [SlotFilled, SourcesStopped, LogoutTried, SlotCleared]
  {
    ReachableTrace(s);
    assert MayFollow(s.trace[i], s.trace[i + 1]);
    assert MayFollow(s.trace[i + 1], s.trace[i + 2]);
    assert MayFollow(s.trace[i + 2], s.trace[i + 3]);
  }

  /** Every logout attempt belongs to exactly one session: sources stopped just before, slot cleared just after. */
  lemma {:induction false} LogoutOncePerSession(s: Sys, i: nat)
    requires Reachable(s) && i < |s.trace| && s.trace[i] == LogoutTried
    ensures 2 <= i && s.trace[i - 2..i] == [SlotFilled, SourcesStopped]
    ensures i + 1 < |s.trace| ==> s.trace[i + 1] == SlotCleared
  {
    ReachableTrace(s);
    assert MayFollow(s.trace[i - 1], s.trace[i]);
    assert MayFollow(s.trace[i - 2], s.trace[i - 1]);
  }

  /** After refused credentials the task only winds down. */
  lemma {:induction false} NoConnectAfterAuthFailure(s: Sys, i: nat, j: nat)
    requires Reachable(s) && i < j < |s.trace| && s.trace[i] == AuthFailed
    ensures s.trace[j] == FinalStop || s.trace[j] == RunReturned
  {
    ReachableTrace(s);
    assert MayFollow(s.trace[i], s.trace[i + 1]);
    if i + 2 < |s.trace| {
      assert MayFollow(s.trace[i + 1], s.trace[i + 2]);
      assert i + 3 < |s.trace| ==> MayFollow(s.trace[i + 2], s.trace[i + 3]);
    }
  }
}
