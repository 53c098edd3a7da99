/** The motion listener's wake hold: motion keeps the camera awake until a while after it stops. */
module MotionHold {
  import opened Prelude

  datatype Phase = Subscribing | Listening | BackingOff | Ended

  /** The listener's variables, with running totals of wake-lock acquisitions and releases. */
  datatype Listener = Listener(phase: Phase, guard: bool, releaseAt: Option<nat>, acquired: nat, released: nat)

  const FRESH := Listener(Subscribing, false, None, 0, 0)

  datatype Event =
    | Subscribed
    | SubscribeFailed
    | MotionStart
    | MotionStop(at: nat)
    | NoChange
    | TimerFired(at: nat)
    | StreamError
    | BackoffOver
    | Cancelled

  /** What the source's `select!` can deliver next. A cancel is not watched for during a subscription attempt. */
  predicate Enabled(l: Listener, e: Event) {
    match e
    case Subscribed => l.phase == Subscribing
    case SubscribeFailed => l.phase == Subscribing
    case MotionStart => l.phase == Listening
    case MotionStop(_) => l.phase == Listening
    case NoChange => l.phase == Listening
    case TimerFired(at) => l.phase == Listening && l.releaseAt.Some? && l.releaseAt.value <= at
    case StreamError => l.phase == Listening
    case BackoffOver => l.phase == BackingOff
    case Cancelled => l.phase == Listening || l.phase == BackingOff
  }

  function DropGuard(l: Listener): Listener {
    if l.guard then l.(guard := false, released := l.released + 1) else l
  }

  /** An error ends the subscription, but the guard stays in scope until the back-off sleep is over. */
  function Next(hold: nat, l: Listener, e: Event): Listener {
    match e
    case Subscribed => l.(phase := Listening, guard := false, releaseAt := None)
    case SubscribeFailed => l.(phase := BackingOff)
    case MotionStart =>
      l.(releaseAt := None, guard := true, acquired := if l.guard then l.acquired else l.acquired + 1)
    case MotionStop(at) => if l.guard then l.(releaseAt := Some(at + hold)) else l
    case NoChange => l
    case TimerFired(_) => DropGuard(l).(releaseAt := None)
    case StreamError => l.(phase := BackingOff, releaseAt := None)
    case BackoffOver => DropGuard(l).(phase := Subscribing)
    case Cancelled => DropGuard(l).(phase := Ended, releaseAt := None)
  }

  class WakeLock {
    var count: nat
  }

  /** The listener as the task runs it: one guard slot, one deadline, and a counter shared with others. */
  class MotionListener {
    const hold: nat
    const wakeLock: WakeLock
    var phase: Phase
    var wakeGuard: bool
    var releaseAt: Option<nat>
    ghost var acquired: nat
    ghost var released: nat

    ghost function View(): Listener
      reads this
    {
      Listener(phase, wakeGuard, releaseAt, acquired, released)
    }

    /** The counter includes this listener's guard, which is out of scope between subscriptions. */
    ghost predicate Valid()
      reads this, wakeLock
    {
      && (wakeGuard ==> wakeLock.count > 0)
      && (phase == Subscribing || phase == Ended ==> !wakeGuard)
    }

    constructor (hold: nat, wakeLock: WakeLock)
      ensures View() == FRESH && this.hold == hold && this.wakeLock == wakeLock && Valid()
    {
      this.hold, this.wakeLock := hold, wakeLock;
      phase, wakeGuard, releaseAt, acquired, released := Subscribing, false, None, 0, 0;
    }

    /** Handles one event; the shared counter moves exactly as this listener's guard does. */
    method Handle(e: Event)
      requires Valid() && Enabled(View(), e)
      modifies this, wakeLock
      ensures Valid() && View() == Next(hold, old(View()), e)
      ensures wakeLock.count - (if wakeGuard then 1 else 0) == old(wakeLock.count) - (if old(wakeGuard) then 1 else 0)
    {
      match e
      case Subscribed =>
        phase, wakeGuard, releaseAt := Listening, false, None;
      case SubscribeFailed =>
        phase := BackingOff;
      case MotionStart =>
        releaseAt := None;
        if !wakeGuard {
          wakeGuard, wakeLock.count := true, wakeLock.count + 1;
          acquired := acquired + 1;
        }
      case MotionStop(at) =>
        if wakeGuard { releaseAt := Some(at + hold); }
      case NoChange =>
      case TimerFired(_) =>
        ReleaseGuard();
        releaseAt := None;
      case StreamError =>
        phase, releaseAt := BackingOff, None;
      case BackoffOver =>
        ReleaseGuard();
        phase := Subscribing;
      case Cancelled =>
        ReleaseGuard();
        phase, releaseAt := Ended, None;
    }

    method ReleaseGuard()
      requires wakeGuard ==> wakeLock.count > 0
      modifies this`wakeGuard, this`released, wakeLock
      ensures View() == DropGuard(old(View())) && !wakeGuard
      ensures wakeLock.count == old(wakeLock.count) - (if old(wakeGuard) then 1 else 0)
    {
      if wakeGuard {
        wakeGuard, wakeLock.count := false, wakeLock.count - 1;
        released := released + 1;
      }
    }
  }

  // ----- Every run -----

  /** The listener after a sequence of events each of which it could receive. */
  function Run(hold: nat, es: seq<Event>): Option<Listener> {
    if es == [] then Some(FRESH)
    else match Run(hold, es[..|es| - 1])
      case None => None
      case Some(l) => if Enabled(l, es[|es| - 1]) then Some(Next(hold, l, es[|es| - 1])) else None
  }

  ghost predicate Inv(l: Listener) {
    && l.acquired == l.released + (if l.guard then 1 else 0)
    && (l.releaseAt.Some? ==> l.guard && l.phase == Listening)
    && (l.phase == Subscribing || l.phase == Ended ==> !l.guard)
  }

  /**
   * Whatever happens, at most one guard is outstanding and every earlier one was released; a pending release
   * implies a held guard; a subscription attempt, and hence every new subscription, starts without one.
   */
  lemma {:induction false} OneGuard(hold: nat, es: seq<Event>)
    requires Run(hold, es).Some?
    ensures Inv(Run(hold, es).value)
  {
    if es != [] { OneGuard(hold, es[..|es| - 1]); }
  }

  /** A subscription is up: since it was made nothing but motion reports and timer releases came. */
  ghost predicate Subscription(es: seq<Event>) {
    exists i :: 0 <= i < |es| && es[i].Subscribed? && forall k :: i < k < |es| ==> Report(es[k])
  }

  predicate Report(e: Event) {
    e.MotionStart? || e.MotionStop? || e.NoChange? || e.TimerFired?
  }

  lemma {:induction false} SubscriptionStep(front: seq<Event>, e: Event)
    ensures Subscription(front + [e]) <==> (e.Subscribed? || (Subscription(front) && Report(e)))
  {
    var es := front + [e];
    assert forall k :: 0 <= k < |front| ==> es[k] == front[k];
    assert es[|front|] == e;
    if Subscription(front) && Report(e) {
      var i :| 0 <= i < |front| && front[i].Subscribed? && forall k :: i < k < |front| ==> Report(front[k]);
      assert es[i].Subscribed?;
    }
    if Subscription(es) && !e.Subscribed? {
      var i :| 0 <= i < |es| && es[i].Subscribed? && forall k :: i < k < |es| ==> Report(es[k]);
      assert front[i].Subscribed?;
      assert Report(es[|front|]);
    }
  }

  /** What the listener is doing, read off the events alone. */
  lemma {:induction false} PhaseIff(hold: nat, es: seq<Event>)
    requires Run(hold, es).Some?
    ensures var phase := Run(hold, es).value.phase;
      && (phase == Listening <==> Subscription(es))
      && (phase == BackingOff <==> es != [] && (es[|es| - 1].SubscribeFailed? || es[|es| - 1].StreamError?))
      && (phase == Subscribing <==> es == [] || es[|es| - 1].BackoffOver?)
      && (phase == Ended <==> es != [] && es[|es| - 1].Cancelled?)
  {
    if es != [] {
      var front := es[..|es| - 1];
      PhaseIff(hold, front);
      SubscriptionStep(front, es[|es| - 1]);
      assert es == front + [es[|es| - 1]];
    }
  }

  /** A cancel is the last thing a listener sees: nothing is subscribed to, or held awake, after it. */
  lemma {:induction false} CancelIsLast(hold: nat, es: seq<Event>, i: nat)
    requires Run(hold, es).Some? && i < |es| && es[i].Cancelled?
    ensures i == |es| - 1
    ensures Run(hold, es).value.phase == Ended && !Run(hold, es).value.guard
  {
    PhaseIff(hold, es);
    OneGuard(hold, es);
    if i < |es| - 1 {
      NothingAfterEnd(hold, es, i);
      assert false;
    }
  }

  lemma {:induction false} NothingAfterEnd(hold: nat, es: seq<Event>, i: nat)
    requires i < |es| - 1 && es[i].Cancelled?
    ensures Run(hold, es).None?
  {
    var front := es[..|es| - 1];
    if i < |front| - 1 {
      NothingAfterEnd(hold, front, i);
    } else if Run(hold, front).Some? {
      PhaseIff(hold, front);
    }
  }

  predicate EndsHold(e: Event) {
    e.TimerFired? || e.BackoffOver? || e.Cancelled?
  }

  /** A Start after which nothing has let go of the guard. */
  ghost predicate MotionHeld(es: seq<Event>) {
    exists i :: 0 <= i < |es| && es[i].MotionStart? && forall k :: i < k < |es| ==> !EndsHold(es[k])
  }

  lemma {:induction false} MotionHeldStep(front: seq<Event>, e: Event)
    ensures MotionHeld(front + [e]) <==> (e.MotionStart? || (MotionHeld(front) && !EndsHold(e)))
  {
    var es := front + [e];
    assert forall k :: 0 <= k < |front| ==> es[k] == front[k];
    assert es[|front|] == e;
    if MotionHeld(front) && !EndsHold(e) {
      var i :| 0 <= i < |front| && front[i].MotionStart? && forall k :: i < k < |front| ==> !EndsHold(front[k]);
      assert es[i].MotionStart?;
    }
    if MotionHeld(es) && !e.MotionStart? {
      var i :| 0 <= i < |es| && es[i].MotionStart? && forall k :: i < k < |es| ==> !EndsHold(es[k]);
      assert front[i].MotionStart?;
      assert !EndsHold(es[|front|]);
    }
  }

  /** Exactly then is the camera held awake: since some Start no timer fired, no back-off ended, no cancel came. */
  lemma {:induction false} GuardIffMotionHeld(hold: nat, es: seq<Event>)
    requires Run(hold, es).Some?
    ensures Run(hold, es).value.guard <==> MotionHeld(es)
  {
    if es != [] {
      var front := es[..|es| - 1];
      OneGuard(hold, front);
      GuardIffMotionHeld(hold, front);
      MotionHeldStep(front, es[|es| - 1]);
      assert es == front + [es[|es| - 1]];
    }
  }

  /** The latest Stop at `i`, followed by nothing but idle reports. */
  predicate StopStands(es: seq<Event>, i: nat) {
    i < |es| && es[i].MotionStop? && forall k :: i < k < |es| ==> es[k].NoChange?
  }

  lemma {:induction false} PendingReleaseFromStop(hold: nat, es: seq<Event>) returns (i: nat)
    requires Run(hold, es).Some? && Run(hold, es).value.releaseAt.Some?
    ensures StopStands(es, i) && Run(hold, es).value.releaseAt.value == es[i].at + hold
    ensures MotionHeld(es[..i])
  {
    var n := |es| - 1;
    var front := es[..n];
    if es[n].MotionStop? && Run(hold, front).value.guard {
      i := n;
      GuardIffMotionHeld(hold, front);
    } else {
      OneGuard(hold, front);
      assert es[n].NoChange?;
      i := PendingReleaseFromStop(hold, front);
      assert es[..i] == front[..i];
      assert forall k :: i < k < |es| ==> k == n || es[k] == front[k];
    }
  }

  /** Conversely, a Stop during held motion schedules its release, and idle reports do not undo that. */
  lemma {:induction false} StopSchedulesRelease(hold: nat, es: seq<Event>, i: nat)
    requires Run(hold, es).Some? && StopStands(es, i) && MotionHeld(es[..i])
    ensures Run(hold, es).value.releaseAt == Some(es[i].at + hold)
    ensures Enabled(Run(hold, es).value, TimerFired(es[i].at + hold))
    decreases |es|
  {
    hide MotionHeld;
    var n := |es| - 1;
    var front := es[..n];
    if i == n {
      GuardIffMotionHeld(hold, front);
    } else {
      assert front[..i] == es[..i];
      StopSchedulesRelease(hold, front, i);
    }
  }

  /**
   * A timer release comes at least `hold` after the latest Stop, with no Start, no error and no other release
   * since, and it releases a guard that was held.
   */
  lemma {:induction false} TimerReleaseIsLate(hold: nat, es: seq<Event>, at: nat) returns (i: nat)
    requires Run(hold, es + [TimerFired(at)]).Some?
    ensures StopStands(es, i) && es[i].at + hold <= at
    ensures MotionHeld(es[..i]) && MotionHeld(es) && !MotionHeld(es + [TimerFired(at)])
    ensures Run(hold, es + [TimerFired(at)]).value.released == Run(hold, es).value.released + 1
  {
    var all := es + [TimerFired(at)];
    assert all[..|es|] == es && all[|es|] == TimerFired(at);
    OneGuard(hold, es);
    GuardIffMotionHeld(hold, es);
    GuardIffMotionHeld(hold, all);
    i := PendingReleaseFromStop(hold, es);
  }

  /**
   * Exactly what the listener can be sent after a run, read off the run's events: it subscribes at the start and after
   * a back-off; it hears of motion, or of an error, while subscribed; its timer fires once the hold is over; it backs
   * off after a failure; and a cancel reaches it whenever it is not subscribing and has not ended.
   */
  lemma {:induction false} MayFollowIff(hold: nat, es: seq<Event>, e: Event)
    requires Run(hold, es).Some?
    ensures Run(hold, es + [e]).Some? <==>
            match e
            case Subscribed => es == [] || es[|es| - 1].BackoffOver?
            case SubscribeFailed => es == [] || es[|es| - 1].BackoffOver?
            case TimerFired(at) => exists i: nat :: StopStands(es, i) && MotionHeld(es[..i]) && es[i].at + hold <= at
            case BackoffOver => es != [] && (es[|es| - 1].SubscribeFailed? || es[|es| - 1].StreamError?)
            case Cancelled =>
              Subscription(es) || (es != [] && (es[|es| - 1].SubscribeFailed? || es[|es| - 1].StreamError?))
            case _ => Subscription(es)
  {
    hide Subscription, MotionHeld, StopStands;
    var all := es + [e];
    assert all[..|es|] == es && all[|es|] == e;
    PhaseIff(hold, es);
    if e.TimerFired? { TimerMayFireIff(hold, es, e.at); }
  }

  lemma {:induction false} TimerMayFireIff(hold: nat, es: seq<Event>, at: nat)
    requires Run(hold, es).Some?
    ensures Enabled(Run(hold, es).value, TimerFired(at))
            <==> exists i: nat :: StopStands(es, i) && MotionHeld(es[..i]) && es[i].at + hold <= at
  {
    hide Run, MotionHeld;
    OneGuard(hold, es);
    if Run(hold, es).value.releaseAt.Some? {
      var i := PendingReleaseFromStop(hold, es);
      assert es[i].at + hold <= at <==> Enabled(Run(hold, es).value, TimerFired(at));
    }
    forall i: nat | StopStands(es, i) && MotionHeld(es[..i])
      ensures Run(hold, es).value.releaseAt == Some(es[i].at + hold)
    {
      StopSchedulesRelease(hold, es, i);
    }
  }
}
