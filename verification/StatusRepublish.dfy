/** Status reporting: every cached value has reached the broker, and refills it after its retained store is lost. */
module StatusRepublish {
  import opened Prelude
  import opened Decimal

  datatype CameraEvent =
    | Connection(online: bool)
    | Motion(detected: bool)
    | MotionUnknown
    | BatteryLevel(percent: nat)
    | Floodlight(on: bool)
    | FloodlightTasks(enabled: bool)
    | Pir(active: bool)
    | Preview(base64: string)

  /** One retained topic per status value of a camera. */
  datatype Topic = StatusTopic | MotionTopic | BatteryTopic | FloodlightTopic | TasksTopic | PirTopic | PreviewTopic

  function TopicOf(e: CameraEvent): Topic {
    match e
    case Connection(_) => StatusTopic
    case Motion(_) => MotionTopic
    case MotionUnknown => MotionTopic
    case BatteryLevel(_) => BatteryTopic
    case Floodlight(_) => FloodlightTopic
    case FloodlightTasks(_) => TasksTopic
    case Pir(_) => PirTopic
    case Preview(_) => PreviewTopic
  }

  function OnOff(b: bool): string { if b then "on" else "off" }

  function PayloadOf(e: CameraEvent): string {
    match e
    case Connection(online) => if online then "connected" else "disconnected"
    case Motion(detected) => OnOff(detected)
    case MotionUnknown => "unknown"
    case BatteryLevel(percent) => Digits(Min(percent, 100))
    case Floodlight(on) => "{\"state\":\"" + OnOff(on) + "\"}"
    case FloodlightTasks(enabled) => OnOff(enabled)
    case Pir(active) => OnOff(active)
    case Preview(base64) => base64
  }

  /** A broker's retained messages for one camera; an empty payload deletes (section 3.3.1.3 of MQTT 3.1.1). */
  type Retained = map<Topic, string>

  function Deliver(r: Retained, e: CameraEvent): Retained {
    if PayloadOf(e) == "" then r - {TopicOf(e)} else r[TopicOf(e) := PayloadOf(e)]
  }

  datatype Cache = Cache(
    battery: Option<nat>,
    motion: Option<bool>,
    floodlight: Option<bool>,
    tasks: Option<bool>,
    pir: Option<bool>)

  const EMPTY_CACHE := Cache(None, None, None, None, None)

  function Remember(c: Cache, e: CameraEvent): Cache {
    match e
    case Motion(v) => c.(motion := Some(v))
    case BatteryLevel(v) => c.(battery := Some(v))
    case Floodlight(v) => c.(floodlight := Some(v))
    case FloodlightTasks(v) => c.(tasks := Some(v))
    case Pir(v) => c.(pir := Some(v))
    case _ => c
  }

  predicate Cacheable(e: CameraEvent) {
    e.Motion? || e.BatteryLevel? || e.Floodlight? || e.FloodlightTasks? || e.Pir?
  }

  /** What the cache would republish on a topic. */
  function Cached(c: Cache, t: Topic): Option<CameraEvent> {
    match t
    case BatteryTopic => if c.battery.Some? then Some(BatteryLevel(c.battery.value)) else None
    case MotionTopic => if c.motion.Some? then Some(Motion(c.motion.value)) else None
    case FloodlightTopic => if c.floodlight.Some? then Some(Floodlight(c.floodlight.value)) else None
    case TasksTopic => if c.tasks.Some? then Some(FloodlightTasks(c.tasks.value)) else None
    case PirTopic => if c.pir.Some? then Some(Pir(c.pir.value)) else None
    case _ => None
  }

  /** The republish order of the source. */
  const REPUBLISH_ORDER: seq<Topic> := [BatteryTopic, MotionTopic, FloodlightTopic, TasksTopic, PirTopic]

  class StatusCache {
    var batteryLevel: Option<nat>
    var motion: Option<bool>
    var floodlight: Option<bool>
    var floodlightTasks: Option<bool>
    var pir: Option<bool>

    function View(): Cache
      reads this
    {
      Cache(batteryLevel, motion, floodlight, floodlightTasks, pir)
    }

    constructor ()
      ensures View() == EMPTY_CACHE
    {
      batteryLevel, motion, floodlight, floodlightTasks, pir := None, None, None, None, None;
    }
  }

  class Broker {
    var retained: Retained
  }

  /** One camera's reporter: the only place that publishes, and the only place that writes the cache. */
  class MqttStatusReporter {
    const cache: StatusCache
    const broker: Broker

    constructor (cache: StatusCache, broker: Broker)
      ensures this.cache == cache && this.broker == broker
    {
      this.cache, this.broker := cache, broker;
    }

    /** Publish, then cache; a publish that fails changes nothing. `delivered` is the network's answer. */
    method Report(e: CameraEvent, delivered: bool) returns (ok: bool)
      modifies cache, broker
      ensures ok == delivered
      ensures broker.retained == if delivered then Deliver(old(broker.retained), e) else old(broker.retained)
      ensures cache.View() == if delivered then Remember(old(cache.View()), e) else old(cache.View())
    {
      if !delivered { return false; }
      broker.retained := Deliver(broker.retained, e);
      match e {
        case Motion(v) => cache.motion := Some(v);
        case BatteryLevel(v) => cache.batteryLevel := Some(v);
        case Floodlight(v) => cache.floodlight := Some(v);
        case FloodlightTasks(v) => cache.floodlightTasks := Some(v);
        case Pir(v) => cache.pir := Some(v);
        case _ =>
      }
      ok := true;
    }

    /** Re-emits the cached values in order, giving up at the first failure; the cache never changes. */
    method RepublishCachedStatus(delivered: seq<bool>) returns (ok: bool)
      requires |delivered| == |REPUBLISH_ORDER|
      modifies cache, broker
      ensures cache.View() == old(cache.View())
      ensures ok <==> FirstFailure(old(cache.View()), delivered, 0) == |REPUBLISH_ORDER|
      ensures broker.retained
              == Refill(old(broker.retained), old(cache.View()), FirstFailure(old(cache.View()), delivered, 0))
    {
      ghost var view := cache.View();
      ghost var before := broker.retained;
      ghost var stop := FirstFailure(view, delivered, 0);
      for i := 0 to |REPUBLISH_ORDER|
        invariant cache.View() == view
        invariant i <= stop == FirstFailure(view, delivered, i)
        invariant broker.retained == Refill(before, view, i)
      {
        var event := Cached(cache.View(), REPUBLISH_ORDER[i]);
        if event.Some? {
          RememberAgain(view, REPUBLISH_ORDER[i]);
          var sent := Report(event.value, delivered[i]);
          if !sent { return false; }
        }
      }
      ok := true;
    }
  }

  /** Position in the republish order at which a given network outcome stops the loop. */
  function FirstFailure(c: Cache, delivered: seq<bool>, i: nat): (k: nat)
    requires i <= |REPUBLISH_ORDER| == |delivered|
    ensures i <= k <= |REPUBLISH_ORDER|
    ensures k < |REPUBLISH_ORDER| ==> Cached(c, REPUBLISH_ORDER[k]).Some? && !delivered[k]
    ensures forall j :: i <= j < k ==> Cached(c, REPUBLISH_ORDER[j]).None? || delivered[j]
    decreases |REPUBLISH_ORDER| - i
  {
    if i == |REPUBLISH_ORDER| then i
    else if Cached(c, REPUBLISH_ORDER[i]).Some? && !delivered[i] then i
    else FirstFailure(c, delivered, i + 1)
  }

  /** A network that delivers everything lets the loop run to its end. */
  lemma {:induction false} ErrorFreeNeverStops(c: Cache, delivered: seq<bool>, i: nat)
    requires i <= |REPUBLISH_ORDER| == |delivered| && forall k :: 0 <= k < |delivered| ==> delivered[k]
    ensures FirstFailure(c, delivered, i) == |REPUBLISH_ORDER|
    decreases |REPUBLISH_ORDER| - i
  {
    if i < |REPUBLISH_ORDER| { ErrorFreeNeverStops(c, delivered, i + 1); }
  }

  /** The retained store after the first `k` positions of the republish order. */
  function Refill(r: Retained, c: Cache, k: nat): Retained
    requires k <= |REPUBLISH_ORDER|
  {
    if k == 0 then r
    else
      var event := Cached(c, REPUBLISH_ORDER[k - 1]);
      if event.Some? then Deliver(Refill(r, c, k - 1), event.value) else Refill(r, c, k - 1)
  }

  lemma {:induction false} RememberAgain(c: Cache, t: Topic)
    requires Cached(c, t).Some?
    ensures Remember(c, Cached(c, t).value) == c
    ensures TopicOf(Cached(c, t).value) == t && Cacheable(Cached(c, t).value)
  {
  }

  lemma {:induction false} CacheableHasPayload(e: CameraEvent)
    requires Cacheable(e) || e.MotionUnknown?
    ensures PayloadOf(e) != ""
  {
    if e.BatteryLevel? { assert |Digits(Min(e.percent, 100))| > 0; }
  }

  function ReadOnOff(payload: string): Option<bool> {
    if payload == OnOff(true) then Some(true) else if payload == OnOff(false) then Some(false) else None
  }

  /** How a subscriber reads a retained message back. */
  function ReadStatus(t: Topic, payload: string): Option<CameraEvent> {
    match t
    case StatusTopic =>
      if payload == "connected" then Some(Connection(true))
      else if payload == "disconnected" then Some(Connection(false)) else None
    case MotionTopic =>
      if payload == "unknown" then Some(MotionUnknown)
      else if ReadOnOff(payload).Some? then Some(Motion(ReadOnOff(payload).value)) else None
    case BatteryTopic =>
      if ReadNat(payload).Some? then Some(BatteryLevel(ReadNat(payload).value)) else None
    case FloodlightTopic =>
      if payload == "{\"state\":\"on\"}" then Some(Floodlight(true))
      else if payload == "{\"state\":\"off\"}" then Some(Floodlight(false)) else None
    case TasksTopic => if ReadOnOff(payload).Some? then Some(FloodlightTasks(ReadOnOff(payload).value)) else None
    case PirTopic => if ReadOnOff(payload).Some? then Some(Pir(ReadOnOff(payload).value)) else None
    case PreviewTopic => Some(Preview(payload))
  }

  /** Every report is read back as itself, a battery level clamped to 100. */
  lemma {:induction false} SubscriberReads(e: CameraEvent)
    ensures ReadStatus(TopicOf(e), PayloadOf(e))
            == Some(if e.BatteryLevel? then BatteryLevel(Min(e.percent, 100)) else e)
  {
    if e.BatteryLevel? {
      DigitsReadBack(Min(e.percent, 100));
    } else if e.Floodlight? {
      assert "{\"state\":\"" + "on" + "\"}" == "{\"state\":\"on\"}";
      assert "{\"state\":\"" + "off" + "\"}" == "{\"state\":\"off\"}";
    }
  }

  // ----- Any history of reports -----

  /** A report and whether it reached the broker. */
  datatype Attempt = Attempt(event: CameraEvent, delivered: bool)

  function CacheAfter(hist: seq<Attempt>): Cache {
    if hist == [] then EMPTY_CACHE
    else
      var last := hist[|hist| - 1];
      var before := CacheAfter(hist[..|hist| - 1]);
      if last.delivered then Remember(before, last.event) else before
  }

  function RetainedAfter(hist: seq<Attempt>): Retained {
    if hist == [] then map[]
    else
      var last := hist[|hist| - 1];
      var before := RetainedAfter(hist[..|hist| - 1]);
      if last.delivered then Deliver(before, last.event) else before
  }

  /** Attempt `i` is the latest delivered one that satisfies `p`. */
  predicate IsLatest(hist: seq<Attempt>, p: CameraEvent -> bool, i: nat)
    requires i < |hist|
  {
    hist[i].delivered && p(hist[i].event)
    && forall k :: i < k < |hist| ==> !(hist[k].delivered && p(hist[k].event))
  }

  /** The latest delivered event that satisfies `p`. */
  function Latest(hist: seq<Attempt>, p: CameraEvent -> bool): (e: Option<CameraEvent>)
    ensures e.Some? ==> exists i :: 0 <= i < |hist| && IsLatest(hist, p, i) && hist[i].event == e.value
    ensures e.None? ==> forall i :: 0 <= i < |hist| ==> !(hist[i].delivered && p(hist[i].event))
  {
    if hist == [] then None
    else
      var n := |hist| - 1;
      if hist[n].delivered && p(hist[n].event) then
        assert IsLatest(hist, p, n);
        Some(hist[n].event)
      else
        var e := Latest(hist[..n], p);
        assert e.Some? ==> exists i :: 0 <= i < |hist| && IsLatest(hist, p, i) && hist[i].event == e.value by {
          if e.Some? {
            var i :| 0 <= i < n && IsLatest(hist[..n], p, i) && hist[..n][i].event == e.value;
            assert IsLatest(hist, p, i);
          }
        }
        e
  }

  function CacheableOn(t: Topic): CameraEvent -> bool {
    (e: CameraEvent) => Cacheable(e) && TopicOf(e) == t
  }

  function AnyOn(t: Topic): CameraEvent -> bool {
    (e: CameraEvent) => TopicOf(e) == t
  }

  lemma {:induction false} NothingCached(t: Topic)
    ensures Cached(EMPTY_CACHE, t) == None
  {
  }

  /** Remembering an event changes what is cached on its own topic and on no other. */
  lemma {:induction false} RememberStep(c: Cache, e: CameraEvent, t: Topic)
    ensures Cached(Remember(c, e), t) == if Cacheable(e) && TopicOf(e) == t then Some(e) else Cached(c, t)
  {
  }

  /** Each cache field is the value of the latest delivered event of its kind, through any failures. */
  lemma {:induction false} CacheIsLatest(hist: seq<Attempt>, t: Topic)
    ensures Cached(CacheAfter(hist), t) == Latest(hist, CacheableOn(t))
  {
    hide Remember, Cached, Cacheable, TopicOf;
    if hist == [] {
      NothingCached(t);
    } else {
      var n := |hist| - 1;
      CacheIsLatest(hist[..n], t);
      RememberStep(CacheAfter(hist[..n]), hist[n].event, t);
    }
  }

  lemma {:induction false} RetainedIsLatest(hist: seq<Attempt>, t: Topic)
    ensures var e := Latest(hist, AnyOn(t));
      if e.None? || PayloadOf(e.value) == "" then t !in RetainedAfter(hist)
      else t in RetainedAfter(hist) && RetainedAfter(hist)[t] == PayloadOf(e.value)
  {
    if hist != [] { RetainedIsLatest(hist[..|hist| - 1], t); }
  }

  predicate AlreadyIn(t: Topic, k: nat)
    requires k <= |REPUBLISH_ORDER|
  {
    exists i :: 0 <= i < k && REPUBLISH_ORDER[i] == t
  }

  /** What a (possibly interrupted) republish leaves on each topic. */
  lemma {:induction false} RefillTopic(r: Retained, c: Cache, k: nat, t: Topic)
    requires k <= |REPUBLISH_ORDER|
    ensures var event := Cached(c, t);
      if AlreadyIn(t, k) && event.Some?
      then t in Refill(r, c, k) && Refill(r, c, k)[t] == PayloadOf(event.value)
      else (t in Refill(r, c, k) <==> t in r) && (t in r ==> Refill(r, c, k)[t] == r[t])
  {
    hide PayloadOf, Cached, Cacheable;
    if k > 0 {
      RefillTopic(r, c, k - 1, t);
      var head := REPUBLISH_ORDER[k - 1];
      assert AlreadyIn(t, k) <==> AlreadyIn(t, k - 1) || head == t;
      if Cached(c, head).Some? {
        RememberAgain(c, head);
        CacheableHasPayload(Cached(c, head).value);
      }
    }
  }

  lemma {:induction false} OrderIsComplete(c: Cache, t: Topic)
    ensures Cached(c, t).Some? ==> AlreadyIn(t, |REPUBLISH_ORDER|)
  {
    var o := REPUBLISH_ORDER;
    assert o[0] == BatteryTopic && o[1] == MotionTopic && o[2] == FloodlightTopic;
    assert o[3] == TasksTopic && o[4] == PirTopic;
  }

  /**
   * Recovery: after any history, a broker wipe and an error-free republish, each topic holds exactly the payload
   * of the latest delivered cacheable event on it, and the topics without one are absent.
   */
  lemma {:induction false} RepublishRecovers(hist: seq<Attempt>, t: Topic)
    ensures var refilled := Refill(map[], CacheAfter(hist), |REPUBLISH_ORDER|);
      match Latest(hist, CacheableOn(t))
      case Some(e) => t in refilled && refilled[t] == PayloadOf(e)
      case None => t !in refilled
  {
    hide CacheAfter, Refill, Latest;
    CacheIsLatest(hist, t);
    RefillTopic(map[], CacheAfter(hist), |REPUBLISH_ORDER|, t);
    OrderIsComplete(CacheAfter(hist), t);
  }

  function Lookup(r: Retained, t: Topic): Option<string> {
    if t in r then Some(r[t]) else None
  }

  /**
   * The motion topic is put back as it was exactly when the latest delivery on it was not "unknown": that report
   * changes the retained value but not the cache.
   */
  lemma {:induction false} MotionRecoversIff(hist: seq<Attempt>)
    ensures Lookup(Refill(map[], CacheAfter(hist), |REPUBLISH_ORDER|), MotionTopic)
            == Lookup(RetainedAfter(hist), MotionTopic)
            <==> Latest(hist, AnyOn(MotionTopic)) != Some(MotionUnknown)
  {
    hide CacheAfter, RetainedAfter, Refill, Latest;
    RepublishRecovers(hist, MotionTopic);
    RetainedIsLatest(hist, MotionTopic);
    LatestMotion(hist);
  }

  /** The reports `run` makes: "unknown" at startup only, before any motion has been seen. */
  predicate UnknownFirst(hist: seq<Attempt>) {
    forall i, j :: 0 <= i < j < |hist| && hist[j].event.MotionUnknown? ==> !hist[i].event.Motion?
  }

  /** Reported in that order, a lost "unknown" comes back as no retained motion message at all. */
  lemma {:induction false} UnknownIsNotRestored(hist: seq<Attempt>)
    requires UnknownFirst(hist) && Latest(hist, AnyOn(MotionTopic)) == Some(MotionUnknown)
    ensures Lookup(RetainedAfter(hist), MotionTopic) == Some("unknown")
    ensures Lookup(Refill(map[], CacheAfter(hist), |REPUBLISH_ORDER|), MotionTopic) == None
  {
    hide CacheAfter, RetainedAfter, Refill;
    RepublishRecovers(hist, MotionTopic);
    RetainedIsLatest(hist, MotionTopic);
    var p := AnyOn(MotionTopic);
    var i :| 0 <= i < |hist| && IsLatest(hist, p, i) && hist[i].event == MotionUnknown;
    forall j | 0 <= j < |hist| ensures !(hist[j].delivered && CacheableOn(MotionTopic)(hist[j].event)) {
      assert i < j ==> !(hist[j].delivered && p(hist[j].event));
    }
  }

  /** A first connection that has only published "unknown" loses it to a wipe. */
  lemma {:induction false} StartupUnknownLost()
    ensures var hist := [Attempt(MotionUnknown, true)];
      && Lookup(RetainedAfter(hist), MotionTopic) == Some("unknown")
      && Lookup(Refill(map[], CacheAfter(hist), |REPUBLISH_ORDER|), MotionTopic) == None
  {
    var hist := [Attempt(MotionUnknown, true)];
    assert hist[..0] == [];
    assert Latest(hist, AnyOn(MotionTopic)) == Some(MotionUnknown);
    UnknownIsNotRestored(hist);
  }

  lemma {:induction false} LatestMotion(hist: seq<Attempt>)
    ensures var any := Latest(hist, AnyOn(MotionTopic));
      var cacheable := Latest(hist, CacheableOn(MotionTopic));
      && (any != Some(MotionUnknown) ==> any == cacheable)
      && (any.Some? ==> any.value.Motion? || any.value.MotionUnknown?)
      && (cacheable.Some? ==> cacheable.value.Motion?)
  {
    if hist != [] { LatestMotion(hist[..|hist| - 1]); }
  }

  /** On every other cached topic the wipe is undone completely. */
  lemma {:induction false} OtherTopicsRecover(hist: seq<Attempt>, t: Topic)
    requires t in REPUBLISH_ORDER && t != MotionTopic
    ensures Lookup(Refill(map[], CacheAfter(hist), |REPUBLISH_ORDER|), t) == Lookup(RetainedAfter(hist), t)
  {
    hide CacheAfter, RetainedAfter, Refill, Latest, PayloadOf;
    RepublishRecovers(hist, t);
    RetainedIsLatest(hist, t);
    SameLatest(hist, t);
    var e := Latest(hist, AnyOn(t));
    if e.Some? { CacheableHasPayload(e.value); }
  }

  lemma {:induction false} SameLatest(hist: seq<Attempt>, t: Topic)
    requires t in REPUBLISH_ORDER && t != MotionTopic
    ensures Latest(hist, AnyOn(t)) == Latest(hist, CacheableOn(t))
    ensures Latest(hist, AnyOn(t)).Some? ==> Cacheable(Latest(hist, AnyOn(t)).value)
  {
    if hist != [] { SameLatest(hist[..|hist| - 1], t); }
  }

  // ----- The whole fleet -----

  /** The ConnAck loop: every camera is republished in turn, and one camera's failure does not stop the others. */
  method HandleConnack(cameras: seq<MqttStatusReporter>, delivered: seq<seq<bool>>) returns (failed: set<nat>)
    requires |cameras| == |delivered|
    requires forall i :: 0 <= i < |cameras| ==> |delivered[i]| == |REPUBLISH_ORDER|
    requires forall i, j :: 0 <= i < j < |cameras| ==>
               cameras[i].cache != cameras[j].cache && cameras[i].broker != cameras[j].broker
    modifies set i | 0 <= i < |cameras| :: cameras[i].cache
    modifies set i | 0 <= i < |cameras| :: cameras[i].broker
    ensures forall i :: 0 <= i < |cameras| ==>
              var view := old(cameras[i].cache.View());
              && cameras[i].cache.View() == view
              && (i in failed <==> FirstFailure(view, delivered[i], 0) < |REPUBLISH_ORDER|)
              && cameras[i].broker.retained
                 == Refill(old(cameras[i].broker.retained), view, FirstFailure(view, delivered[i], 0))
  {
    failed := {};
    for n := 0 to |cameras|
      invariant forall i :: i in failed ==> i < n
      invariant forall i :: n <= i < |cameras| ==>
                  && cameras[i].cache.View() == old(cameras[i].cache.View())
                  && cameras[i].broker.retained == old(cameras[i].broker.retained)
      invariant forall i :: 0 <= i < n ==>
                  var view := old(cameras[i].cache.View());
                  && cameras[i].cache.View() == view
                  && (i in failed <==> FirstFailure(view, delivered[i], 0) < |REPUBLISH_ORDER|)
                  && cameras[i].broker.retained
                     == Refill(old(cameras[i].broker.retained), view, FirstFailure(view, delivered[i], 0))
    {
      hide Refill, FirstFailure;
      var ok := cameras[n].RepublishCachedStatus(delivered[n]);
      if !ok { failed := failed + {n}; }
    }
  }
}
