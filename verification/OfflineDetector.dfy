/** Devices that fall silent: the seen/offline machine with its silence scan, and the view that folds its detections. */
module OfflineDetectors {
  import opened Prelude
  import opened Detections
  import P = OfflineCountProjections

  datatype DeviceState = Seen | Offline

  /** An event with the device it identifies, if any. */
  datatype DeviceEvent = DeviceEvent(eventId: string, timestamp: int, deviceId: Option<string>)

  /** The store lookup at the time of one call. */
  type Lookup = map<string, StoreId>

  /** `order` lists the devices as the two mappings iterate: by first appearance. */
  datatype DetectorState =
    DetectorState(order: seq<string>, lastSeen: map<string, int>, state: map<string, DeviceState>)

  ghost predicate Consistent(st: DetectorState) {
    && NoDuplicates(st.order)
    && (forall d :: d in st.order <==> d in st.lastSeen)
    && st.lastSeen.Keys == st.state.Keys
  }

  function DetectionOf(kind: DetectionType, device: string, store: StoreId, e: DeviceEvent): Detection {
    Detection(OfDevice(kind, store, device, e.eventId), kind, e.timestamp, store, Some(device), None)
  }

  /** The device of the event is marked as seen now. */
  function Touched(st: DetectorState, device: string, ts: int): DetectorState {
    DetectorState(if device in st.lastSeen then st.order else st.order + [device],
                  st.lastSeen[device := ts], st.state[device := Seen])
  }

  predicate Breached(st: DetectorState, lookup: Lookup, threshold: int, now: int, device: string) {
    && device in st.state && device in st.lastSeen
    && st.state[device] == Seen && now - st.lastSeen[device] > threshold && device in lookup
  }

  function Scanned(st: DetectorState, lookup: Lookup, threshold: int, now: int): DetectorState {
    st.(state := map d | d in st.state :: if Breached(st, lookup, threshold, now, d) then Offline else st.state[d])
  }

  /** One detection for each breaching device, in iteration order. */
  function Breaches(st: DetectorState, order: seq<string>, lookup: Lookup, threshold: int, e: DeviceEvent)
    : seq<Detection>
  {
    if order == [] then []
    else
      var past := Breaches(st, order[..|order| - 1], lookup, threshold, e);
      var d := order[|order| - 1];
      if Breached(st, lookup, threshold, e.timestamp, d) then past + [DetectionOf(DeviceOffline, d, lookup[d], e)]
      else past
  }

  function Recovery(st: DetectorState, device: string, lookup: Lookup, e: DeviceEvent): seq<Detection> {
    if device in st.state && st.state[device] == Offline && device in lookup
    then [DetectionOf(DeviceOnline, device, lookup[device], e)]
    else []
  }

  datatype Outcome = Outcome(st: DetectorState, detections: seq<Detection>)

  function Observed(st: DetectorState, threshold: int, e: DeviceEvent, lookup: Lookup): Outcome {
    if e.deviceId.None? then Outcome(st, [])
    else
      var touched := Touched(st, e.deviceId.value, e.timestamp);
      Outcome(Scanned(touched, lookup, threshold, e.timestamp),
              Recovery(st, e.deviceId.value, lookup, e)
              + Breaches(touched, touched.order, lookup, threshold, e))
  }

  /** The detection is a transition of a registered device, at its store, and dated by the event. */
  predicate SaysWhatHappened(d: Detection, e: DeviceEvent, lookup: Lookup) {
    && (d.detectionType == DeviceOffline || (d.detectionType == DeviceOnline && d.deviceId == e.deviceId))
    && d.detectedAt == e.timestamp && d.signalName == None
    && d.deviceId.Some? && d.deviceId.value in lookup && d.storeId == lookup[d.deviceId.value]
    && d.detectionId == OfDevice(d.detectionType, d.storeId, d.deviceId.value, e.eventId)
  }

  lemma {:induction false} BreachesSay(st: DetectorState, order: seq<string>, lookup: Lookup, threshold: int,
                                       e: DeviceEvent)
    ensures forall d :: d in Breaches(st, order, lookup, threshold, e) ==> SaysWhatHappened(d, e, lookup)
  {
    if order != [] {
      BreachesSay(st, order[..|order| - 1], lookup, threshold, e);
    }
  }

  lemma {:induction false} ObservedSays(st: DetectorState, threshold: int, e: DeviceEvent, lookup: Lookup)
    ensures forall d :: d in Observed(st, threshold, e, lookup).detections ==> SaysWhatHappened(d, e, lookup)
  {
    if e.deviceId.Some? {
      var touched := Touched(st, e.deviceId.value, e.timestamp);
      BreachesSay(touched, touched.order, lookup, threshold, e);
    }
  }

  /** One event in numbers: its device is seen at its time; another known device is offline afterwards exactly when it
      was, or its last event lies more than the threshold back and it is registered. */
  lemma {:induction false} ObservedInNumbers(st: DetectorState, threshold: int, e: DeviceEvent, lookup: Lookup)
    requires Consistent(st)
    ensures var after := Observed(st, threshold, e, lookup);
      && (e.deviceId.None? ==> after == Outcome(st, []))
      && (e.deviceId.Some? ==> after.st.lastSeen == st.lastSeen[e.deviceId.value := e.timestamp])
      && (e.deviceId.Some? && 0 < threshold ==>
            && e.deviceId.value in after.st.state && after.st.state[e.deviceId.value] == Seen
            && forall d :: d in st.state && d != e.deviceId.value ==>
                 TurnsOffline(st, after.st, threshold, e, lookup, d))
  {
  }

  predicate TurnsOffline(before: DetectorState, after: DetectorState, threshold: int, e: DeviceEvent, lookup: Lookup,
                         d: string)
    requires d in before.state
  {
    && d in after.state && d in before.lastSeen
    && (after.state[d] == Offline <==>
          before.state[d] == Offline || (e.timestamp - before.lastSeen[d] > threshold && d in lookup))
  }

  class OfflineDetector {
    const threshold: int
    var order: seq<string>
    var lastSeen: map<string, int>
    var state: map<string, DeviceState>

    function State(): DetectorState
      reads this
    {
      DetectorState(order, lastSeen, state)
    }

    constructor (thresholdSeconds: int)
      requires 0 < thresholdSeconds
      ensures State() == DetectorState([], map[], map[]) && threshold == thresholdSeconds * MICROS_PER_SECOND
    {
      threshold := thresholdSeconds * MICROS_PER_SECOND;
      order, lastSeen, state := [], map[], map[];
    }

    method ObserveEvent(e: DeviceEvent, lookup: Lookup) returns (ds: seq<Detection>)
      requires Consistent(State())
      modifies this
      ensures Consistent(State())
      ensures Outcome(State(), ds) == Observed(old(State()), threshold, e, lookup)
      ensures forall d :: d in ds ==> SaysWhatHappened(d, e, lookup)
      ensures e.deviceId.None? ==> State() == old(State()) && ds == []
      ensures e.deviceId.Some? ==> lastSeen == old(lastSeen)[e.deviceId.value := e.timestamp]
      ensures e.deviceId.Some? && 0 < threshold ==>
        && e.deviceId.value in state && state[e.deviceId.value] == Seen
        && forall d :: d in old(state) && d != e.deviceId.value ==>
             TurnsOffline(old(State()), State(), threshold, e, lookup, d)
    {
      ObservedSays(State(), threshold, e, lookup);
      ObservedInNumbers(State(), threshold, e, lookup);
      if e.deviceId.None? {
        return [];
      }
      var device := e.deviceId.value;
      var wasOffline := device in state && state[device] == Offline;
      Touch(device, e.timestamp);
      var recovery: seq<Detection> := [];
      if wasOffline && device in lookup {
        recovery := [DetectionOf(DeviceOnline, device, lookup[device], e)];
      }
      var detections := Scan(e, lookup);
      ds := recovery + detections;
    }

    method Touch(device: string, timestamp: int)
      requires Consistent(State())
      modifies this
      ensures Consistent(State()) && State() == Touched(old(State()), device, timestamp)
    {
      if device !in lastSeen {
        order := order + [device];
      }
      lastSeen := lastSeen[device := timestamp];
      state := state[device := Seen];
    }

    method Scan(e: DeviceEvent, lookup: Lookup) returns (detections: seq<Detection>)
      requires Consistent(State())
      modifies `state
      ensures Consistent(State()) && State() == Scanned(old(State()), lookup, threshold, e.timestamp)
      ensures detections == Breaches(old(State()), order, lookup, threshold, e)
    {
      ghost var before := State();
      detections := [];
      ScanStarts(before, lookup, threshold, e);
      for i := 0 to |order|
        invariant PartlyScanned(before, state, order[..i], lookup, threshold, e.timestamp)
        invariant detections == Breaches(before, order[..i], lookup, threshold, e)
      {
        var d := order[i];
        ScanStep(before, state, i, lookup, threshold, e);
        if state[d] == Seen && e.timestamp - lastSeen[d] > threshold && d in lookup {
          state := state[d := Offline];
          detections := detections + [DetectionOf(DeviceOffline, d, lookup[d], e)];
        }
      }
      ScanDone(before, state, lookup, threshold, e);
    }
  }

  /** Progress of the scan over the devices it has visited. */
  ghost predicate PartlyScanned(st: DetectorState, now: map<string, DeviceState>, done: seq<string>, lookup: Lookup,
                                threshold: int, ts: int)
  {
    && now.Keys == st.state.Keys
    && forall d :: d in now ==>
         now[d] == (if d in done && Breached(st, lookup, threshold, ts, d) then Offline else st.state[d])
  }

  lemma {:induction false} ScanStep(st: DetectorState, now: map<string, DeviceState>, i: nat, lookup: Lookup,
                                    threshold: int, e: DeviceEvent)
    requires Consistent(st) && i < |st.order|
    requires PartlyScanned(st, now, st.order[..i], lookup, threshold, e.timestamp)
    ensures var d := st.order[i];
      var breached := Breached(st, lookup, threshold, e.timestamp, d);
      && d in now && d in st.lastSeen && now[d] == st.state[d]
      && PartlyScanned(st, if breached then now[d := Offline] else now, st.order[..i + 1], lookup, threshold,
                       e.timestamp)
      && Breaches(st, st.order[..i + 1], lookup, threshold, e)
         == Breaches(st, st.order[..i], lookup, threshold, e)
            + (if breached then [DetectionOf(DeviceOffline, d, lookup[d], e)] else [])
  {
    var d := st.order[i];
    TakeNext(st.order, i);
    NotBefore(st.order, i);
    assert d in st.order;
    BreachesSnoc(st, st.order[..i], d, lookup, threshold, e);
    ScanOne(st, now, st.order[..i], st.order[..i + 1], d, lookup, threshold, e.timestamp);
  }

  lemma {:induction false} ScanOne(st: DetectorState, now: map<string, DeviceState>, done: seq<string>,
                                   done': seq<string>, d: string, lookup: Lookup, threshold: int, ts: int)
    requires PartlyScanned(st, now, done, lookup, threshold, ts) && d in st.state && d !in done
    requires forall x :: x in done' <==> x in done || x == d
    ensures PartlyScanned(st, if Breached(st, lookup, threshold, ts, d) then now[d := Offline] else now, done', lookup,
                          threshold, ts)
  {
  }

  lemma {:induction false} BreachesSnoc(st: DetectorState, order: seq<string>, d: string, lookup: Lookup,
                                        threshold: int, e: DeviceEvent)
    ensures Breaches(st, order + [d], lookup, threshold, e) ==
      Breaches(st, order, lookup, threshold, e)
      + (if Breached(st, lookup, threshold, e.timestamp, d) then [DetectionOf(DeviceOffline, d, lookup[d], e)] else [])
  {
    assert (order + [d])[..|order|] == order;
  }

  lemma {:induction false} ScanStarts(st: DetectorState, lookup: Lookup, threshold: int, e: DeviceEvent)
    ensures PartlyScanned(st, st.state, st.order[..0], lookup, threshold, e.timestamp)
    ensures Breaches(st, st.order[..0], lookup, threshold, e) == []
  {
  }

  lemma {:induction false} ScanDone(st: DetectorState, now: map<string, DeviceState>, lookup: Lookup, threshold: int,
                                    e: DeviceEvent)
    requires Consistent(st) && PartlyScanned(st, now, st.order[..|st.order|], lookup, threshold, e.timestamp)
    ensures st.(state := now) == Scanned(st, lookup, threshold, e.timestamp) && Consistent(st.(state := now))
    ensures Breaches(st, st.order[..|st.order|], lookup, threshold, e) == Breaches(st, st.order, lookup, threshold, e)
  {
    WholePrefix(st.order);
  }

  // Which store an offline device is counted under: the one its store lookup gave when it went offline.

  type Held = map<string, StoreId>

  function Joined(held: Held, st: DetectorState, order: seq<string>, lookup: Lookup, threshold: int, ts: int): Held {
    if order == [] then held
    else
      var past := Joined(held, st, order[..|order| - 1], lookup, threshold, ts);
      var d := order[|order| - 1];
      if Breached(st, lookup, threshold, ts, d) then past[d := lookup[d]] else past
  }

  lemma {:induction false} JoinedIsBreached(held: Held, st: DetectorState, order: seq<string>, lookup: Lookup,
                                            threshold: int, ts: int)
    ensures var joined := Joined(held, st, order, lookup, threshold, ts);
      forall d ::
        && (d in joined <==> d in held || (d in order && Breached(st, lookup, threshold, ts, d)))
        && (d in joined ==>
              joined[d] == if d in order && Breached(st, lookup, threshold, ts, d) then lookup[d] else held[d])
  {
    if order != [] {
      JoinedIsBreached(held, st, order[..|order| - 1], lookup, threshold, ts);
      Rejoin(order);
    }
  }

  function HeldNext(st: DetectorState, held: Held, threshold: int, e: DeviceEvent, lookup: Lookup): Held {
    if e.deviceId.None? then held
    else
      var touched := Touched(st, e.deviceId.value, e.timestamp);
      Joined(held - {e.deviceId.value}, touched, touched.order, lookup, threshold, e.timestamp)
  }

  /** The offline devices are exactly those held under a store. */
  ghost predicate HoldsOffline(st: DetectorState, held: Held) {
    forall d :: d in held <==> d in st.state && st.state[d] == Offline
  }

  /** The view lists each held device under its store and nothing else. */
  ghost predicate Shows(v: P.OfflineView, held: Held) {
    forall s, d :: d in P.Load(v, s) <==> d in held && held[d] == s
  }

  /** The event brings back an offline device whose lookup does not give the store it is counted under. */
  predicate Misdirected(held: Held, e: DeviceEvent, lookup: Lookup) {
    && e.deviceId.Some? && e.deviceId.value in held
    && !(e.deviceId.value in lookup && lookup[e.deviceId.value] == held[e.deviceId.value])
  }

  lemma {:induction false} BreachesShow(v: P.OfflineView, held: Held, st: DetectorState, order: seq<string>,
                                        lookup: Lookup, threshold: int, e: DeviceEvent)
    requires Shows(v, held) && NoDuplicates(order)
    requires forall d :: d in order && Breached(st, lookup, threshold, e.timestamp, d) ==> d !in held
    ensures Shows(P.Fold(v, Breaches(st, order, lookup, threshold, e)),
                  Joined(held, st, order, lookup, threshold, e.timestamp))
  {
    if order != [] {
      var past, x := order[..|order| - 1], order[|order| - 1];
      Rejoin(order);
      assert x !in past;
      BreachesShow(v, held, st, past, lookup, threshold, e);
      if Breached(st, lookup, threshold, e.timestamp, x) {
        var ds, d := Breaches(st, past, lookup, threshold, e), DetectionOf(DeviceOffline, x, lookup[x], e);
        JoinedIsBreached(held, st, past, lookup, threshold, e.timestamp);
        P.FoldAppend(v, ds, [d]);
        P.FoldOne(P.Fold(v, ds), d);
        P.StepLoads(P.Fold(v, ds), d);
      }
    }
  }

  /** A scan only adds to the view. */
  lemma {:induction false} BreachesKeep(v: P.OfflineView, st: DetectorState, order: seq<string>, lookup: Lookup,
                                        threshold: int, e: DeviceEvent, s: StoreId, device: string)
    requires device in P.Load(v, s)
    ensures device in P.Load(P.Fold(v, Breaches(st, order, lookup, threshold, e)), s)
  {
    if order != [] {
      var past, x := order[..|order| - 1], order[|order| - 1];
      BreachesKeep(v, st, past, lookup, threshold, e, s, device);
      if Breached(st, lookup, threshold, e.timestamp, x) {
        var ds, d := Breaches(st, past, lookup, threshold, e), DetectionOf(DeviceOffline, x, lookup[x], e);
        P.FoldAppend(v, ds, [d]);
        P.FoldOne(P.Fold(v, ds), d);
        P.StepLoads(P.Fold(v, ds), d);
      }
    }
  }

  lemma {:induction false} TouchedIsConsistent(st: DetectorState, device: string, ts: int)
    requires Consistent(st)
    ensures Consistent(Touched(st, device, ts))
  {
  }

  lemma {:induction false} ScannedStates(st: DetectorState, lookup: Lookup, threshold: int, ts: int)
    requires Consistent(st)
    ensures var after := Scanned(st, lookup, threshold, ts);
      && Consistent(after)
      && forall d :: d in after.state ==>
           (after.state[d] == Offline <==> Breached(st, lookup, threshold, ts, d) || st.state[d] == Offline)
  {
  }

  /** After every event the devices held are again exactly the offline ones. */
  lemma {:induction false} HeldFollowsState(st: DetectorState, held: Held, threshold: int, e: DeviceEvent,
                                            lookup: Lookup)
    requires 0 < threshold && Consistent(st) && HoldsOffline(st, held)
    ensures HoldsOffline(Observed(st, threshold, e, lookup).st, HeldNext(st, held, threshold, e, lookup))
    ensures Consistent(Observed(st, threshold, e, lookup).st)
  {
    if e.deviceId.Some? {
      var device := e.deviceId.value;
      var touched := Touched(st, device, e.timestamp);
      TouchedIsConsistent(st, device, e.timestamp);
      ScannedStates(touched, lookup, threshold, e.timestamp);
      JoinedIsBreached(held - {device}, touched, touched.order, lookup, threshold, e.timestamp);
      BreachesAreNew(st, held, threshold, e, lookup);
    }
  }

  /** The dashboard stays in step with the detector exactly when the event is not misdirected: folding the detections of
      one event into a view that shows the held devices shows the devices held next, unless a device comes back whose
      lookup changed while it was offline. */
  lemma {:induction false} ViewFollowsStateExactly(v: P.OfflineView, st: DetectorState, held: Held, threshold: int,
                                                   e: DeviceEvent, lookup: Lookup)
    requires 0 < threshold && Consistent(st) && HoldsOffline(st, held) && Shows(v, held)
    ensures Shows(P.Fold(v, Observed(st, threshold, e, lookup).detections), HeldNext(st, held, threshold, e, lookup))
      <==> !Misdirected(held, e, lookup)
  {
    if e.deviceId.Some? {
      RecoveryShowsExactly(v, st, held, e, lookup);
      if Misdirected(held, e, lookup) {
        StaleStays(P.Fold(v, Recovery(st, e.deviceId.value, lookup, e)), st, held, threshold, e, lookup);
      } else {
        ScanShows(P.Fold(v, Recovery(st, e.deviceId.value, lookup, e)), st, held, threshold, e, lookup);
      }
      var touched := Touched(st, e.deviceId.value, e.timestamp);
      P.FoldAppend(v, Recovery(st, e.deviceId.value, lookup, e),
                   Breaches(touched, touched.order, lookup, threshold, e));
    } else {
      assert P.Fold(v, []) == v;
    }
  }

  lemma {:induction false} ScanShows(v: P.OfflineView, st: DetectorState, held: Held, threshold: int, e: DeviceEvent,
                                     lookup: Lookup)
    requires 0 < threshold && Consistent(st) && HoldsOffline(st, held) && e.deviceId.Some?
    requires Shows(v, held - {e.deviceId.value})
    ensures var touched := Touched(st, e.deviceId.value, e.timestamp);
      Shows(P.Fold(v, Breaches(touched, touched.order, lookup, threshold, e)),
            HeldNext(st, held, threshold, e, lookup))
  {
    var touched := Touched(st, e.deviceId.value, e.timestamp);
    TouchedIsConsistent(st, e.deviceId.value, e.timestamp);
    BreachesAreNew(st, held, threshold, e, lookup);
    BreachesShow(v, held - {e.deviceId.value}, touched, touched.order, lookup, threshold, e);
  }

  lemma {:induction false} StaleStays(v: P.OfflineView, st: DetectorState, held: Held, threshold: int, e: DeviceEvent,
                                      lookup: Lookup)
    requires 0 < threshold && HoldsOffline(st, held) && e.deviceId.Some? && e.deviceId.value in held
    requires e.deviceId.value in P.Load(v, held[e.deviceId.value])
    ensures var touched := Touched(st, e.deviceId.value, e.timestamp);
      !Shows(P.Fold(v, Breaches(touched, touched.order, lookup, threshold, e)),
             HeldNext(st, held, threshold, e, lookup))
  {
    var device := e.deviceId.value;
    var touched := Touched(st, device, e.timestamp);
    BreachesKeep(v, touched, touched.order, lookup, threshold, e, held[device], device);
    JoinedIsBreached(held - {device}, touched, touched.order, lookup, threshold, e.timestamp);
    assert !Breached(touched, lookup, threshold, e.timestamp, device);
  }

  /** A recovery that meets the store the device is counted under takes it off the view; any other leaves it there. */
  lemma {:induction false} RecoveryShowsExactly(v: P.OfflineView, st: DetectorState, held: Held, e: DeviceEvent,
                                                lookup: Lookup)
    requires HoldsOffline(st, held) && Shows(v, held) && e.deviceId.Some?
    ensures var device := e.deviceId.value;
      var recovered := P.Fold(v, Recovery(st, device, lookup, e));
      if Misdirected(held, e, lookup) then device in P.Load(recovered, held[device])
      else Shows(recovered, held - {device})
  {
    var device := e.deviceId.value;
    var recovery := Recovery(st, device, lookup, e);
    if recovery != [] {
      P.FoldOne(v, recovery[0]);
      P.StepLoads(v, recovery[0]);
    } else {
      assert P.Fold(v, recovery) == v;
    }
    assert device in held ==> device in P.Load(v, held[device]);
  }

  lemma {:induction false} BreachesAreNew(st: DetectorState, held: Held, threshold: int, e: DeviceEvent, lookup: Lookup)
    requires 0 < threshold && HoldsOffline(st, held) && e.deviceId.Some?
    ensures var touched := Touched(st, e.deviceId.value, e.timestamp);
      forall d :: Breached(touched, lookup, threshold, e.timestamp, d) ==> d !in held && d != e.deviceId.value
  {
  }
}
