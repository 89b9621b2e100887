/** Registry, detector and dashboard together, under any interleaving of registrations and events. */
module OfflineMonitoring {
  import opened Prelude
  import opened Detections
  import opened DeviceRegistries
  import P = OfflineCountProjections
  import opened OfflineDetectors

  type DeviceOp = Op<DeviceEvent>

  /** The lookup is the registry's device mapping. */
  datatype Monitor = Monitor(lookup: Lookup, st: DetectorState, held: Held, detections: seq<Detection>)

  function Next(m: Monitor, threshold: int, op: DeviceOp): Monitor {
    match op
    case Register(device, store) => m.(lookup := m.lookup[device := store])
    case Arrive(e) =>
      var out := Observed(m.st, threshold, e, m.lookup);
      Monitor(m.lookup, out.st, HeldNext(m.st, m.held, threshold, e, m.lookup), m.detections + out.detections)
  }

  function RunOps(threshold: int, ops: seq<DeviceOp>): Monitor {
    if ops == [] then Monitor(map[], DetectorState([], map[], map[]), map[], [])
    else Next(RunOps(threshold, ops[..|ops| - 1]), threshold, ops[|ops| - 1])
  }

  lemma {:induction false} RunsAreConsistent(threshold: int, ops: seq<DeviceOp>)
    requires 0 < threshold
    ensures Consistent(RunOps(threshold, ops).st)
    ensures HoldsOffline(RunOps(threshold, ops).st, RunOps(threshold, ops).held)
  {
    if ops != [] {
      var m := RunOps(threshold, ops[..|ops| - 1]);
      RunsAreConsistent(threshold, ops[..|ops| - 1]);
      match ops[|ops| - 1]
      case Register(_, _) =>
      case Arrive(e) => HeldFollowsState(m.st, m.held, threshold, e, m.lookup);
    }
  }

  // What offline means, read off the history.

  predicate IsOwn(op: DeviceOp, device: string) {
    op.Arrive? && op.e.deviceId == Some(device)
  }

  predicate IsLastOwn(ops: seq<DeviceOp>, device: string, i: int) {
    0 <= i < |ops| && IsOwn(ops[i], device) && forall k :: i < k < |ops| ==> !IsOwn(ops[k], device)
  }

  /** At step `j` some device reported more than the threshold after this one last did, and this one was registered. */
  predicate NoticedSilence(threshold: int, ops: seq<DeviceOp>, device: string, i: int, j: int) {
    && IsLastOwn(ops, device, i) && i < j < |ops|
    && ops[j].Arrive? && ops[j].e.deviceId.Some?
    && ops[j].e.timestamp - ops[i].e.timestamp > threshold
    && device in Binding(ops[..j])
  }

  lemma {:induction false} IsLastOwnSnoc(ops: seq<DeviceOp>, op: DeviceOp, device: string, i: int)
    ensures IsLastOwn(ops + [op], device, i) <==>
      (IsOwn(op, device) && i == |ops|) || (!IsOwn(op, device) && IsLastOwn(ops, device, i))
  {
    var all := ops + [op];
    if IsLastOwn(all, device, i) && i < |ops| {
      assert !IsOwn(all[|ops|], device);
      forall k | i < k < |ops| ensures !IsOwn(ops[k], device) {
        assert ops[k] == all[k];
      }
    }
  }

  lemma {:induction false} NoticedSnoc(threshold: int, ops: seq<DeviceOp>, op: DeviceOp, device: string, i: int, j: int)
    requires !IsOwn(op, device)
    ensures NoticedSilence(threshold, ops + [op], device, i, j) <==>
      || NoticedSilence(threshold, ops, device, i, j)
      || (&& j == |ops| && IsLastOwn(ops, device, i) && op.Arrive? && op.e.deviceId.Some?
          && op.e.timestamp - ops[i].e.timestamp > threshold && device in Binding(ops))
  {
    IsLastOwnSnoc(ops, op, device, i);
    assert (ops + [op])[..|ops|] == ops;
    if 0 <= j < |ops| {
      assert (ops + [op])[..j] == ops[..j];
    }
  }

  /** The last-seen entry is the time of the device's latest own event. */
  lemma {:induction false} LastSeenIsLastOwn(threshold: int, ops: seq<DeviceOp>, device: string)
    ensures RunOps(threshold, ops).lookup == Binding(ops)
    ensures device in RunOps(threshold, ops).st.lastSeen <==> exists i :: IsLastOwn(ops, device, i)
    ensures forall i :: IsLastOwn(ops, device, i) ==>
      device in RunOps(threshold, ops).st.lastSeen && RunOps(threshold, ops).st.lastSeen[device] == ops[i].e.timestamp
  {
    if ops != [] {
      var past, op := ops[..|ops| - 1], ops[|ops| - 1];
      LastSeenIsLastOwn(threshold, past, device);
      Rejoin(ops);
      forall i ensures IsLastOwn(ops, device, i) <==>
        (IsOwn(op, device) && i == |past|) || (!IsOwn(op, device) && IsLastOwn(past, device, i))
      {
        IsLastOwnSnoc(past, op, device, i);
      }
      if IsOwn(op, device) {
        assert IsLastOwn(ops, device, |past|);
      } else {
        assert (exists i :: IsLastOwn(ops, device, i)) <==> (exists i :: IsLastOwn(past, device, i));
      }
    }
  }

  /** The incremental machine decides exactly this: a device is offline when, since its latest own event, some event of
      a device came more than the threshold later while it was registered. */
  lemma {:induction false} OfflineMeansNoticedSilence(threshold: int, ops: seq<DeviceOp>, device: string)
    requires 0 < threshold
    ensures IsDown(RunOps(threshold, ops).st, device) <==>
      exists i, j :: NoticedSilence(threshold, ops, device, i, j)
  {
    if ops != [] {
      var past, op := ops[..|ops| - 1], ops[|ops| - 1];
      var m := RunOps(threshold, past);
      OfflineMeansNoticedSilence(threshold, past, device);
      RunsAreConsistent(threshold, past);
      LastSeenIsLastOwn(threshold, past, device);
      Rejoin(ops);
      if IsOwn(op, device) {
        AfterEvent(m.st, threshold, op.e, m.lookup, device);
        forall i, j ensures !NoticedSilence(threshold, ops, device, i, j) {
          IsLastOwnSnoc(past, op, device, i);
        }
      } else {
        forall i, j ensures NoticedSilence(threshold, ops, device, i, j) <==>
          || NoticedSilence(threshold, past, device, i, j)
          || (j == |past| && NoticedNow(threshold, past, op, device, i))
        {
          NoticedSnoc(threshold, past, op, device, i, j);
        }
        SilenceStep(threshold, past, op, device);
        assert forall i :: NoticedNow(threshold, past, op, device, i) ==>
          NoticedSilence(threshold, ops, device, i, |past|);
      }
    }
  }

  predicate NoticedNow(threshold: int, past: seq<DeviceOp>, op: DeviceOp, device: string, i: int) {
    && IsLastOwn(past, device, i) && op.Arrive? && op.e.deviceId.Some?
    && op.e.timestamp - past[i].e.timestamp > threshold && device in Binding(past)
  }

  lemma {:induction false} SilenceStep(threshold: int, past: seq<DeviceOp>, op: DeviceOp, device: string)
    requires 0 < threshold && !IsOwn(op, device)
    ensures var m := RunOps(threshold, past);
      IsDown(Next(m, threshold, op).st, device) <==>
        IsDown(m.st, device) || exists i :: NoticedNow(threshold, past, op, device, i)
  {
    var m := RunOps(threshold, past);
    RunsAreConsistent(threshold, past);
    LastSeenIsLastOwn(threshold, past, device);
    if op.Arrive? && op.e.deviceId.Some? {
      AfterEvent(m.st, threshold, op.e, m.lookup, device);
      if Breached(Touched(m.st, op.e.deviceId.value, op.e.timestamp), m.lookup, threshold, op.e.timestamp, device) {
        var i :| IsLastOwn(past, device, i);
        assert NoticedNow(threshold, past, op, device, i);
      }
    }
  }

  // The dashboard.

  /** The device is offline and registered under another store than the new one. */
  predicate MovesOffline(m: Monitor, device: string, store: StoreId) {
    IsDown(m.st, device) && device in m.lookup && m.lookup[device] != store
  }

  /** No registration moves a device to another store while it is offline. */
  predicate RebindsOnlyWhileOnline(threshold: int, ops: seq<DeviceOp>) {
    ops == [] ||
    (var past, op := ops[..|ops| - 1], ops[|ops| - 1];
     && RebindsOnlyWhileOnline(threshold, past)
     && (op.Register? ==> !MovesOffline(RunOps(threshold, past), op.device, op.store)))
  }

  predicate Bound(held: Held, lookup: Lookup) {
    forall d :: d in held ==> d in lookup && lookup[d] == held[d]
  }

  lemma {:induction false} JoinedIsBound(st: DetectorState, held: Held, threshold: int, e: DeviceEvent, lookup: Lookup)
    requires Bound(held, lookup)
    ensures Bound(HeldNext(st, held, threshold, e, lookup), lookup)
  {
    if e.deviceId.Some? {
      var touched := Touched(st, e.deviceId.value, e.timestamp);
      JoinedIsBreached(held - {e.deviceId.value}, touched, touched.order, lookup, threshold, e.timestamp);
    }
  }

  lemma {:induction false} ViewShowsHeld(threshold: int, ops: seq<DeviceOp>)
    requires 0 < threshold && RebindsOnlyWhileOnline(threshold, ops)
    ensures var m := RunOps(threshold, ops);
      Shows(P.Fold(map[], m.detections), m.held) && Bound(m.held, m.lookup)
  {
    if ops != [] {
      var past, op := ops[..|ops| - 1], ops[|ops| - 1];
      var m := RunOps(threshold, past);
      ViewShowsHeld(threshold, past);
      RunsAreConsistent(threshold, past);
      match op
      case Register(_, _) =>
      case Arrive(e) =>
        P.FoldAppend(map[], m.detections, Observed(m.st, threshold, e, m.lookup).detections);
        ViewFollowsStateExactly(P.Fold(map[], m.detections), m.st, m.held, threshold, e, m.lookup);
        JoinedIsBound(m.st, m.held, threshold, e, m.lookup);
    }
  }

  /** Folding every detection of the run leaves, for each store, exactly the devices that the detector holds as offline
      and the registry places in that store. */
  lemma {:induction false} OfflineViewIsDetectorState(threshold: int, ops: seq<DeviceOp>, store: StoreId,
                                                      device: string)
    requires 0 < threshold && RebindsOnlyWhileOnline(threshold, ops)
    ensures var m := RunOps(threshold, ops);
      device in P.Load(P.Fold(map[], m.detections), store) <==>
        && device in m.st.state && m.st.state[device] == Offline
        && device in m.lookup && m.lookup[device] == store
  {
    ViewShowsHeld(threshold, ops);
    RunsAreConsistent(threshold, ops);
  }

  /** The dashboard lists, for each store, exactly the offline devices that the registry places there. */
  ghost predicate Agrees(threshold: int, ops: seq<DeviceOp>) {
    var m := RunOps(threshold, ops);
    forall s, d :: d in P.Load(P.Fold(map[], m.detections), s) <==>
      IsDown(m.st, d) && d in m.lookup && m.lookup[d] == s
  }

  lemma {:induction false} PrefixRebinds(threshold: int, ops: seq<DeviceOp>, k: nat)
    requires RebindsOnlyWhileOnline(threshold, ops) && k <= |ops|
    ensures RebindsOnlyWhileOnline(threshold, ops[..k])
  {
    if k < |ops| {
      PrefixRebinds(threshold, ops[..|ops| - 1], k);
      assert ops[..|ops| - 1][..k] == ops[..k];
    } else {
      WholePrefix(ops);
    }
  }

  /** A registration that moves a device while it is offline puts the dashboard out of step at once. */
  lemma {:induction false} MovingDisagrees(threshold: int, past: seq<DeviceOp>, device: string, store: StoreId)
    requires 0 < threshold && RebindsOnlyWhileOnline(threshold, past)
    requires MovesOffline(RunOps(threshold, past), device, store)
    ensures !Agrees(threshold, past + [Register(device, store)])
  {
    var m := RunOps(threshold, past);
    ViewShowsHeld(threshold, past);
    RunsAreConsistent(threshold, past);
    RunSnoc(threshold, past, Register(device, store));
    var m' := RunOps(threshold, past + [Register(device, store)]);
    assert device in P.Load(P.Fold(map[], m'.detections), m.held[device]);
    assert m'.lookup[device] != m.held[device];
  }

  lemma {:induction false} FirstMove(threshold: int, ops: seq<DeviceOp>) returns (k: nat)
    requires 0 < threshold && !RebindsOnlyWhileOnline(threshold, ops)
    ensures k <= |ops| && !Agrees(threshold, ops[..k])
  {
    var past, op := ops[..|ops| - 1], ops[|ops| - 1];
    if RebindsOnlyWhileOnline(threshold, past) {
      k := |ops|;
      Rejoin(ops);
      WholePrefix(ops);
      MovingDisagrees(threshold, past, op.device, op.store);
    } else {
      k := FirstMove(threshold, past);
      assert past[..k] == ops[..k];
    }
  }

  /** The dashboard agrees with detector and registry at every moment of a run exactly when no registration moves a
      device while it is offline. */
  lemma {:induction false} DashboardAgreesExactly(threshold: int, ops: seq<DeviceOp>)
    requires 0 < threshold
    ensures (forall k: nat :: k <= |ops| ==> Agrees(threshold, ops[..k])) <==> RebindsOnlyWhileOnline(threshold, ops)
  {
    if RebindsOnlyWhileOnline(threshold, ops) {
      forall k: nat, s, d | k <= |ops|
        ensures var m := RunOps(threshold, ops[..k]);
          d in P.Load(P.Fold(map[], m.detections), s) <==> IsDown(m.st, d) && d in m.lookup && m.lookup[d] == s
      {
        PrefixRebinds(threshold, ops, k);
        OfflineViewIsDetectorState(threshold, ops[..k], s, d);
      }
    } else {
      var _ := FirstMove(threshold, ops);
    }
  }

  /** Without the condition it fails: a device moved to another store while offline comes back there and stays listed
      under the old store although it is seen again. */
  lemma {:induction false} MovedDeviceStaysListed(threshold: int, a: string, b: string, s: StoreId, t: StoreId)
    requires 0 < threshold && a != b && s != t
    ensures var ops := [] + [Register(a, s)] + [Arrive(DeviceEvent("1", 0, Some(a)))]
                       + [Arrive(DeviceEvent("2", threshold + 1, Some(b)))] + [Register(a, t)]
                       + [Arrive(DeviceEvent("3", threshold + 1, Some(a)))];
      var m := RunOps(threshold, ops);
      && a in P.Load(P.Fold(map[], m.detections), s)
      && a in m.st.state && m.st.state[a] == Seen
  {
    var e1, e2, e3 := DeviceEvent("1", 0, Some(a)), DeviceEvent("2", threshold + 1, Some(b)),
                      DeviceEvent("3", threshold + 1, Some(a));
    var ops1: seq<DeviceOp> := [] + [Register(a, s)];
    var ops2 := ops1 + [Arrive(e1)];
    var ops3 := ops2 + [Arrive(e2)];
    var ops4 := ops3 + [Register(a, t)];
    RunSnoc(threshold, [], Register(a, s));
    RunSnoc(threshold, ops1, Arrive(e1));
    RunSnoc(threshold, ops2, Arrive(e2));
    RunSnoc(threshold, ops3, Register(a, t));
    RunSnoc(threshold, ops4, Arrive(e3));
    FirstSeen(RunOps(threshold, ops1), threshold, e1, a);
    GoesOffline(RunOps(threshold, ops2), threshold, e2, a, b, s);
    ListedAs(RunOps(threshold, ops4).detections, a, s, e2);
    ComesBackElsewhere(RunOps(threshold, ops4), threshold, e3, a, s, t);
  }

  lemma {:induction false} RunSnoc(threshold: int, ops: seq<DeviceOp>, op: DeviceOp)
    ensures RunOps(threshold, ops + [op]) == Next(RunOps(threshold, ops), threshold, op)
  {
    assert (ops + [op])[..|ops|] == ops;
  }

  lemma {:induction false} ListedAs(ds: seq<Detection>, a: string, s: StoreId, e: DeviceEvent)
    requires ds == [DetectionOf(DeviceOffline, a, s, e)]
    ensures a in P.Load(P.Fold(map[], ds), s)
  {
    P.FoldOne(map[], ds[0]);
  }

  lemma {:induction false} FirstSeen(m: Monitor, threshold: int, e: DeviceEvent, a: string)
    requires 0 < threshold && m.st == DetectorState([], map[], map[]) && e.deviceId == Some(a) && m.detections == []
    ensures var m' := Next(m, threshold, Arrive(e));
      m'.st == DetectorState([a], map[a := e.timestamp], map[a := Seen]) && m'.detections == [] && m'.lookup == m.lookup
  {
    var touched := Touched(m.st, a, e.timestamp);
    assert touched.order == [] + [a];
    BreachesSnoc(touched, [], a, m.lookup, threshold, e);
  }

  lemma {:induction false} GoesOffline(m: Monitor, threshold: int, e: DeviceEvent, a: string, b: string, s: StoreId)
    requires 0 < threshold && a != b && e.deviceId == Some(b) && e.timestamp > threshold
    requires m.st == DetectorState([a], map[a := 0], map[a := Seen]) && m.detections == [] && m.lookup == map[a := s]
    ensures var m' := Next(m, threshold, Arrive(e));
      && a in m'.st.state && m'.st.state[a] == Offline
      && m'.detections == [DetectionOf(DeviceOffline, a, s, e)] && m'.lookup == m.lookup
  {
    var touched := Touched(m.st, b, e.timestamp);
    assert touched.order == [] + [a] + [b];
    BreachesSnoc(touched, [], a, m.lookup, threshold, e);
    BreachesSnoc(touched, [] + [a], b, m.lookup, threshold, e);
  }

  lemma {:induction false} ComesBackElsewhere(m: Monitor, threshold: int, e: DeviceEvent, a: string, s: StoreId,
                                              t: StoreId)
    requires 0 < threshold && s != t && e.deviceId == Some(a)
    requires a in m.st.state && m.st.state[a] == Offline && a in m.lookup && m.lookup[a] == t
    requires a in P.Load(P.Fold(map[], m.detections), s)
    ensures var m' := Next(m, threshold, Arrive(e));
      && a in P.Load(P.Fold(map[], m'.detections), s) && a in m'.st.state && m'.st.state[a] == Seen
  {
    var v := P.Fold(map[], m.detections);
    var touched := Touched(m.st, a, e.timestamp);
    var back := DetectionOf(DeviceOnline, a, t, e);
    P.FoldAppend(map[], m.detections, Observed(m.st, threshold, e, m.lookup).detections);
    P.FoldAppend(v, [back], Breaches(touched, touched.order, m.lookup, threshold, e));
    P.FoldOne(v, back);
    P.StepLoads(v, back);
    BreachesKeep(P.Step(v, back), touched, touched.order, m.lookup, threshold, e, s, a);
  }

  // Alternation.

  function Transitions(ds: seq<Detection>, device: string): seq<DetectionType> {
    if ds == [] then []
    else
      var past := Transitions(ds[..|ds| - 1], device);
      if ds[|ds| - 1].deviceId == Some(device) then past + [ds[|ds| - 1].detectionType] else past
  }

  predicate Alternates(ts: seq<DetectionType>) {
    forall i :: 0 <= i < |ts| ==> ts[i] == if i % 2 == 0 then DeviceOffline else DeviceOnline
  }

  lemma {:induction false} TransitionsAppend(a: seq<Detection>, b: seq<Detection>, device: string)
    ensures Transitions(a + b, device) == Transitions(a, device) + Transitions(b, device)
  {
    if b == [] {
      assert a + b == a;
    } else {
      TransitionsAppend(a, b[..|b| - 1], device);
      assert (a + b)[..|a + b| - 1] == a + b[..|b| - 1];
    }
  }

  lemma {:induction false} BreachTransitions(st: DetectorState, order: seq<string>, lookup: Lookup, threshold: int,
                                             e: DeviceEvent, device: string)
    requires NoDuplicates(order)
    ensures Transitions(Breaches(st, order, lookup, threshold, e), device) ==
      if device in order && Breached(st, lookup, threshold, e.timestamp, device) then [DeviceOffline] else []
  {
    if order != [] {
      var past, x := order[..|order| - 1], order[|order| - 1];
      Rejoin(order);
      NotBefore(order, |order| - 1);
      BreachTransitions(st, past, lookup, threshold, e, device);
      if Breached(st, lookup, threshold, e.timestamp, x) {
        var ds := Breaches(st, past, lookup, threshold, e);
        assert (ds + [DetectionOf(DeviceOffline, x, lookup[x], e)])[..|ds|] == ds;
      }
    }
  }

  /** What one call adds to a device's transitions. */
  function Change(was: bool, now: bool): seq<DetectionType> {
    if was && !now then [DeviceOnline] else if !was && now then [DeviceOffline] else []
  }

  lemma {:induction false} AlternationGrows(ts: seq<DetectionType>, was: bool, now: bool)
    requires Alternates(ts) && (was <==> |ts| % 2 == 1)
    ensures Alternates(ts + Change(was, now)) && (now <==> |ts + Change(was, now)| % 2 == 1)
  {
  }

  predicate IsDown(st: DetectorState, device: string) {
    device in st.state && st.state[device] == Offline
  }

  /** One event moves a device at most once, and says so. */
  lemma {:induction false} EventTransitions(st: DetectorState, threshold: int, e: DeviceEvent, lookup: Lookup,
                                            device: string)
    requires 0 < threshold && Consistent(st)
    requires IsDown(st, device) ==> device in lookup
    ensures var out := Observed(st, threshold, e, lookup);
      && Transitions(out.detections, device) == Change(IsDown(st, device), IsDown(out.st, device))
      && (IsDown(out.st, device) ==> device in lookup)
  {
    if e.deviceId.Some? {
      var touched := Touched(st, e.deviceId.value, e.timestamp);
      var recovery := Recovery(st, e.deviceId.value, lookup, e);
      TransitionsAppend(recovery, Breaches(touched, touched.order, lookup, threshold, e), device);
      TouchedIsConsistent(st, e.deviceId.value, e.timestamp);
      BreachTransitions(touched, touched.order, lookup, threshold, e, device);
      RecoveryTransitions(st, e, lookup, device);
      AfterEvent(st, threshold, e, lookup, device);
    }
  }

  lemma {:induction false} RecoveryTransitions(st: DetectorState, e: DeviceEvent, lookup: Lookup, device: string)
    requires e.deviceId.Some?
    ensures Transitions(Recovery(st, e.deviceId.value, lookup, e), device) ==
      if device == e.deviceId.value && IsDown(st, device) && device in lookup then [DeviceOnline] else []
  {
    var recovery := Recovery(st, e.deviceId.value, lookup, e);
    if recovery != [] {
      assert recovery[..0] == [];
    }
  }

  lemma {:induction false} AfterEvent(st: DetectorState, threshold: int, e: DeviceEvent, lookup: Lookup, device: string)
    requires 0 < threshold && Consistent(st) && e.deviceId.Some?
    ensures var touched := Touched(st, e.deviceId.value, e.timestamp);
      var breached := Breached(touched, lookup, threshold, e.timestamp, device);
      && (IsDown(Observed(st, threshold, e, lookup).st, device) <==>
            breached || (device != e.deviceId.value && IsDown(st, device)))
      && (breached ==> device in touched.order && device in lookup && device != e.deviceId.value && !IsDown(st, device))
  {
    var touched := Touched(st, e.deviceId.value, e.timestamp);
    TouchedIsConsistent(st, e.deviceId.value, e.timestamp);
    ScannedStates(touched, lookup, threshold, e.timestamp);
  }

  /** Under any interleaving of registrations, moves included, with events, each device's detections alternate, offline
      first; an odd number means the device is offline now. */
  lemma {:induction false} DetectionsAlternate(threshold: int, ops: seq<DeviceOp>, device: string)
    requires 0 < threshold
    ensures var m := RunOps(threshold, ops);
      && Alternates(Transitions(m.detections, device))
      && (IsDown(m.st, device) <==> |Transitions(m.detections, device)| % 2 == 1)
      && (IsDown(m.st, device) ==> device in m.lookup)
  {
    if ops != [] {
      var m := RunOps(threshold, ops[..|ops| - 1]);
      DetectionsAlternate(threshold, ops[..|ops| - 1], device);
      RunsAreConsistent(threshold, ops[..|ops| - 1]);
      match ops[|ops| - 1]
      case Register(_, _) =>
      case Arrive(e) => ArrivalAlternates(m, threshold, e, device);
    }
  }

  lemma {:induction false} ArrivalAlternates(m: Monitor, threshold: int, e: DeviceEvent, device: string)
    requires 0 < threshold && Consistent(m.st) && Alternates(Transitions(m.detections, device))
    requires IsDown(m.st, device) <==> |Transitions(m.detections, device)| % 2 == 1
    requires IsDown(m.st, device) ==> device in m.lookup
    ensures var m' := Next(m, threshold, Arrive(e));
      && Alternates(Transitions(m'.detections, device))
      && (IsDown(m'.st, device) <==> |Transitions(m'.detections, device)| % 2 == 1)
      && (IsDown(m'.st, device) ==> device in m'.lookup)
  {
    var out := Observed(m.st, threshold, e, m.lookup);
    EventTransitions(m.st, threshold, e, m.lookup, device);
    TransitionsAppend(m.detections, out.detections, device);
    AlternationGrows(Transitions(m.detections, device), IsDown(m.st, device), IsDown(out.st, device));
  }
}
