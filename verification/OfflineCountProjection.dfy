/** The per-store view of offline devices: a fold over detections that must survive redelivery. */
module OfflineCountProjections {
  import opened Prelude
  import opened Detections
  import opened ProjectionStores

  type OfflineView = map<StoreId, set<string>>

  function Load(v: OfflineView, store: StoreId): set<string> {
    if store in v then v[store] else {}
  }

  /** The two handled types, with a device to attribute. */
  predicate Handled(d: Detection) {
    (d.detectionType.DeviceOffline? || d.detectionType.DeviceOnline?) && d.deviceId.Some?
  }

  function Step(v: OfflineView, d: Detection): OfflineView {
    if !Handled(d) then v
    else
      var offline := if d.detectionType.DeviceOffline? then Load(v, d.storeId) + {d.deviceId.value}
                     else Load(v, d.storeId) - {d.deviceId.value};
      if offline != {} then v[d.storeId := offline] else v - {d.storeId}
  }

  function Fold(v: OfflineView, ds: seq<Detection>): OfflineView {
    if ds == [] then v else Step(Fold(v, ds[..|ds| - 1]), ds[|ds| - 1])
  }

  lemma {:induction false} FoldAppend(v: OfflineView, a: seq<Detection>, b: seq<Detection>)
    ensures Fold(v, a + b) == Fold(Fold(v, a), b)
  {
    if b == [] {
      assert a + b == a;
    } else {
      FoldAppend(v, a, b[..|b| - 1]);
      assert (a + b)[..|a + b| - 1] == a + b[..|b| - 1];
    }
  }

  lemma {:induction false} FoldOne(v: OfflineView, d: Detection)
    ensures Fold(v, [d]) == Step(v, d)
  {
    assert [d][..0] == [];
  }

  // The view in closed form: the last word about each device decides.

  function LastWord(ds: seq<Detection>, store: StoreId, device: string): Option<DetectionType> {
    if ds == [] then None
    else
      var d := ds[|ds| - 1];
      if Handled(d) && d.storeId == store && d.deviceId.value == device then Some(d.detectionType)
      else LastWord(ds[..|ds| - 1], store, device)
  }

  predicate Mentioned(ds: seq<Detection>, store: StoreId) {
    exists i :: 0 <= i < |ds| && Handled(ds[i]) && ds[i].storeId == store
  }

  predicate IsOffline(v: OfflineView, ds: seq<Detection>, store: StoreId, device: string) {
    match LastWord(ds, store, device)
    case None => device in Load(v, store)
    case Some(t) => t.DeviceOffline?
  }

  lemma {:induction false} FoldIsLastWord(v: OfflineView, ds: seq<Detection>)
    ensures forall s, x :: x in Load(Fold(v, ds), s) <==> IsOffline(v, ds, s, x)
    ensures forall s :: s in Fold(v, ds) <==> if Mentioned(ds, s) then Load(Fold(v, ds), s) != {} else s in v
  {
    if ds != [] {
      var past, d := ds[..|ds| - 1], ds[|ds| - 1];
      FoldIsLastWord(v, past);
      forall s ensures Mentioned(ds, s) <==> Mentioned(past, s) || (Handled(d) && d.storeId == s) {
        MentionedSnoc(ds, s);
      }
      StepLoads(Fold(v, past), d);
    }
  }

  lemma {:induction false} MentionedSnoc(ds: seq<Detection>, s: StoreId)
    requires ds != []
    ensures Mentioned(ds, s) <==>
      Mentioned(ds[..|ds| - 1], s) || (Handled(ds[|ds| - 1]) && ds[|ds| - 1].storeId == s)
  {
    var past := ds[..|ds| - 1];
    if Mentioned(past, s) {
      var i :| 0 <= i < |past| && Handled(past[i]) && past[i].storeId == s;
      assert ds[i] == past[i];
    }
    if Mentioned(ds, s) && !(Handled(ds[|ds| - 1]) && ds[|ds| - 1].storeId == s) {
      var i :| 0 <= i < |ds| && Handled(ds[i]) && ds[i].storeId == s;
      assert past[i] == ds[i];
    }
  }

  lemma {:induction false} StepLoads(v: OfflineView, d: Detection)
    ensures forall s, x :: x in Load(Step(v, d), s) <==>
      if Handled(d) && d.storeId == s && d.deviceId.value == x then d.detectionType.DeviceOffline? else x in Load(v, s)
    ensures forall s :: s in Step(v, d) <==>
      if Handled(d) && d.storeId == s then Load(Step(v, d), s) != {} else s in v
  {
  }

  lemma {:induction false} SameContent(a: OfflineView, b: OfflineView)
    requires forall s :: s in a <==> s in b
    requires forall s, x :: x in Load(a, s) <==> x in Load(b, s)
    ensures a == b
  {
    forall s | s in a ensures a[s] == b[s] {
      assert Load(a, s) == Load(b, s);
    }
  }

  /** Full replay: folding any detection sequence a second time over what the first fold produced changes nothing,
      stored values and absent keys included. */
  lemma {:induction false} ReplayIsIdempotent(v: OfflineView, ds: seq<Detection>)
    ensures Fold(Fold(v, ds), ds) == Fold(v, ds)
  {
    var once := Fold(v, ds);
    FoldIsLastWord(v, ds);
    FoldIsLastWord(once, ds);
    SameContent(Fold(once, ds), once);
  }

  /** A single late redelivery is harmless exactly when it repeats the last word about its device: a stale one brings an
      outdated state back. */
  lemma {:induction false} LateDuplicateExactly(v: OfflineView, ds: seq<Detection>, i: nat)
    requires i < |ds| && Handled(ds[i])
    ensures Step(Fold(v, ds), ds[i]) == Fold(v, ds) <==>
      LastWord(ds, ds[i].storeId, ds[i].deviceId.value) == Some(ds[i].detectionType)
  {
    var once, d := Fold(v, ds), ds[i];
    FoldIsLastWord(v, ds);
    StepLoads(once, d);
    assert Mentioned(ds, d.storeId);
    HasLastWord(ds, i);
    if LastWord(ds, d.storeId, d.deviceId.value) == Some(d.detectionType) {
      SameContent(Step(once, d), once);
    } else {
      assert d.deviceId.value in Load(Step(once, d), d.storeId) <==> d.deviceId.value !in Load(once, d.storeId);
    }
  }

  lemma {:induction false} HasLastWord(ds: seq<Detection>, i: nat)
    requires i < |ds| && Handled(ds[i])
    ensures var w := LastWord(ds, ds[i].storeId, ds[i].deviceId.value);
      w == Some(DeviceOffline) || w == Some(DeviceOnline)
  {
    var d := ds[|ds| - 1];
    if i < |ds| - 1 {
      HasLastWord(ds[..|ds| - 1], i);
    }
  }

  /** A stale redelivery in action: an offline detection that comes again after the recovery lists the device again. */
  lemma {:induction false} StaleOfflineRevives(offline: Detection, online: Detection)
    requires Handled(offline) && offline.detectionType.DeviceOffline?
    requires Handled(online) && online.detectionType.DeviceOnline?
    requires online.storeId == offline.storeId && online.deviceId == offline.deviceId
    ensures var view := Fold(map[], [offline, online]);
      && offline.deviceId.value !in Load(view, offline.storeId)
      && offline.deviceId.value in Load(Step(view, offline), offline.storeId)
  {
    FoldIsLastWord(map[], [offline, online]);
    StepLoads(Fold(map[], [offline, online]), offline);
  }

  class OfflineCountProjection {
    const store: InMemoryProjectionStore<StoreId, set<string>>
    const VIEW := "offline_count"

    ghost function View(): OfflineView
      reads store
    {
      store.View(VIEW)
    }

    constructor (store: InMemoryProjectionStore<StoreId, set<string>>)
      ensures this.store == store
    {
      this.store := store;
    }

    method Observe(d: Detection)
      modifies store
      ensures View() == Step(old(View()), d)
      ensures forall s, x :: x in Load(View(), s) <==>
        if d.storeId == s && d.deviceId == Some(x) && d.detectionType == DeviceOffline then true
        else if d.storeId == s && d.deviceId == Some(x) && d.detectionType == DeviceOnline then false
        else x in Load(old(View()), s)
      ensures forall w :: w != VIEW ==> store.View(w) == old(store.View(w))
    {
      if !(d.detectionType.DeviceOffline? || d.detectionType.DeviceOnline?) {
        return;
      }
      if d.deviceId.None? {
        return;
      }
      var loaded := store.Get(VIEW, d.storeId);
      var offline := if loaded.Some? then loaded.value else {};
      if d.detectionType.DeviceOffline? {
        offline := offline + {d.deviceId.value};
      } else {
        offline := offline - {d.deviceId.value};
      }
      if offline != {} {
        store.Put(VIEW, d.storeId, offline);
      } else {
        store.Delete(VIEW, d.storeId);
      }
    }

    method ObserveAll(ds: seq<Detection>)
      modifies store
      ensures View() == Fold(old(View()), ds)
      ensures forall w :: w != VIEW ==> store.View(w) == old(store.View(w))
    {
      TakeEnds([], ds);
      for i := 0 to |ds|
        invariant View() == Fold(old(View()), ds[..i])
        invariant forall w :: w != VIEW ==> store.View(w) == old(store.View(w))
      {
        Observe(ds[i]);
        assert ds[..i + 1][..i] == ds[..i];
      }
      WholePrefix(ds);
    }

    method OfflineCount(storeId: StoreId) returns (n: nat)
      ensures n == |Load(View(), storeId)|
    {
      var loaded := store.Get(VIEW, storeId);
      n := if loaded.Some? then |loaded.value| else 0;
    }
  }
}
