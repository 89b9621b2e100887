/** The global view of stores in outage: one key per store, present while the outage lasts. */
module ActiveOutageProjections {
  import opened Prelude
  import opened Detections
  import opened ProjectionStores

  /** The value is when the outage was detected. */
  type OutageView = map<StoreId, int>

  function Step(v: OutageView, d: Detection): OutageView {
    match d.detectionType
    case StoreOutage => v[d.storeId := d.detectedAt]
    case StoreRecovered => v - {d.storeId}
    case _ => v
  }

  function Fold(v: OutageView, ds: seq<Detection>): OutageView {
    if ds == [] then v else Step(Fold(v, ds[..|ds| - 1]), ds[|ds| - 1])
  }

  lemma {:induction false} FoldAppend(v: OutageView, a: seq<Detection>, b: seq<Detection>)
    ensures Fold(v, a + b) == Fold(Fold(v, a), b)
  {
    if b == [] {
      assert a + b == a;
    } else {
      FoldAppend(v, a, b[..|b| - 1]);
      assert (a + b)[..|a + b| - 1] == a + b[..|b| - 1];
    }
  }

  /** The latest outage or recovery of the store. */
  function LastWord(ds: seq<Detection>, store: StoreId): Option<Detection> {
    if ds == [] then None
    else
      var d := ds[|ds| - 1];
      if Handled(d) && d.storeId == store then Some(d)
      else LastWord(ds[..|ds| - 1], store)
  }

  function At(v: OutageView, store: StoreId): Option<int> {
    if store in v then Some(v[store]) else None
  }

  function AfterWord(v: OutageView, store: StoreId, word: Option<Detection>): Option<int> {
    match word
    case None => At(v, store)
    case Some(d) => if d.detectionType.StoreOutage? then Some(d.detectedAt) else None
  }

  lemma {:induction false} FoldIsLastWord(v: OutageView, ds: seq<Detection>)
    ensures forall s :: At(Fold(v, ds), s) == AfterWord(v, s, LastWord(ds, s))
  {
    if ds != [] {
      FoldIsLastWord(v, ds[..|ds| - 1]);
    }
  }

  lemma {:induction false} SameContent(a: OutageView, b: OutageView)
    requires forall s :: At(a, s) == At(b, s)
    ensures a == b
  {
    assert forall s :: s in a <==> At(a, s).Some?;
    assert forall s :: s in b <==> At(b, s).Some?;
    forall s | s in a ensures a[s] == b[s] {
      assert At(a, s) == At(b, s);
    }
  }

  /** Full replay leaves the view unchanged: the same stores with the same outage times. */
  lemma {:induction false} ReplayIsIdempotent(v: OutageView, ds: seq<Detection>)
    ensures Fold(Fold(v, ds), ds) == Fold(v, ds)
  {
    FoldIsLastWord(v, ds);
    FoldIsLastWord(Fold(v, ds), ds);
    SameContent(Fold(Fold(v, ds), ds), Fold(v, ds));
  }

  predicate Handled(d: Detection) {
    d.detectionType.StoreOutage? || d.detectionType.StoreRecovered?
  }

  /** The two say the same about the store: recovered, or in outage since the same instant. */
  predicate SameWord(a: Detection, b: Detection) {
    a.detectionType == b.detectionType && (a.detectionType.StoreOutage? ==> a.detectedAt == b.detectedAt)
  }

  /** A single late redelivery is harmless exactly when it says what the last word about its store says; for an outage
      this includes the stored time. */
  lemma {:induction false} LateDuplicateExactly(v: OutageView, ds: seq<Detection>, i: nat)
    requires i < |ds| && Handled(ds[i])
    ensures LastWord(ds, ds[i].storeId).Some?
    ensures Step(Fold(v, ds), ds[i]) == Fold(v, ds) <==> SameWord(LastWord(ds, ds[i].storeId).value, ds[i])
  {
    var once, d := Fold(v, ds), ds[i];
    FoldIsLastWord(v, ds);
    HasLastWord(ds, i);
    assert At(once, d.storeId) == AfterWord(v, d.storeId, LastWord(ds, d.storeId));
    if SameWord(LastWord(ds, d.storeId).value, d) {
      forall s ensures At(Step(once, d), s) == At(once, s) {
      }
      SameContent(Step(once, d), once);
    } else {
      assert At(Step(once, d), d.storeId) != At(once, d.storeId);
    }
  }

  lemma {:induction false} HasLastWord(ds: seq<Detection>, i: nat)
    requires i < |ds| && Handled(ds[i])
    ensures var w := LastWord(ds, ds[i].storeId);
      w.Some? && Handled(w.value)
  {
    if i < |ds| - 1 {
      HasLastWord(ds[..|ds| - 1], i);
    }
  }

  /** A stale redelivery in action: an outage that comes again after the recovery puts the store back. */
  lemma {:induction false} StaleOutageRevives(outage: Detection, recovered: Detection)
    requires outage.detectionType.StoreOutage? && recovered.detectionType.StoreRecovered?
    requires outage.storeId == recovered.storeId
    ensures outage.storeId !in Fold(map[], [outage, recovered])
    ensures outage.storeId in Step(Fold(map[], [outage, recovered]), outage)
  {
  }

  class ActiveOutageProjection {
    const store: InMemoryProjectionStore<StoreId, int>
    const VIEW := "active_outage"

    ghost function View(): OutageView
      reads store
    {
      store.View(VIEW)
    }

    /** The store lists its keys in the order of store ids. */
    ghost predicate Valid() {
      store.le == StoreIdAtMost()
    }

    constructor (store: InMemoryProjectionStore<StoreId, int>)
      requires store.le == StoreIdAtMost()
      ensures this.store == store && Valid()
    {
      this.store := store;
    }

    method Observe(d: Detection)
      modifies store
      ensures View() == Step(old(View()), d)
      ensures View() ==
        if d.detectionType == StoreOutage then old(View())[d.storeId := d.detectedAt]
        else if d.detectionType == StoreRecovered then old(View()) - {d.storeId}
        else old(View())
      ensures forall w :: w != VIEW ==> store.View(w) == old(store.View(w))
    {
      if d.detectionType.StoreOutage? {
        store.Put(VIEW, d.storeId, d.detectedAt);
      } else if d.detectionType.StoreRecovered? {
        store.Delete(VIEW, d.storeId);
      }
    }

    method ObserveAll(ds: seq<Detection>)
      modifies store
      ensures View() == Fold(old(View()), ds)
      ensures forall w :: w != VIEW ==> store.View(w) == old(store.View(w))
    {
      TakeEnds([], ds);
      for i := 0 to |ds|
        invariant View() == Fold(old(View()), ds[..i])
        invariant forall w :: w != VIEW ==> store.View(w) == old(store.View(w))
      {
        Observe(ds[i]);
        assert ds[..i + 1][..i] == ds[..i];
      }
      WholePrefix(ds);
    }

    /** The stores in outage, each once, in ascending order of their ids. */
    method StoresInOutage() returns (stores: seq<StoreId>)
      requires Valid()
      ensures Ordered(stores, StoreIdAtMost()) && NoDuplicates(stores)
      ensures forall s :: s in stores <==> s in View()
    {
      StoreIdsAreOrdered();
      stores := store.Keys(VIEW);
    }

    method ActiveOutageCount() returns (n: nat)
      requires Valid()
      ensures n == |View()|
    {
      StoreIdsAreOrdered();
      var stores := store.Keys(VIEW);
      n := |stores|;
    }
  }
}
