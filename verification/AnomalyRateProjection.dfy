/** Anomaly onsets by signal in event-time buckets: a fold of id sets, and a rolling count over it. */
module AnomalyRateProjections {
  import opened Prelude
  import opened Detections
  import opened ProjectionStores
  import W = WindowSpecs

  const BUCKET: int := 60 * MICROS_PER_SECOND

  /** The key text joins the signal name and the bucket start; here it is the pair. */
  type BucketKey = (string, int)

  type RateView = map<BucketKey, set<DetectionId>>

  function BucketStart(moment: int): int {
    (moment / BUCKET) * BUCKET
  }

  /** The first bucket boundary at or after the moment. */
  function BucketCeiling(moment: int): int {
    if BucketStart(moment) == moment then moment else BucketStart(moment) + BUCKET
  }

  function Load(v: RateView, key: BucketKey): set<DetectionId> {
    if key in v then v[key] else {}
  }

  predicate Handled(d: Detection) {
    d.detectionType.SignalAnomaly? && d.signalName.Some?
  }

  function KeyOf(d: Detection): BucketKey
    requires Handled(d)
  {
    (d.signalName.value, BucketStart(d.detectedAt))
  }

  function Step(v: RateView, d: Detection): RateView {
    if Handled(d) then v[KeyOf(d) := Load(v, KeyOf(d)) + {d.detectionId}] else v
  }

  function Fold(v: RateView, ds: seq<Detection>): RateView {
    if ds == [] then v else Step(Fold(v, ds[..|ds| - 1]), ds[|ds| - 1])
  }

  // The view is a set of facts: neither order nor repetition of the detections matters.

  predicate Placed(ds: seq<Detection>, key: BucketKey) {
    exists d :: d in ds && Handled(d) && KeyOf(d) == key
  }

  predicate PlacedId(ds: seq<Detection>, key: BucketKey, id: DetectionId) {
    exists d :: d in ds && Handled(d) && KeyOf(d) == key && d.detectionId == id
  }

  lemma {:induction false} FoldCollects(v: RateView, ds: seq<Detection>)
    ensures forall k, id :: id in Load(Fold(v, ds), k) <==> id in Load(v, k) || PlacedId(ds, k, id)
    ensures forall k :: k in Fold(v, ds) <==> k in v || Placed(ds, k)
  {
    if ds != [] {
      var past, d := ds[..|ds| - 1], ds[|ds| - 1];
      FoldCollects(v, past);
      Rejoin(ds);
      assert forall x :: x in ds <==> x in past || x == d;
      forall k, id ensures PlacedId(ds, k, id) <==>
        PlacedId(past, k, id) || (Handled(d) && KeyOf(d) == k && d.detectionId == id) {
      }
      forall k ensures Placed(ds, k) <==> Placed(past, k) || (Handled(d) && KeyOf(d) == k) {
      }
    }
  }

  lemma {:induction false} SameContent(a: RateView, b: RateView)
    requires forall k :: k in a <==> k in b
    requires forall k, id :: id in Load(a, k) <==> id in Load(b, k)
    ensures a == b
  {
    forall k | k in a ensures a[k] == b[k] {
      assert Load(a, k) == Load(b, k);
    }
  }

  /** Any permutation and any duplication of the detections folds to the same stored buckets. */
  lemma {:induction false} OnlyTheDetectionsMatter(v: RateView, a: seq<Detection>, b: seq<Detection>)
    requires forall d :: d in a <==> d in b
    ensures Fold(v, a) == Fold(v, b)
  {
    FoldCollects(v, a);
    FoldCollects(v, b);
    assert forall k :: Placed(a, k) <==> Placed(b, k);
    assert forall k, id :: PlacedId(a, k, id) <==> PlacedId(b, k, id);
    SameContent(Fold(v, a), Fold(v, b));
  }

  /** Full replay leaves every bucket unchanged. */
  lemma {:induction false} ReplayIsIdempotent(v: RateView, ds: seq<Detection>)
    ensures Fold(Fold(v, ds), ds) == Fold(v, ds)
  {
    FoldCollects(v, ds);
    FoldCollects(Fold(v, ds), ds);
    SameContent(Fold(Fold(v, ds), ds), Fold(v, ds));
  }

  // The rolling count.

  /** The number of ids in the buckets of the signal from `bucket` up to `asOf`, bucket by bucket. */
  function Count(v: RateView, signal: string, bucket: int, asOf: int): nat
    decreases asOf - bucket
  {
    if asOf <= bucket then 0 else |Load(v, (signal, bucket))| + Count(v, signal, bucket + BUCKET, asOf)
  }

  function IdsFrom(v: RateView, signal: string, bucket: int, asOf: int): set<DetectionId>
    decreases asOf - bucket
  {
    if asOf <= bucket then {} else Load(v, (signal, bucket)) + IdsFrom(v, signal, bucket + BUCKET, asOf)
  }

  /** The buckets that the count visits. */
  predicate Visits(bucket: int, asOf: int, b: int) {
    bucket <= b < asOf && (b - bucket) % BUCKET == 0
  }

  lemma {:induction false} VisitsNext(bucket: int, asOf: int)
    requires bucket < asOf
    ensures forall b :: Visits(bucket, asOf, b) <==> b == bucket || Visits(bucket + BUCKET, asOf, b)
  {
    forall b ensures Visits(bucket, asOf, b) <==> b == bucket || Visits(bucket + BUCKET, asOf, b) {
      assert (b - bucket - BUCKET) % BUCKET == (b - bucket) % BUCKET;
    }
  }

  /** No id lies in two buckets of the range. */
  ghost predicate EachInOneBucket(v: RateView, signal: string, bucket: int, asOf: int) {
    forall a, b, id :: Visits(bucket, asOf, a) && Visits(bucket, asOf, b) && a < b ==>
      !(id in Load(v, (signal, a)) && id in Load(v, (signal, b)))
  }

  ghost predicate InVisited(v: RateView, signal: string, bucket: int, asOf: int, id: DetectionId) {
    exists b :: Visits(bucket, asOf, b) && id in Load(v, (signal, b))
  }

  lemma {:induction false} IdsFromBuckets(v: RateView, signal: string, bucket: int, asOf: int)
    ensures forall id :: id in IdsFrom(v, signal, bucket, asOf) <==> InVisited(v, signal, bucket, asOf, id)
    decreases asOf - bucket
  {
    if bucket < asOf {
      IdsFromBuckets(v, signal, bucket + BUCKET, asOf);
      VisitsNext(bucket, asOf);
    }
  }

  /** Adding up bucket sizes counts distinct ids exactly when no id lies in two of the buckets; otherwise it counts
      too many. */
  lemma {:induction false} CountIsDistinctExactly(v: RateView, signal: string, bucket: int, asOf: int)
    ensures |IdsFrom(v, signal, bucket, asOf)| <= Count(v, signal, bucket, asOf)
    ensures Count(v, signal, bucket, asOf) == |IdsFrom(v, signal, bucket, asOf)| <==>
      EachInOneBucket(v, signal, bucket, asOf)
    decreases asOf - bucket
  {
    if bucket < asOf {
      var here, later := Load(v, (signal, bucket)), IdsFrom(v, signal, bucket + BUCKET, asOf);
      CountIsDistinctExactly(v, signal, bucket + BUCKET, asOf);
      UnionSize(here, later);
      OneBucketSplit(v, signal, bucket, asOf);
    }
  }

  lemma {:induction false} UnionSize(a: set<DetectionId>, b: set<DetectionId>)
    ensures |a + b| <= |a| + |b|
    ensures |a + b| == |a| + |b| <==> a !! b
  {
    assert a + b == a + (b - a);
    assert |b| == |b - a| + |b * a| by { assert b == (b - a) + (b * a); }
    assert a !! b <==> b * a == {};
  }

  lemma {:induction false} OneBucketSplit(v: RateView, signal: string, bucket: int, asOf: int)
    requires bucket < asOf
    ensures EachInOneBucket(v, signal, bucket, asOf) <==>
      && EachInOneBucket(v, signal, bucket + BUCKET, asOf)
      && Load(v, (signal, bucket)) !! IdsFrom(v, signal, bucket + BUCKET, asOf)
  {
    IdsFromBuckets(v, signal, bucket + BUCKET, asOf);
    VisitsNext(bucket, asOf);
    var later := IdsFrom(v, signal, bucket + BUCKET, asOf);
    if EachInOneBucket(v, signal, bucket, asOf) {
      forall id | id in later ensures id !in Load(v, (signal, bucket)) {
        var b :| Visits(bucket + BUCKET, asOf, b) && id in Load(v, (signal, b));
      }
    }
    if EachInOneBucket(v, signal, bucket + BUCKET, asOf) && Load(v, (signal, bucket)) !! later {
      forall a, b, id | Visits(bucket, asOf, a) && Visits(bucket, asOf, b) && a < b
        ensures !(id in Load(v, (signal, a)) && id in Load(v, (signal, b)))
      {
        if a == bucket && id in Load(v, (signal, b)) {
          assert InVisited(v, signal, bucket + BUCKET, asOf, id);
        }
      }
    }
  }

  // The count against the detections themselves.

  predicate InRange(d: Detection, signal: string, from: int, to: int) {
    Handled(d) && d.signalName.value == signal && from <= d.detectedAt < to
  }

  function DistinctIn(ds: seq<Detection>, signal: string, from: int, to: int): set<DetectionId> {
    set d | d in ds && InRange(d, signal, from, to) :: d.detectionId
  }

  /** A detection id fixes when its anomaly was detected. */
  predicate IdFixesTime(ds: seq<Detection>) {
    forall d, e :: d in ds && e in ds && Handled(d) && Handled(e) && d.detectionId == e.detectionId ==>
      d.detectedAt == e.detectedAt
  }

  /** The detector derives the id from the store, the signal and the window, and reports the window's end. */
  predicate IsDetectorAnomaly(d: Detection) {
    d.detectionType.SignalAnomaly? && d.detectionId.OfSignal? && d.detectedAt == d.detectionId.windowEnd
  }

  lemma {:induction false} DetectorIdsFixTime(ds: seq<Detection>)
    requires forall d :: d in ds && Handled(d) ==> IsDetectorAnomaly(d)
    ensures IdFixesTime(ds)
  {
  }

  /** So the detector's own ids never lie in two buckets. */
  lemma {:induction false} DetectorIdsInOneBucket(ds: seq<Detection>, signal: string, bucket: int, asOf: int)
    requires forall d :: d in ds && Handled(d) ==> IsDetectorAnomaly(d)
    ensures EachInOneBucket(Fold(map[], ds), signal, bucket, asOf)
  {
    FoldCollects(map[], ds);
    DetectorIdsFixTime(ds);
    var v := Fold(map[], ds);
    forall a, b, id | Visits(bucket, asOf, a) && Visits(bucket, asOf, b) && a < b
      ensures !(id in Load(v, (signal, a)) && id in Load(v, (signal, b)))
    {
    }
  }

  /** An id that comes with two times is counted twice: two detections in neighbouring buckets, one distinct id. */
  lemma {:induction false} SharedIdCountsTwice(d: Detection, e: Detection)
    requires Handled(d) && Handled(e) && d.signalName == e.signalName && d.detectionId == e.detectionId
    requires BucketStart(e.detectedAt) == BucketStart(d.detectedAt) + BUCKET
    ensures var v, b := Fold(map[], [d, e]), BucketStart(d.detectedAt);
      && Count(v, d.signalName.value, b, b + 2 * BUCKET) == 2
      && IdsFrom(v, d.signalName.value, b, b + 2 * BUCKET) == {d.detectionId}
  {
    var v, b, signal := Fold(map[], [d, e]), BucketStart(d.detectedAt), d.signalName.value;
    FoldCollects(map[], [d, e]);
    assert d in [d, e] && e in [d, e];
    assert PlacedId([d, e], (signal, b), d.detectionId) && PlacedId([d, e], (signal, b + BUCKET), d.detectionId);
    CountsBoth(v, signal, b, d.detectionId);
  }

  lemma {:induction false} CountsBoth(v: RateView, signal: string, b: int, id: DetectionId)
    requires Load(v, (signal, b)) == {id} && Load(v, (signal, b + BUCKET)) == {id}
    ensures Count(v, signal, b, b + 2 * BUCKET) == 2
    ensures IdsFrom(v, signal, b, b + 2 * BUCKET) == {id}
  {
    var end := b + 2 * BUCKET;
    assert Count(v, signal, b + BUCKET + BUCKET, end) == 0 && IdsFrom(v, signal, b + BUCKET + BUCKET, end) == {};
    assert Count(v, signal, b + BUCKET, end) == 1 && IdsFrom(v, signal, b + BUCKET, end) == {id};
  }

  lemma {:induction false} BucketBounds(t: int)
    ensures BucketStart(t) <= t < BucketStart(t) + BUCKET && BucketStart(t) % BUCKET == 0
  {
    W.FloorMultiple(t, BUCKET);
  }

  /** The count visits the bucket of `t` exactly when `t` lies in the bucket-rounded hull. */
  lemma {:induction false} BucketInHull(t: int, start: int, asOf: int)
    ensures Visits(BucketStart(start), asOf, BucketStart(t)) <==> BucketStart(start) <= t < BucketCeiling(asOf)
  {
    BucketBounds(t);
    BucketBounds(start);
    BucketBounds(asOf);
  }

  /** The ids in the buckets that the count visits are those of the detections in the bucket-rounded hull of the
      requested interval. */
  lemma {:induction false} VisitedIdsAreHull(ds: seq<Detection>, signal: string, start: int, asOf: int)
    ensures IdsFrom(Fold(map[], ds), signal, BucketStart(start), asOf)
      == DistinctIn(ds, signal, BucketStart(start), BucketCeiling(asOf))
  {
    var v := Fold(map[], ds);
    IdsFromBuckets(v, signal, BucketStart(start), asOf);
    forall id ensures InVisited(v, signal, BucketStart(start), asOf, id)
      <==> id in DistinctIn(ds, signal, BucketStart(start), BucketCeiling(asOf))
    {
      VisitedIdIsInHull(ds, signal, start, asOf, id);
      if id in DistinctIn(ds, signal, BucketStart(start), BucketCeiling(asOf)) {
        var d :| d in ds && InRange(d, signal, BucketStart(start), BucketCeiling(asOf)) && d.detectionId == id;
        BucketInHull(d.detectedAt, start, asOf);
        InItsBucket(ds, d);
      }
    }
  }

  lemma {:induction false} InItsBucket(ds: seq<Detection>, d: Detection)
    requires d in ds && Handled(d)
    ensures d.detectionId in Load(Fold(map[], ds), KeyOf(d))
  {
    FoldCollects(map[], ds);
    assert PlacedId(ds, KeyOf(d), d.detectionId);
  }

  lemma {:induction false} VisitedIdIsInHull(ds: seq<Detection>, signal: string, start: int, asOf: int, id: DetectionId)
    ensures InVisited(Fold(map[], ds), signal, BucketStart(start), asOf, id) ==>
      id in DistinctIn(ds, signal, BucketStart(start), BucketCeiling(asOf))
  {
    FoldCollects(map[], ds);
    if InVisited(Fold(map[], ds), signal, BucketStart(start), asOf, id) {
      var b :| Visits(BucketStart(start), asOf, b) && id in Load(Fold(map[], ds), (signal, b));
      assert PlacedId(ds, (signal, b), id);
      var d :| d in ds && Handled(d) && KeyOf(d) == (signal, b) && d.detectionId == id;
      BucketInHull(d.detectedAt, start, asOf);
      assert InRange(d, signal, BucketStart(start), BucketCeiling(asOf));
    }
  }

  lemma {:induction false} FixedTimesMeanOneBucket(ds: seq<Detection>, signal: string, bucket: int, asOf: int)
    requires IdFixesTime(ds)
    ensures EachInOneBucket(Fold(map[], ds), signal, bucket, asOf)
  {
    var v := Fold(map[], ds);
    FoldCollects(map[], ds);
    forall a, b, id | a < b ensures !(id in Load(v, (signal, a)) && id in Load(v, (signal, b))) {
      assert id in Load(v, (signal, a)) <==> PlacedId(ds, (signal, a), id);
      assert id in Load(v, (signal, b)) <==> PlacedId(ds, (signal, b), id);
    }
  }

  /** For detections in any order with any duplicates, whose id fixes their time, the rolling count is the number of
      distinct anomalies in the bucket-rounded hull, and at least the number in the requested interval itself. */
  lemma {:induction false} RollingCount(ds: seq<Detection>, signal: string, start: int, asOf: int)
    requires IdFixesTime(ds)
    ensures Count(Fold(map[], ds), signal, BucketStart(start), asOf)
      == |DistinctIn(ds, signal, BucketStart(start), BucketCeiling(asOf))|
    ensures |DistinctIn(ds, signal, start, asOf)| <= Count(Fold(map[], ds), signal, BucketStart(start), asOf)
    ensures BucketStart(start) == start && BucketCeiling(asOf) == asOf ==>
      Count(Fold(map[], ds), signal, BucketStart(start), asOf) == |DistinctIn(ds, signal, start, asOf)|
  {
    FixedTimesMeanOneBucket(ds, signal, BucketStart(start), asOf);
    CountIsDistinctExactly(Fold(map[], ds), signal, BucketStart(start), asOf);
    VisitedIdsAreHull(ds, signal, start, asOf);
    BucketBounds(start);
    BucketBounds(asOf);
    var exact := DistinctIn(ds, signal, start, asOf);
    var hull := DistinctIn(ds, signal, BucketStart(start), BucketCeiling(asOf));
    assert exact <= hull;
    SubsetSize(exact, hull);
  }

  lemma {:induction false} BucketsInNumbers(t: int)
    ensures BucketStart(t) == t - t % 60_000_000 && BucketCeiling(t) == t + -t % 60_000_000
  {
    assert t == (t / 60_000_000) * 60_000_000 + t % 60_000_000;
    NegatedRemainder(t, 60_000_000);
  }

  lemma {:induction false} NegatedRemainder(t: int, d: int)
    requires 0 < d
    ensures -t % d == if t % d == 0 then 0 else d - t % d
  {
    W.FloorMultiple(-t, d);
    var q, r := t / d, t % d;
    assert -t == if r == 0 then -q * d else (-q - 1) * d + (d - r);
    if r == 0 {
      W.MultipleMod(-q, d);
    } else {
      RemainderIs(-q - 1, d - r, d);
    }
  }

  lemma {:induction false} RemainderIs(q: int, r: int, d: int)
    requires 0 <= r < d
    ensures (q * d + r) % d == r
  {
    var x := q * d + r;
    W.FloorMultiple(x, d);
    W.SmallMultiple(x / d - q, d);
    assert (x / d - q) * d == r - x % d;
  }

  /** The query in numbers, over the detections alone: the distinct ids of anomalies of the signal from the full minute
      at or before the window's start up to the full minute at or after the query instant. */
  lemma {:induction false} RollingCountInNumbers(ds: seq<Detection>, signal: string, asOf: int, windowSeconds: int)
    requires forall d, e ::
      (d in ds && e in ds && d.detectionType == e.detectionType == SignalAnomaly && d.detectionId == e.detectionId) ==>
        d.detectedAt == e.detectedAt
    ensures var start := asOf - windowSeconds * 1_000_000;
      Count(Fold(map[], ds), signal, BucketStart(asOf - windowSeconds * MICROS_PER_SECOND), asOf) ==
        |set d | d in ds && d.detectionType == SignalAnomaly && d.signalName == Some(signal)
               && start - start % 60_000_000 <= d.detectedAt < asOf + -asOf % 60_000_000 :: d.detectionId|
  {
    var start := asOf - windowSeconds * 1_000_000;
    RollingCount(ds, signal, start, asOf);
    BucketsInNumbers(start);
    BucketsInNumbers(asOf);
    DistinctInNumbers(ds, signal, BucketStart(start), BucketCeiling(asOf));
  }

  lemma {:induction false} DistinctInNumbers(ds: seq<Detection>, signal: string, from: int, to: int)
    ensures DistinctIn(ds, signal, from, to) ==
      set d | d in ds && d.detectionType == SignalAnomaly && d.signalName == Some(signal) && from <= d.detectedAt < to
      :: d.detectionId
  {
  }

  lemma {:induction false} SubsetSize(a: set<DetectionId>, b: set<DetectionId>)
    requires a <= b
    ensures |a| <= |b|
  {
    assert b == a + (b - a);
  }

  class AnomalyRateProjection {
    const store: InMemoryProjectionStore<BucketKey, set<DetectionId>>
    const VIEW := "anomaly_rate"

    ghost function View(): RateView
      reads store
    {
      store.View(VIEW)
    }

    constructor (store: InMemoryProjectionStore<BucketKey, set<DetectionId>>)
      ensures this.store == store
    {
      this.store := store;
    }

    method Observe(d: Detection)
      modifies store
      ensures View() == Step(old(View()), d)
      ensures forall w :: w != VIEW ==> store.View(w) == old(store.View(w))
    {
      if !d.detectionType.SignalAnomaly? || d.signalName.None? {
        return;
      }
      var key := (d.signalName.value, BucketStart(d.detectedAt));
      var loaded := store.Get(VIEW, key);
      var ids := if loaded.Some? then loaded.value else {};
      store.Put(VIEW, key, ids + {d.detectionId});
    }

    method CountInWindow(signal: string, asOf: int, windowSeconds: int) returns (total: nat)
      ensures total == Count(View(), signal, BucketStart(asOf - windowSeconds * MICROS_PER_SECOND), asOf)
    {
      var bucket := BucketStart(asOf - windowSeconds * MICROS_PER_SECOND);
      ghost var first := bucket;
      total := 0;
      while bucket < asOf
        invariant total + Count(View(), signal, bucket, asOf) == Count(View(), signal, first, asOf)
        decreases asOf - bucket
      {
        var ids := store.Get(VIEW, (signal, bucket));
        if ids.Some? {
          total := total + |ids.value|;
        }
        bucket := bucket + BUCKET;
      }
    }
  }
}
