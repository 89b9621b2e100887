/** Per-partition buffering of pipeline output, flushed when a window emission arrives for the partition. */
module DatasetWriters {
  import opened Prelude
  import opened Detections
  import opened WindowAggregators

  const HOUR: int := 3600 * MICROS_PER_SECOND

  /** A store and the start of a UTC hour. */
  datatype PartitionKey = PartitionKey(storeId: string, hour: int)

  function TruncateToHour(t: int): int {
    (t / HOUR) * HOUR
  }

  datatype FeatureVector<+R> = FeatureVector(partitionKey: string, windowStart: int, windowEnd: int,
                                             values: map<string, R>)

  /** What the pipeline hands over for one event. */
  datatype Output<+R> = Output(
    emissions: seq<WindowEmission<R>>,
    detections: seq<Detection>,
    features: seq<FeatureVector<R>>
  )

  function EmissionKey<R>(e: WindowEmission<R>): PartitionKey {
    PartitionKey(e.partitionKey, TruncateToHour(e.windowStart))
  }

  /** The code reads the event timestamp, to which each of the three detectors gives the value of `detectedAt`. */
  function DetectionKey(d: Detection): PartitionKey {
    PartitionKey(d.storeId, TruncateToHour(d.detectedAt))
  }

  function FeatureKey<R>(f: FeatureVector<R>): PartitionKey {
    PartitionKey(f.partitionKey, TruncateToHour(f.windowStart))
  }

  /** The records of one partition, kept apart by kind, each list in arrival order. */
  datatype Buffer<+R> = Buffer(
    emissions: seq<WindowEmission<R>>,
    detections: seq<Detection>,
    features: seq<FeatureVector<R>>
  )

  function Empty<R>(): Buffer<R> {
    Buffer([], [], [])
  }

  function Join<R>(a: Buffer<R>, b: Buffer<R>): Buffer<R> {
    Buffer(a.emissions + b.emissions, a.detections + b.detections, a.features + b.features)
  }

  lemma {:induction false} JoinAssociates<R>(a: Buffer<R>, b: Buffer<R>, c: Buffer<R>)
    ensures Join(Join(a, b), c) == Join(a, Join(b, c))
    ensures Join(a, Empty()) == a && Join(Empty(), a) == a
  {
  }

  datatype FlushedPartition<+R> = FlushedPartition(partitionKey: PartitionKey, content: Buffer<R>)

  type Buffers<R> = map<PartitionKey, Buffer<R>>

  function BufferAt<R>(buffers: Buffers<R>, k: PartitionKey): Buffer<R> {
    if k in buffers then buffers[k] else Empty()
  }

  // What belongs to a partition.

  function EmissionsOf<R>(es: seq<WindowEmission<R>>, k: PartitionKey): seq<WindowEmission<R>> {
    if es == [] then []
    else
      var past := EmissionsOf(es[..|es| - 1], k);
      if EmissionKey(es[|es| - 1]) == k then past + [es[|es| - 1]] else past
  }

  function DetectionsOf(ds: seq<Detection>, k: PartitionKey): seq<Detection> {
    if ds == [] then []
    else
      var past := DetectionsOf(ds[..|ds| - 1], k);
      if DetectionKey(ds[|ds| - 1]) == k then past + [ds[|ds| - 1]] else past
  }

  function FeaturesOf<R>(fs: seq<FeatureVector<R>>, k: PartitionKey): seq<FeatureVector<R>> {
    if fs == [] then []
    else
      var past := FeaturesOf(fs[..|fs| - 1], k);
      if FeatureKey(fs[|fs| - 1]) == k then past + [fs[|fs| - 1]] else past
  }

  function OutputFor<R>(o: Output<R>, k: PartitionKey): Buffer<R> {
    Buffer(EmissionsOf(o.emissions, k), DetectionsOf(o.detections, k), FeaturesOf(o.features, k))
  }

  lemma {:induction false} HourInNumbers(t: int, hour: int)
    ensures TruncateToHour(t) == hour <==> hour % 3_600_000_000 == 0 && hour <= t < hour + 3_600_000_000
  {
    var h := t / 3_600_000_000;
    if hour % 3_600_000_000 == 0 {
      assert hour == (hour / 3_600_000_000) * 3_600_000_000;
    }
    assert (h * 3_600_000_000) % 3_600_000_000 == 0;
  }

  /** Where a record belongs: to its store and the hour of its window start or detection, in arrival order. */
  lemma {:induction false} BelongsInNumbers<R>(es: seq<WindowEmission<R>>, e: WindowEmission<R>, ds: seq<Detection>,
                                               d: Detection, fs: seq<FeatureVector<R>>, f: FeatureVector<R>,
                                               k: PartitionKey)
    ensures EmissionsOf(es[..0], k) == [] && DetectionsOf(ds[..0], k) == [] && FeaturesOf(fs[..0], k) == []
    ensures EmissionsOf(es + [e], k) == EmissionsOf(es, k) +
      if e.partitionKey == k.storeId && k.hour % 3_600_000_000 == 0 && k.hour <= e.windowStart < k.hour + 3_600_000_000
      then [e] else []
    ensures DetectionsOf(ds + [d], k) == DetectionsOf(ds, k) +
      if d.storeId == k.storeId && k.hour % 3_600_000_000 == 0 && k.hour <= d.detectedAt < k.hour + 3_600_000_000
      then [d] else []
    ensures FeaturesOf(fs + [f], k) == FeaturesOf(fs, k) +
      if f.partitionKey == k.storeId && k.hour % 3_600_000_000 == 0 && k.hour <= f.windowStart < k.hour + 3_600_000_000
      then [f] else []
  {
    assert (es + [e])[..|es|] == es && (ds + [d])[..|ds|] == ds && (fs + [f])[..|fs|] == fs;
    HourInNumbers(e.windowStart, k.hour);
    HourInNumbers(d.detectedAt, k.hour);
    HourInNumbers(f.windowStart, k.hour);
  }

  /** Everything absorbed for the partition, in arrival order. */
  function AbsorbedFor<R>(os: seq<Output<R>>, k: PartitionKey): Buffer<R> {
    if os == [] then Empty() else Join(AbsorbedFor(os[..|os| - 1], k), OutputFor(os[|os| - 1], k))
  }

  /** Everything flushed for the partition, in flush order. */
  function FlushedFor<R>(fs: seq<FlushedPartition<R>>, k: PartitionKey): Buffer<R> {
    if fs == [] then Empty()
    else
      var past := FlushedFor(fs[..|fs| - 1], k);
      if fs[|fs| - 1].partitionKey == k then Join(past, fs[|fs| - 1].content) else past
  }

  /** What still waits for the partition: everything absorbed since the last output that had an emission for it. */
  function PendingFor<R>(os: seq<Output<R>>, k: PartitionKey): Buffer<R> {
    if os == [] || EmissionsOf(os[|os| - 1].emissions, k) != [] then Empty()
    else Join(PendingFor(os[..|os| - 1], k), OutputFor(os[|os| - 1], k))
  }

  /** Distinct keys in first-seen order. */
  function FirstSeen<R>(es: seq<WindowEmission<R>>): seq<PartitionKey> {
    if es == [] then []
    else
      var past := FirstSeen(es[..|es| - 1]);
      var k := EmissionKey(es[|es| - 1]);
      if k in past then past else past + [k]
  }

  lemma {:induction false} FirstSeenDistinct<R>(es: seq<WindowEmission<R>>)
    ensures NoDuplicates(FirstSeen(es))
  {
    if es != [] {
      FirstSeenDistinct(es[..|es| - 1]);
    }
  }

  lemma {:induction false} FirstSeenKeys<R>(es: seq<WindowEmission<R>>, k: PartitionKey)
    ensures k in FirstSeen(es) <==> EmissionsOf(es, k) != []
  {
    if es != [] {
      FirstSeenKeys(es[..|es| - 1], k);
    }
  }

  /** No record is lost, duplicated or moved: for every partition, what was flushed followed by what is buffered is what
      was absorbed, kind by kind and in order; what is buffered arrived since the partition's last emission, so no
      emission waits between calls. */
  ghost predicate Conserved<R>(os: seq<Output<R>>, flushed: seq<FlushedPartition<R>>, buffers: Buffers<R>) {
    && (forall k :: Join(FlushedFor(flushed, k), BufferAt(buffers, k)) == AbsorbedFor(os, k))
    && (forall k :: BufferAt(buffers, k) == PendingFor(os, k))
    && (forall k :: BufferAt(buffers, k).emissions == [])
  }

  /** Every record of the buffer belongs to the partition. */
  ghost predicate InPlace<R>(k: PartitionKey, b: Buffer<R>) {
    && (forall e :: e in b.emissions ==>
          e.partitionKey == k.storeId && k.hour % 3_600_000_000 == 0
          && k.hour <= e.windowStart < k.hour + 3_600_000_000)
    && (forall d :: d in b.detections ==>
          d.storeId == k.storeId && k.hour % 3_600_000_000 == 0
          && k.hour <= d.detectedAt < k.hour + 3_600_000_000)
    && (forall f :: f in b.features ==>
          f.partitionKey == k.storeId && k.hour % 3_600_000_000 == 0
          && k.hour <= f.windowStart < k.hour + 3_600_000_000)
  }

  lemma {:induction false} EmissionsInPlace<R>(es: seq<WindowEmission<R>>, k: PartitionKey)
    ensures InPlace(k, Buffer(EmissionsOf(es, k), [], []))
  {
    if es != [] {
      EmissionsInPlace(es[..|es| - 1], k);
      HourInNumbers(es[|es| - 1].windowStart, k.hour);
    }
  }

  lemma {:induction false} DetectionsInPlace<R>(ds: seq<Detection>, k: PartitionKey)
    ensures InPlace<R>(k, Buffer([], DetectionsOf(ds, k), []))
  {
    if ds != [] {
      DetectionsInPlace<R>(ds[..|ds| - 1], k);
      HourInNumbers(ds[|ds| - 1].detectedAt, k.hour);
    }
  }

  lemma {:induction false} FeaturesInPlace<R>(fs: seq<FeatureVector<R>>, k: PartitionKey)
    ensures InPlace(k, Buffer([], [], FeaturesOf(fs, k)))
  {
    if fs != [] {
      FeaturesInPlace(fs[..|fs| - 1], k);
      HourInNumbers(fs[|fs| - 1].windowStart, k.hour);
    }
  }

  lemma {:induction false} AbsorbedInPlace<R>(os: seq<Output<R>>, k: PartitionKey)
    ensures InPlace(k, AbsorbedFor(os, k))
  {
    if os != [] {
      var o := os[|os| - 1];
      AbsorbedInPlace(os[..|os| - 1], k);
      EmissionsInPlace(o.emissions, k);
      DetectionsInPlace<R>(o.detections, k);
      FeaturesInPlace(o.features, k);
    }
  }

  lemma {:induction false} FlushedContent<R>(fs: seq<FlushedPartition<R>>, i: nat)
    requires i < |fs|
    ensures var all := FlushedFor(fs, fs[i].partitionKey);
      && (forall e :: e in fs[i].content.emissions ==> e in all.emissions)
      && (forall d :: d in fs[i].content.detections ==> d in all.detections)
      && (forall f :: f in fs[i].content.features ==> f in all.features)
  {
    if i < |fs| - 1 {
      FlushedContent(fs[..|fs| - 1], i);
    }
  }

  /** Every record that was flushed or is buffered lies in the partition of its own store and hour. */
  lemma {:induction false} RecordsInPlace<R>(w: PartitionBufferSet<R>, k: PartitionKey)
    requires w.Valid()
    ensures InPlace(k, BufferAt(w.buffers, k))
    ensures forall i :: 0 <= i < |w.flushed| ==> InPlace(w.flushed[i].partitionKey, w.flushed[i].content)
  {
    AbsorbedInPlace(w.absorbed, k);
    assert Join(FlushedFor(w.flushed, k), BufferAt(w.buffers, k)) == AbsorbedFor(w.absorbed, k);
    forall i | 0 <= i < |w.flushed| ensures InPlace(w.flushed[i].partitionKey, w.flushed[i].content) {
      var key := w.flushed[i].partitionKey;
      AbsorbedInPlace(w.absorbed, key);
      assert Join(FlushedFor(w.flushed, key), BufferAt(w.buffers, key)) == AbsorbedFor(w.absorbed, key);
      FlushedContent(w.flushed, i);
    }
  }

  /** Later emissions do not change the order of the partitions seen before. */
  lemma {:induction false} FirstSeenGrows<R>(es: seq<WindowEmission<R>>, n: nat)
    requires n <= |es|
    ensures FirstSeen(es[..n]) <= FirstSeen(es)
  {
    if n < |es| {
      FirstSeenGrows(es[..|es| - 1], n);
      assert es[..|es| - 1][..n] == es[..n];
    } else {
      WholePrefix(es);
    }
  }

  function Flushes<R>(buffers: Buffers<R>, keys: seq<PartitionKey>): seq<FlushedPartition<R>> {
    if keys == [] then []
    else
      var k := keys[|keys| - 1];
      Flushes(buffers, keys[..|keys| - 1]) + [FlushedPartition(k, BufferAt(buffers, k))]
  }

  function KeysOf<R>(fs: seq<FlushedPartition<R>>): seq<PartitionKey> {
    if fs == [] then [] else KeysOf(fs[..|fs| - 1]) + [fs[|fs| - 1].partitionKey]
  }

  lemma {:induction false} FlushesFor<R>(earlier: seq<FlushedPartition<R>>, buffers: Buffers<R>,
                                         keys: seq<PartitionKey>, k: PartitionKey)
    requires NoDuplicates(keys)
    ensures FlushedFor(earlier + Flushes(buffers, keys), k) ==
      Join(FlushedFor(earlier, k), if k in keys then BufferAt(buffers, k) else Empty())
  {
    if keys == [] {
      assert earlier + Flushes(buffers, keys) == earlier;
      JoinAssociates(FlushedFor(earlier, k), Empty(), Empty());
    } else {
      var past, last := keys[..|keys| - 1], keys[|keys| - 1];
      Rejoin(keys);
      NotBefore(keys, |keys| - 1);
      FlushesFor(earlier, buffers, past, k);
      var fs := earlier + Flushes(buffers, keys);
      assert fs[..|fs| - 1] == earlier + Flushes(buffers, past);
      JoinAssociates(FlushedFor(earlier, k), Empty(), BufferAt(buffers, k));
    }
  }

  lemma {:induction false} FlushesInOrder<R>(buffers: Buffers<R>, keys: seq<PartitionKey>)
    ensures KeysOf(Flushes(buffers, keys)) == keys
    ensures |Flushes(buffers, keys)| == |keys|
    ensures forall i :: 0 <= i < |keys| ==> Flushes(buffers, keys)[i].content == BufferAt(buffers, keys[i])
  {
    if keys != [] {
      FlushesInOrder(buffers, keys[..|keys| - 1]);
      var fs := Flushes(buffers, keys);
      assert fs[..|fs| - 1] == Flushes(buffers, keys[..|keys| - 1]);
    }
  }

  /** Every partition's buffer grew by its share of the output. */
  ghost predicate Gains<R>(before: Buffers<R>, after: Buffers<R>, o: Output<R>) {
    forall k :: BufferAt(after, k) == Join(BufferAt(before, k), OutputFor(o, k))
  }

  lemma {:induction false} GainsEmission<R>(before: Buffers<R>, after: Buffers<R>, es: seq<WindowEmission<R>>,
                                            e: WindowEmission<R>)
    requires Gains(before, after, Output(es, [], []))
    ensures var b := BufferAt(after, EmissionKey(e));
      Gains(before, after[EmissionKey(e) := b.(emissions := b.emissions + [e])], Output(es + [e], [], []))
    ensures FirstSeen(es + [e]) ==
      if EmissionKey(e) in FirstSeen(es) then FirstSeen(es) else FirstSeen(es) + [EmissionKey(e)]
  {
    assert (es + [e])[..|es|] == es;
    var key, b := EmissionKey(e), BufferAt(after, EmissionKey(e));
    var after' := after[key := b.(emissions := b.emissions + [e])];
    forall k ensures BufferAt(after', k) == Join(BufferAt(before, k), OutputFor(Output(es + [e], [], []), k)) {
      if k == key {
        ConcatAssociates(BufferAt(before, k).emissions, EmissionsOf(es, k), [e]);
      }
    }
  }

  lemma {:induction false} GainsDetection<R>(before: Buffers<R>, after: Buffers<R>, ds: seq<Detection>, d: Detection)
    requires Gains(before, after, Output([], ds, []))
    ensures var b := BufferAt(after, DetectionKey(d));
      Gains(before, after[DetectionKey(d) := b.(detections := b.detections + [d])], Output([], ds + [d], []))
  {
    assert (ds + [d])[..|ds|] == ds;
    var key, b := DetectionKey(d), BufferAt(after, DetectionKey(d));
    var after' := after[key := b.(detections := b.detections + [d])];
    forall k ensures BufferAt(after', k) == Join(BufferAt(before, k), OutputFor(Output([], ds + [d], []), k)) {
      if k == key {
        ConcatAssociates(BufferAt(before, k).detections, DetectionsOf(ds, k), [d]);
      }
    }
  }

  lemma {:induction false} GainsFeature<R>(before: Buffers<R>, after: Buffers<R>, fs: seq<FeatureVector<R>>,
                                           f: FeatureVector<R>)
    requires Gains(before, after, Output([], [], fs))
    ensures var b := BufferAt(after, FeatureKey(f));
      Gains(before, after[FeatureKey(f) := b.(features := b.features + [f])], Output([], [], fs + [f]))
  {
    assert (fs + [f])[..|fs|] == fs;
    var key, b := FeatureKey(f), BufferAt(after, FeatureKey(f));
    var after' := after[key := b.(features := b.features + [f])];
    forall k ensures BufferAt(after', k) == Join(BufferAt(before, k), OutputFor(Output([], [], fs + [f]), k)) {
      if k == key {
        ConcatAssociates(BufferAt(before, k).features, FeaturesOf(fs, k), [f]);
      }
    }
  }

  lemma {:induction false} GainsAll<R>(b0: Buffers<R>, b1: Buffers<R>, b2: Buffers<R>, b3: Buffers<R>, o: Output<R>)
    requires Gains(b0, b1, Output([], o.detections, [])) && Gains(b1, b2, Output([], [], o.features))
    requires Gains(b2, b3, Output(o.emissions, [], []))
    ensures Gains(b0, b3, o)
  {
    forall k ensures BufferAt(b3, k) == Join(BufferAt(b0, k), OutputFor(o, k)) {
      JoinByKind(BufferAt(b0, k), OutputFor(o, k));
    }
  }

  lemma {:induction false} JoinByKind<R>(b: Buffer<R>, o: Buffer<R>)
    ensures Join(Join(Join(b, Buffer([], o.detections, [])), Buffer([], [], o.features)), Buffer(o.emissions, [], []))
      == Join(b, o)
  {
  }

  /** One call: from the buffers before it, filled with the output, flushed for the keys of the emissions. */
  lemma {:induction false} AbsorbConserves<R>(os: seq<Output<R>>, o: Output<R>, flushed: seq<FlushedPartition<R>>,
                                              buffers: Buffers<R>, full: Buffers<R>, buffers': Buffers<R>)
    requires Conserved(os, flushed, buffers)
    requires Gains(buffers, full, o)
    requires forall k :: BufferAt(buffers', k) == if k in FirstSeen(o.emissions) then Empty() else BufferAt(full, k)
    ensures Conserved(os + [o], flushed + Flushes(full, FirstSeen(o.emissions)), buffers')
  {
    var keys := FirstSeen(o.emissions);
    FirstSeenDistinct(o.emissions);
    forall k
      ensures Join(FlushedFor(flushed + Flushes(full, keys), k), BufferAt(buffers', k)) == AbsorbedFor(os + [o], k)
      ensures BufferAt(buffers', k) == PendingFor(os + [o], k)
      ensures BufferAt(buffers', k).emissions == []
    {
      FirstSeenKeys(o.emissions, k);
      FlushesFor(flushed, full, keys, k);
      OutputsSnoc(os, o, k);
      JoinAcross(FlushedFor(flushed, k), BufferAt(buffers, k), OutputFor(o, k));
    }
  }

  /** Every partition flagged for flushing holds an emission. */
  lemma {:induction false} FlaggedHoldEmissions<R>(before: Buffers<R>, full: Buffers<R>, o: Output<R>)
    requires Gains(before, full, o)
    ensures forall k :: k in FirstSeen(o.emissions) ==> BufferAt(full, k).emissions != []
  {
    forall k | k in FirstSeen(o.emissions) ensures BufferAt(full, k).emissions != [] {
      FirstSeenKeys(o.emissions, k);
    }
  }

  lemma {:induction false} OutputsSnoc<R>(os: seq<Output<R>>, o: Output<R>, k: PartitionKey)
    ensures AbsorbedFor(os + [o], k) == Join(AbsorbedFor(os, k), OutputFor(o, k))
    ensures PendingFor(os + [o], k) ==
      if EmissionsOf(o.emissions, k) != [] then Empty() else Join(PendingFor(os, k), OutputFor(o, k))
  {
    assert (os + [o])[..|os|] == os;
  }

  /** Flushing the filled buffer or keeping it gives the same total. */
  lemma {:induction false} JoinAcross<R>(flushed: Buffer<R>, held: Buffer<R>, gained: Buffer<R>)
    ensures Join(Join(flushed, Join(held, gained)), Empty()) == Join(Join(flushed, held), gained)
    ensures Join(Join(flushed, Empty()), Join(held, gained)) == Join(Join(flushed, held), gained)
  {
    JoinAssociates(flushed, held, gained);
    JoinAssociates(Join(flushed, Join(held, gained)), Empty(), Empty());
    JoinAssociates(flushed, Empty(), Empty());
  }

  class PartitionBufferSet<R> {
    var buffers: Buffers<R>
    /** What the flush callback has received. */
    var flushed: seq<FlushedPartition<R>>
    ghost var absorbed: seq<Output<R>>

    ghost predicate Valid()
      reads this
    {
      Conserved(absorbed, flushed, buffers)
    }

    constructor ()
      ensures Valid() && absorbed == [] && flushed == []
    {
      buffers := map[];
      flushed := [];
      absorbed := [];
    }

    /** Buffers everything, then flushes each partition that received an emission, once, in first-seen order. */
    method Absorb(o: Output<R>)
      requires Valid()
      modifies this
      ensures Valid() && absorbed == old(absorbed) + [o]
      ensures old(flushed) <= flushed
      ensures KeysOf(flushed[|old(flushed)|..]) == FirstSeen(o.emissions)
      ensures forall i :: |old(flushed)| <= i < |flushed| ==> flushed[i].content.emissions != []
    {
      BufferDetections(o.detections);
      ghost var withDetections := buffers;
      BufferFeatures(o.features);
      ghost var withFeatures := buffers;
      var keys := BufferEmissions(o.emissions);
      ghost var full := buffers;
      GainsAll(old(buffers), withDetections, withFeatures, full, o);
      FirstSeenDistinct(o.emissions);
      FlushAll(keys);
      absorbed := absorbed + [o];
      AbsorbConserves(old(absorbed), o, old(flushed), old(buffers), full, buffers);
      FlaggedHoldEmissions(old(buffers), full, o);
      FlushesInOrder(full, keys);
      assert flushed[|old(flushed)|..] == Flushes(full, keys);
    }

    method BufferDetections(ds: seq<Detection>)
      modifies `buffers
      ensures Gains(old(buffers), buffers, Output([], ds, []))
    {
      TakeEnds([], ds);
      for i := 0 to |ds|
        invariant Gains(old(buffers), buffers, Output([], ds[..i], []))
      {
        TakeNext(ds, i);
        GainsDetection(old(buffers), buffers, ds[..i], ds[i]);
        var key := DetectionKey(ds[i]);
        var b := BufferAt(buffers, key);
        buffers := buffers[key := b.(detections := b.detections + [ds[i]])];
      }
      WholePrefix(ds);
    }

    method BufferFeatures(fs: seq<FeatureVector<R>>)
      modifies `buffers
      ensures Gains(old(buffers), buffers, Output([], [], fs))
    {
      TakeEnds([], fs);
      for i := 0 to |fs|
        invariant Gains(old(buffers), buffers, Output([], [], fs[..i]))
      {
        TakeNext(fs, i);
        GainsFeature(old(buffers), buffers, fs[..i], fs[i]);
        var key := FeatureKey(fs[i]);
        var b := BufferAt(buffers, key);
        buffers := buffers[key := b.(features := b.features + [fs[i]])];
      }
      WholePrefix(fs);
    }

    /** Also collects the partitions to flush, without repetition. */
    method BufferEmissions(es: seq<WindowEmission<R>>) returns (keys: seq<PartitionKey>)
      modifies `buffers
      ensures keys == FirstSeen(es)
      ensures Gains(old(buffers), buffers, Output(es, [], []))
      ensures forall k :: k in keys ==> k in buffers
    {
      keys := [];
      TakeEnds([], es);
      for i := 0 to |es|
        invariant Gains(old(buffers), buffers, Output(es[..i], [], []))
        invariant keys == FirstSeen(es[..i]) && forall k :: k in keys ==> k in buffers
      {
        TakeNext(es, i);
        GainsEmission(old(buffers), buffers, es[..i], es[i]);
        var key := EmissionKey(es[i]);
        var b := BufferAt(buffers, key);
        buffers := buffers[key := b.(emissions := b.emissions + [es[i]])];
        if key !in keys {
          keys := keys + [key];
        }
      }
      WholePrefix(es);
    }

    method FlushAll(keys: seq<PartitionKey>)
      requires NoDuplicates(keys) && forall k :: k in keys ==> k in buffers
      modifies `buffers, `flushed
      ensures flushed == old(flushed) + Flushes(old(buffers), keys)
      ensures forall k :: BufferAt(buffers, k) == if k in keys then Empty() else BufferAt(old(buffers), k)
    {
      TakeEnds([], keys);
      for i := 0 to |keys|
        invariant flushed == old(flushed) + Flushes(old(buffers), keys[..i])
        invariant buffers.Keys == old(buffers).Keys
        invariant forall k :: BufferAt(buffers, k) == if k in keys[..i] then Empty() else BufferAt(old(buffers), k)
      {
        TakeNext(keys, i);
        NotBefore(keys, i);
        var key := keys[i];
        flushed := flushed + [FlushedPartition(key, buffers[key])];
        buffers := buffers[key := Empty()];
      }
      WholePrefix(keys);
    }
  }
}
