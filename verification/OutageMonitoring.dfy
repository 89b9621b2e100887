/** The event path, the outage detector and the dashboard together: what the dashboard shows, told from the events. */
module OutageMonitoring {
  import opened Prelude
  import opened Detections
  import opened DeviceRegistries
  import opened Aggregations
  import opened WindowAggregators
  import opened WindowRuns
  import opened RealtimePipelines
  import D = OutageDetectors
  import P = ActiveOutageProjections

  /** The arrivals of a run that also registers devices. A registration that an event itself carries comes before its
      arrival: the registry observes an event before the detectors do. */
  function Arrivals<C>(ops: seq<Op<Arrival<C>>>): seq<Arrival<C>> {
    if ops == [] then []
    else
      var past := Arrivals(ops[..|ops| - 1]);
      match ops[|ops| - 1]
      case Register(_, _) => past
      case Arrive(a) => past + [a]
  }

  /** The device mapping that each arrival met. */
  function Bindings<C>(ops: seq<Op<Arrival<C>>>): (bs: seq<map<string, StoreId>>)
    ensures |bs| == |Arrivals(ops)|
  {
    if ops == [] then []
    else
      var past := ops[..|ops| - 1];
      match ops[|ops| - 1]
      case Register(_, _) => Bindings(past)
      case Arrive(_) => Bindings(past) + [Binding(past)]
  }

  /** An emission with the index of the arrival that caused it. */
  datatype Report = Report(step: nat, emission: WindowEmission<int>)

  function ReportsAt(step: nat, es: seq<WindowEmission<int>>): seq<Report> {
    seq(|es|, i requires 0 <= i < |es| => Report(step, es[i]))
  }

  /** What the detector is given, in order. */
  function Reports(results: seq<ProcessingResult<int>>): seq<Report> {
    if results == [] then []
    else
      var n := |results| - 1;
      Reports(results[..n]) + ReportsAt(n, results[n].emissions)
  }

  lemma {:induction false} ReportIsEmission(results: seq<ProcessingResult<int>>, r: Report)
    requires r in Reports(results)
    ensures r.step < |results| && r.emission in results[r.step].emissions
  {
    var n := |results| - 1;
    if r in Reports(results[..n]) {
      ReportIsEmission(results[..n], r);
    }
  }

  /** Every emission is reported once, call by call and in the order of its call. */
  lemma {:induction false} ReportsSnoc(results: seq<ProcessingResult<int>>, r: ProcessingResult<int>)
    ensures Reports([]) == []
    ensures var added := Reports(results + [r])[|Reports(results)|..];
      && |Reports(results + [r])| == |Reports(results)| + |r.emissions|
      && Reports(results + [r])[..|Reports(results)|] == Reports(results)
      && forall j :: 0 <= j < |r.emissions| ==> added[j] == Report(|results|, r.emissions[j])
  {
    assert (results + [r])[..|results|] == results;
  }

  /** What a run adds: a registration no arrival, an arrival itself and the mapping it meets. */
  lemma {:induction false} RunAdds<C>(ops: seq<Op<Arrival<C>>>, op: Op<Arrival<C>>)
    ensures Arrivals<C>([]) == [] && Bindings<C>([]) == []
    ensures Arrivals(ops + [op]) == Arrivals(ops) + if op.Arrive? then [op.e] else []
    ensures Bindings(ops + [op]) == Bindings(ops) + if op.Arrive? then [Binding(ops)] else []
  {
    assert (ops + [op])[..|ops|] == ops;
  }

  predicate StepsWithin(rs: seq<Report>, n: nat) {
    forall r :: r in rs ==> r.step < n
  }

  predicate HasStores(rs: seq<Report>) {
    forall r :: r in rs ==> r.emission.partitionKey != ""
  }

  /** The detector's readings: each emission's own value, with the number of devices registered at that moment. */
  function Readings(rs: seq<Report>, bindings: seq<map<string, StoreId>>): seq<D.Reading>
    requires HasStores(rs) && StepsWithin(rs, |bindings|)
  {
    seq(|rs|, i requires 0 <= i < |rs| =>
      var e := rs[i].emission;
      D.Reading(e.partitionKey, e.value, e.windowStart, e.windowEnd,
                Some(CountIn(bindings[rs[i].step], e.partitionKey))))
  }

  ghost function DevicesOf<C, K>(device: C -> K, events: seq<Event<C>>): set<K> {
    set c | c in Contributions(events) :: device(c)
  }

  /** The distinct devices of the events that a window of the store had accepted after step `step`. */
  ghost function BatchDevices<C, K>(cfg: Config<C, set<K>, int>, lw: nat, device: C -> K, history: seq<Arrival<C>>,
                                    step: nat, store: string, windowStart: int): set<K>
    requires cfg.spec.Valid() && step < |history|
  {
    DevicesOf(device, Accepted(cfg.spec, lw, windowStart, EventsFor(history[..step + 1], store)))
  }

  /** The readings of a detector that counts the devices itself, from the events. */
  ghost function BatchReadings<C, K>(cfg: Config<C, set<K>, int>, lw: nat, device: C -> K, history: seq<Arrival<C>>,
                                     rs: seq<Report>, bindings: seq<map<string, StoreId>>): seq<D.Reading>
    requires cfg.spec.Valid() && HasStores(rs) && StepsWithin(rs, |history|) && |bindings| == |history|
  {
    seq(|rs|, i requires 0 <= i < |rs| =>
      var e := rs[i].emission;
      var devices := BatchDevices(cfg, lw, device, history, rs[i].step, e.partitionKey, e.windowStart);
      D.Reading(e.partitionKey, |devices|, e.windowStart, e.windowStart + cfg.spec.Size(),
                Some(CountIn(bindings[rs[i].step], e.partitionKey))))
  }

  lemma {:induction false} BatchValue<C, K(!new)>(cfg: Config<C, set<K>, int>, device: C -> K, name: string,
                                                  accepted: seq<Event<C>>, e: WindowEmission<int>)
    requires cfg.agg == DistinctCountAggregation(device, name) && accepted != []
    requires e == EmissionOf(cfg, e.partitionKey, e.windowStart, BatchState(cfg, accepted, true), e.isRepair)
    ensures e.value == |DevicesOf(device, accepted)|
    ensures e.windowEnd == e.windowStart + cfg.spec.Size()
  {
    DistinctCountsKeys(device, name, Contributions(accepted));
  }

  /** Every value that is ever returned, not only the latest, is the batch count at that moment. */
  lemma {:induction false} EmissionIsBatch<C, K(!new)>(cfg: Config<C, set<K>, int>, lw: nat, device: C -> K,
                                                       name: string, history: seq<Arrival<C>>,
                                                       results: seq<ProcessingResult<int>>, r: Report)
    requires cfg.spec.Valid() && Faithful(cfg, lw, history, results) && lw <= cfg.latenessSeconds
    requires cfg.agg == DistinctCountAggregation(device, name) && r in Reports(results)
    ensures r.step < |history| && r.emission.partitionKey != ""
    ensures r.emission.windowEnd == r.emission.windowStart + cfg.spec.Size()
    ensures var e := r.emission;
      e.value == |BatchDevices(cfg, lw, device, history, r.step, e.partitionKey, e.windowStart)|
  {
    ReportIsEmission(results, r);
    var e := r.emission;
    ReturnedIsBatch(cfg, lw, history, results, r.step, e);
    var accepted := Accepted(cfg.spec, lw, e.windowStart, EventsFor(history[..r.step + 1], e.partitionKey));
    BatchValue(cfg, device, name, accepted, e);
  }

  lemma {:induction false} ReadingsAreBatch<C, K(!new)>(cfg: Config<C, set<K>, int>, lw: nat, device: C -> K,
                                                        name: string, history: seq<Arrival<C>>,
                                                        results: seq<ProcessingResult<int>>,
                                                        bindings: seq<map<string, StoreId>>)
    requires cfg.spec.Valid() && Faithful(cfg, lw, history, results) && lw <= cfg.latenessSeconds
    requires cfg.agg == DistinctCountAggregation(device, name) && |bindings| == |history|
    ensures var rs := Reports(results);
      && HasStores(rs) && StepsWithin(rs, |history|)
      && Readings(rs, bindings) == BatchReadings(cfg, lw, device, history, rs, bindings)
  {
    var rs := Reports(results);
    forall r | r in rs
      ensures r.step < |history| && r.emission.partitionKey != ""
    {
      EmissionIsBatch(cfg, lw, device, name, history, results, r);
    }
    var a, b := Readings(rs, bindings), BatchReadings(cfg, lw, device, history, rs, bindings);
    forall i | 0 <= i < |rs| ensures a[i] == b[i] {
      EmissionIsBatch(cfg, lw, device, name, history, results, rs[i]);
    }
    assert a == b;
  }

  /** Report `k` is the store's last one that met registered devices. */
  predicate LastMet(rs: seq<Report>, bindings: seq<map<string, StoreId>>, store: StoreId, k: nat)
    requires k < |rs| && StepsWithin(rs, |bindings|)
  {
    && rs[k].emission.partitionKey == store && CountIn(bindings[rs[k].step], store) > 0
    && forall m :: k < m < |rs| && rs[m].emission.partitionKey == store ==> CountIn(bindings[rs[m].step], store) == 0
  }

  lemma {:induction false} LastMetIsLastCounted(rs: seq<Report>, bindings: seq<map<string, StoreId>>, store: StoreId,
                                                k: nat)
    requires k < |rs| && HasStores(rs) && StepsWithin(rs, |bindings|)
    ensures LastMet(rs, bindings, store, k) <==> D.LastCounted(Readings(rs, bindings), store, k)
  {
    var readings := Readings(rs, bindings);
    assert forall m :: 0 <= m < |rs| ==>
      readings[m].store == rs[m].emission.partitionKey
      && readings[m].registered == Some(CountIn(bindings[rs[m].step], rs[m].emission.partitionKey));
  }

  /** Reading `k` in numbers, at the store's last report that met registered devices. */
  lemma {:induction false} ReadingInNumbers<C, K(!new)>(cfg: Config<C, set<K>, int>, lw: nat, device: C -> K,
                                                        history: seq<Arrival<C>>, rs: seq<Report>,
                                                        bindings: seq<map<string, StoreId>>, store: StoreId, k: nat)
    requires cfg.spec.Valid() && HasStores(rs) && StepsWithin(rs, |history|) && |bindings| == |history| && k < |rs|
    requires Readings(rs, bindings) == BatchReadings(cfg, lw, device, history, rs, bindings)
    ensures LastMet(rs, bindings, store, k) <==> D.LastCounted(Readings(rs, bindings), store, k)
    ensures LastMet(rs, bindings, store, k) ==>
      && Readings(rs, bindings)[k].registered == Some(CountIn(bindings[rs[k].step], store))
      && Readings(rs, bindings)[k].reporting ==
        |BatchDevices(cfg, lw, device, history, rs[k].step, store, rs[k].emission.windowStart)|
  {
    LastMetIsLastCounted(rs, bindings, store, k);
    assert Readings(rs, bindings)[k] == BatchReadings(cfg, lw, device, history, rs, bindings)[k];
  }

  /** Report `k` is the store's last one that met registered devices, and fewer distinct devices had been heard in its
      window than the threshold lets be missing. */
  ghost predicate ShowsOutage<C, K>(cfg: Config<C, set<K>, int>, lw: nat, device: C -> K, history: seq<Arrival<C>>,
                                    rs: seq<Report>, bindings: seq<map<string, StoreId>>, threshold: real,
                                    store: StoreId, k: nat)
    requires cfg.spec.Valid() && StepsWithin(rs, |history|) && |bindings| == |history| && k < |rs|
  {
    && LastMet(rs, bindings, store, k)
    && |BatchDevices(cfg, lw, device, history, rs[k].step, store, rs[k].emission.windowStart)| as real
       < (1.0 - threshold) * CountIn(bindings[rs[k].step], store) as real
  }

  lemma {:induction false} ShowsInNumbers<C, K(!new)>(cfg: Config<C, set<K>, int>, lw: nat, device: C -> K,
                                                      history: seq<Arrival<C>>, rs: seq<Report>,
                                                      bindings: seq<map<string, StoreId>>, threshold: real,
                                                      store: StoreId, k: nat)
    requires cfg.spec.Valid() && HasStores(rs) && StepsWithin(rs, |history|) && |bindings| == |history| && k < |rs|
    requires Readings(rs, bindings) == BatchReadings(cfg, lw, device, history, rs, bindings)
    requires 0.0 < threshold < 1.0
    ensures ShowsOutage(cfg, lw, device, history, rs, bindings, threshold, store, k) <==>
      && D.LastCounted(Readings(rs, bindings), store, k)
      && D.Verdict(threshold, Readings(rs, bindings)[k]) == Some(true)
  {
    ReadingInNumbers(cfg, lw, device, history, rs, bindings, store, k);
    D.VerdictInNumbers(threshold, Readings(rs, bindings)[k]);
  }

  /** From events and registrations to dashboard: when the emissions of a distinct-device pipeline and the registry's
      counts feed the detector, the dashboard shows a store exactly when its last report that met registered devices
      shows an outage. */
  lemma {:induction false} DashboardShowsBatchVerdict<C, K(!new)>(p: RealtimePipeline<C, set<K>, int>, device: C -> K,
                                                                  name: string, threshold: real,
                                                                  ops: seq<Op<Arrival<C>>>, store: StoreId)
    requires p.Valid() && p.Lw() <= p.Cfg().latenessSeconds && p.Cfg().agg == DistinctCountAggregation(device, name)
    requires p.history == Arrivals(ops) && 0.0 < threshold < 1.0
    ensures var rs, bindings := Reports(p.results), Bindings(ops);
      && HasStores(rs) && StepsWithin(rs, |p.history|)
      && (store in P.Fold(map[], D.RunOf(threshold, Readings(rs, bindings)).detections) <==>
            exists k :: 0 <= k < |rs| &&
              ShowsOutage(p.Cfg(), p.Lw(), device, p.history, rs, bindings, threshold, store, k))
  {
    var rs, bindings := Reports(p.results), Bindings(ops);
    ReadingsAreBatch(p.Cfg(), p.Lw(), device, name, p.history, p.results, bindings);
    D.DashboardShowsLastCounted(threshold, Readings(rs, bindings), store);
    forall k | 0 <= k < |rs|
      ensures ShowsOutage(p.Cfg(), p.Lw(), device, p.history, rs, bindings, threshold, store, k) <==>
        && D.LastCounted(Readings(rs, bindings), store, k)
        && D.Verdict(threshold, Readings(rs, bindings)[k]) == Some(true)
    {
      ShowsInNumbers(p.Cfg(), p.Lw(), device, p.history, rs, bindings, threshold, store, k);
    }
  }
}
