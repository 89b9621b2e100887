/** Store outages from distinct-device window emissions, and the view that folds them. */
module OutageDetectors {
  import opened Prelude
  import opened Detections
  import P = ActiveOutageProjections

  /** What the detector reads of an emission, with the number of devices registered for its store at that moment. */
  datatype Reading = Reading(store: StoreId, reporting: int, windowStart: int, windowEnd: int, registered: Option<nat>)

  /** A store without registered devices has no meaningful ratio. */
  predicate Evaluated(r: Reading) {
    r.registered.Some? && r.registered.value != 0
  }

  predicate Breached(threshold: real, r: Reading)
    requires Evaluated(r)
  {
    Max(0, r.registered.value - r.reporting) as real / r.registered.value as real > threshold
  }

  function DetectionOf(r: Reading, kind: DetectionType): Detection {
    Detection(OfStore(kind, r.store, r.windowStart, r.windowEnd), kind, r.windowEnd, r.store, None, None)
  }

  /** Whether the reading breaches, if it says anything. */
  function Verdict(threshold: real, r: Reading): Option<bool> {
    if Evaluated(r) then Some(Breached(threshold, r)) else None
  }

  function DetectionsFor(verdict: Option<bool>, inOutage: set<StoreId>, r: Reading): seq<Detection> {
    match verdict
    case None => []
    case Some(breached) =>
      if breached && r.store !in inOutage then [DetectionOf(r, StoreOutage)]
      else if !breached && r.store in inOutage then [DetectionOf(r, StoreRecovered)]
      else []
  }

  function NextState(verdict: Option<bool>, inOutage: set<StoreId>, store: StoreId): set<StoreId> {
    match verdict
    case None => inOutage
    case Some(breached) => if breached then inOutage + {store} else inOutage - {store}
  }

  class OutageDetector {
    const threshold: real
    /** The keys of the state mapping: every value in it is "outage". */
    var inOutage: set<StoreId>

    constructor (threshold: real)
      requires 0.0 < threshold < 1.0
      ensures this.threshold == threshold && inOutage == {}
    {
      this.threshold := threshold;
      inOutage := {};
    }

    method ObserveEmission(r: Reading) returns (ds: seq<Detection>)
      modifies this
      ensures inOutage == NextState(Verdict(threshold, r), old(inOutage), r.store)
      ensures ds == DetectionsFor(Verdict(threshold, r), old(inOutage), r)
      ensures r.registered.None? || r.registered.value == 0 ==> inOutage == old(inOutage) && ds == []
      ensures 0.0 < threshold < 1.0 && r.registered.Some? && r.registered.value > 0 ==>
        (r.store in inOutage <==> r.reporting as real < (1.0 - threshold) * r.registered.value as real)
      ensures inOutage - {r.store} == old(inOutage) - {r.store}
      ensures forall d :: d in ds ==>
        && d.storeId == r.store && d.detectedAt == r.windowEnd && d.deviceId == None
        && d.detectionId == OfStore(d.detectionType, r.store, r.windowStart, r.windowEnd)
      ensures ds == [] <==> (r.store in inOutage <==> r.store in old(inOutage))
      ensures ds != [] ==>
        |ds| == 1 && ds[0].detectionType == if r.store in inOutage then StoreOutage else StoreRecovered
    {
      VerdictInNumbers(threshold, r);
      if r.registered.None? || r.registered.value == 0 {
        return [];
      }
      var registered := r.registered.value;
      var offlineCount := Max(0, registered - r.reporting);
      var offlineRatio := offlineCount as real / registered as real;
      var currentlyInOutage := r.store in inOutage;
      if offlineRatio > threshold {
        if currentlyInOutage {
          return [];
        }
        inOutage := inOutage + {r.store};
        ds := [DetectionOf(r, StoreOutage)];
      } else if currentlyInOutage {
        inOutage := inOutage - {r.store};
        ds := [DetectionOf(r, StoreRecovered)];
      } else {
        ds := [];
      }
    }
  }

  /** The verdict in numbers: a window breaches exactly when fewer devices report than the threshold lets be missing. */
  lemma {:induction false} VerdictInNumbers(threshold: real, r: Reading)
    ensures Verdict(threshold, r).None? <==> r.registered.None? || r.registered.value == 0
    ensures 0.0 < threshold < 1.0 && r.registered.Some? && r.registered.value > 0 ==>
      (Verdict(threshold, r) == Some(true) <==>
        r.reporting as real < (1.0 - threshold) * r.registered.value as real)
  {
    if 0.0 < threshold < 1.0 && Evaluated(r) {
      var n, missing := r.registered.value as real, Max(0, r.registered.value - r.reporting) as real;
      ShareAbove(missing, n, threshold);
      assert (1.0 - threshold) * n == n - threshold * n;
      ProductPositive(threshold, n);
      ProductPositive(1.0 - threshold, n);
    }
  }

  lemma {:induction false} ShareAbove(x: real, n: real, t: real)
    requires 0.0 < n
    ensures x / n > t <==> x > t * n
  {
    var share := x / n;
    assert x == share * n;
    if share > t {
      ProductPositive(share - t, n);
    } else if share < t {
      ProductPositive(t - share, n);
    }
  }

  lemma {:induction false} ProductPositive(a: real, b: real)
    requires 0.0 < a && 0.0 < b
    ensures 0.0 < a * b
  {
  }

  // Runs.

  datatype Trace = Trace(inOutage: set<StoreId>, detections: seq<Detection>)

  function RunOf(threshold: real, rs: seq<Reading>): Trace {
    if rs == [] then Trace({}, [])
    else
      var before := RunOf(threshold, rs[..|rs| - 1]);
      var r := rs[|rs| - 1];
      Trace(NextState(Verdict(threshold, r), before.inOutage, r.store),
            before.detections + DetectionsFor(Verdict(threshold, r), before.inOutage, r))
  }

  /** The latest reading of the store that could be evaluated. */
  function LastEvaluated(rs: seq<Reading>, store: StoreId): Option<Reading> {
    if rs == [] then None
    else
      var r := rs[|rs| - 1];
      if Evaluated(r) && r.store == store then Some(r) else LastEvaluated(rs[..|rs| - 1], store)
  }

  /** The state machine in closed form: a store is in outage exactly when its latest evaluated window breached. */
  lemma {:induction false} InOutageIsLastVerdict(threshold: real, rs: seq<Reading>, store: StoreId)
    ensures store in RunOf(threshold, rs).inOutage <==>
      LastEvaluated(rs, store).Some? && Verdict(threshold, LastEvaluated(rs, store).value) == Some(true)
  {
    if rs != [] {
      InOutageIsLastVerdict(threshold, rs[..|rs| - 1], store);
    }
  }

  /** The folded view shows exactly the stores the detector holds in outage, whatever the readings and however the
      numbers of registered devices change. */
  lemma {:induction false} ViewIsDetectorState(threshold: real, rs: seq<Reading>)
    ensures P.Fold(map[], RunOf(threshold, rs).detections).Keys == RunOf(threshold, rs).inOutage
  {
    if rs != [] {
      var before := RunOf(threshold, rs[..|rs| - 1]);
      var r := rs[|rs| - 1];
      ViewIsDetectorState(threshold, rs[..|rs| - 1]);
      P.FoldAppend(map[], before.detections, DetectionsFor(Verdict(threshold, r), before.inOutage, r));
      ViewStep(P.Fold(map[], before.detections), Verdict(threshold, r), before.inOutage, r);
    }
  }

  lemma {:induction false} ViewStep(v: P.OutageView, verdict: Option<bool>, inOutage: set<StoreId>, r: Reading)
    requires v.Keys == inOutage
    ensures P.Fold(v, DetectionsFor(verdict, inOutage, r)).Keys == NextState(verdict, inOutage, r.store)
  {
    var ds := DetectionsFor(verdict, inOutage, r);
    if ds != [] {
      assert ds[..|ds| - 1] == [];
    }
  }

  /** The dashboard shows a store exactly when its latest evaluated window had too few devices reporting. */
  lemma {:induction false} DashboardShowsLastVerdict(threshold: real, rs: seq<Reading>, store: StoreId)
    ensures store in P.Fold(map[], RunOf(threshold, rs).detections) <==>
      LastEvaluated(rs, store).Some? && Verdict(threshold, LastEvaluated(rs, store).value) == Some(true)
  {
    ViewIsDetectorState(threshold, rs);
    InOutageIsLastVerdict(threshold, rs, store);
  }

  /** The same by position: the store's last reading with registered devices breached. */
  lemma {:induction false} DashboardShowsLastCounted(threshold: real, rs: seq<Reading>, store: StoreId)
    ensures store in P.Fold(map[], RunOf(threshold, rs).detections) <==>
      exists k :: 0 <= k < |rs| && LastCounted(rs, store, k) && Verdict(threshold, rs[k]) == Some(true)
  {
    DashboardShowsLastVerdict(threshold, rs, store);
    LastEvaluatedIsLast(rs, store);
  }

  /** Reading `k` is the store's last one with registered devices. */
  predicate LastCounted(rs: seq<Reading>, store: StoreId, k: nat)
    requires k < |rs|
  {
    && rs[k].store == store && rs[k].registered.Some? && rs[k].registered.value > 0
    && forall m :: k < m < |rs| && rs[m].store == store ==> rs[m].registered.None? || rs[m].registered.value == 0
  }

  lemma {:induction false} LastEvaluatedIsLast(rs: seq<Reading>, store: StoreId)
    ensures LastEvaluated(rs, store).Some? ==>
      exists k :: 0 <= k < |rs| && LastCounted(rs, store, k) && rs[k] == LastEvaluated(rs, store).value
    ensures forall k :: 0 <= k < |rs| && LastCounted(rs, store, k) ==> LastEvaluated(rs, store) == Some(rs[k])
  {
    if rs != [] {
      var n := |rs| - 1;
      LastEvaluatedIsLast(rs[..n], store);
      if Evaluated(rs[n]) && rs[n].store == store {
        assert LastCounted(rs, store, n);
      } else {
        forall k | 0 <= k < n ensures LastCounted(rs, store, k) <==> LastCounted(rs[..n], store, k) {
          assert forall m :: k < m < n ==> rs[..n][m] == rs[m];
        }
      }
    }
  }

  // Alternation.

  function Transitions(ds: seq<Detection>, store: StoreId): seq<DetectionType> {
    if ds == [] then []
    else
      var past := Transitions(ds[..|ds| - 1], store);
      if ds[|ds| - 1].storeId == store then past + [ds[|ds| - 1].detectionType] else past
  }

  predicate Alternates(ts: seq<DetectionType>) {
    forall i :: 0 <= i < |ts| ==> ts[i] == if i % 2 == 0 then StoreOutage else StoreRecovered
  }

  /** Each store's detections alternate, outage first, so each is emitted once per transition. */
  lemma {:induction false} OutagesAlternate(threshold: real, rs: seq<Reading>, store: StoreId)
    ensures Alternates(Transitions(RunOf(threshold, rs).detections, store))
    ensures store in RunOf(threshold, rs).inOutage <==>
      |Transitions(RunOf(threshold, rs).detections, store)| % 2 == 1
  {
    if rs != [] {
      var before := RunOf(threshold, rs[..|rs| - 1]);
      var r := rs[|rs| - 1];
      OutagesAlternate(threshold, rs[..|rs| - 1], store);
      TransitionsGrow(before.detections, Verdict(threshold, r), before.inOutage, r, store);
    }
  }

  /** One reading adds at most one transition, and the store's next one. */
  lemma {:induction false} TransitionsGrow(past: seq<Detection>, verdict: Option<bool>, inOutage: set<StoreId>,
                                           r: Reading, store: StoreId)
    requires Alternates(Transitions(past, store)) && (store in inOutage <==> |Transitions(past, store)| % 2 == 1)
    ensures var ts := Transitions(past + DetectionsFor(verdict, inOutage, r), store);
      Alternates(ts) && (store in NextState(verdict, inOutage, r.store) <==> |ts| % 2 == 1)
  {
    var ds := DetectionsFor(verdict, inOutage, r);
    if ds == [] {
      assert past + ds == past;
    } else {
      assert (past + ds)[..|past|] == past;
    }
  }
}
