/** Whole runs of one partition key: the incremental engine against a batch group-by-window-and-fold. */
module WindowRuns {
  import opened Prelude
  import opened WindowSpecs
  import opened Aggregations
  import opened Watermarks
  import opened WindowAggregators

  datatype Event<+C> = Event(ts: int, contribution: C, traceId: Option<string>)

  // The watermark manager over a run.

  function HighOf<C>(evs: seq<Event<C>>): Option<int> {
    if evs == [] then None
    else Some(RaisedHigh(HighOf(evs[..|evs| - 1]), evs[|evs| - 1].ts))
  }

  /** `lw` is the lateness of the watermark manager, in seconds. */
  function WatermarkOf<C>(lw: nat, evs: seq<Event<C>>): Option<int> {
    DeriveWatermark(lw * MICROS_PER_SECOND, HighOf(evs))
  }

  function ClassOf<C>(lw: nat, past: seq<Event<C>>, e: Event<C>): EventClassification {
    Classify(lw * MICROS_PER_SECOND, e.ts, WatermarkOf(lw, past))
  }

  /** What the aggregator is told about `e`: its class against the watermark before it, and the watermark after it. */
  function ObservationOf<C>(lw: nat, past: seq<Event<C>>, e: Event<C>): Observation<C> {
    Observation(e.ts, e.contribution, ClassOf(lw, past, e),
                RaisedHigh(HighOf(past), e.ts) - lw * MICROS_PER_SECOND, e.traceId)
  }

  function Observations<C>(lw: nat, evs: seq<Event<C>>): (os: seq<Observation<C>>)
    ensures |os| == |evs|
  {
    if evs == [] then []
    else
      var past := evs[..|evs| - 1];
      Observations(lw, past) + [ObservationOf(lw, past, evs[|evs| - 1])]
  }

  // One window over a run of observations.

  datatype Run<+S, +R> = Run(window: Option<WindowState<S>>, log: seq<WindowEmission<R>>)

  function RunWindow<C, S, R>(cfg: Config<C, S, R>, key: string, s: int, os: seq<Observation<C>>): Run<S, R>
    requires cfg.spec.Valid()
  {
    if os == [] then Run(None, [])
    else
      StepRun(cfg, key, s, RunWindow(cfg, key, s, os[..|os| - 1]), os[|os| - 1])
  }

  function StepRun<C, S, R>(cfg: Config<C, S, R>, key: string, s: int, run: Run<S, R>, o: Observation<C>): Run<S, R>
    requires cfg.spec.Valid()
  {
    var emission := StepEmission(cfg, key, s, run.window, o);
    Run(StepWindow(cfg, s, run.window, o), if emission.Some? then run.log + [emission.value] else run.log)
  }

  function RunEvents<C, S, R>(cfg: Config<C, S, R>, lw: nat, key: string, s: int, evs: seq<Event<C>>): Run<S, R>
    requires cfg.spec.Valid()
  {
    RunWindow(cfg, key, s, Observations(lw, evs))
  }

  // The batch reference.

  /** The events the window should count: covered by it and not dropped on arrival. */
  function Accepted<C>(spec: WindowSpec, lw: nat, s: int, evs: seq<Event<C>>): (r: seq<Event<C>>)
    requires spec.Valid()
  {
    if evs == [] then []
    else
      var past := evs[..|evs| - 1];
      var e := evs[|evs| - 1];
      if !ClassOf(lw, past, e).LateDropped? && spec.Covers(s, e.ts) then Accepted(spec, lw, s, past) + [e]
      else Accepted(spec, lw, s, past)
  }

  function Contributions<C>(evs: seq<Event<C>>): (r: seq<C>)
    ensures |r| == |evs|
  {
    if evs == [] then [] else Contributions(evs[..|evs| - 1]) + [evs[|evs| - 1].contribution]
  }

  function BatchState<C, S, R>(cfg: Config<C, S, R>, accepted: seq<Event<C>>, hasEmitted: bool): WindowState<S>
    requires accepted != []
  {
    WindowState(Fold(cfg.agg, Contributions(accepted)), |accepted|, hasEmitted, accepted[|accepted| - 1].traceId)
  }

  predicate Reached(watermark: Option<int>, t: int) {
    watermark.Some? && t <= watermark.value
  }

  /** The engine agrees with the batch: the retained state is the fold of the accepted events, the window has been
      emitted exactly when it has an accepted event and the watermark has reached its end, and the latest emission
      carries the final value and the number of exactly those events, also when the state was evicted since. */
  predicate AgreesWithBatch<C, S(==), R(==)>(cfg: Config<C, S, R>, lw: nat, key: string, s: int, evs: seq<Event<C>>)
    requires cfg.spec.Valid()
  {
    MatchesBatch(cfg, key, s, RunEvents(cfg, lw, key, s, evs), Accepted(cfg.spec, lw, s, evs), WatermarkOf(lw, evs))
  }

  predicate MatchesBatch<C, S(==), R(==)>(cfg: Config<C, S, R>, key: string, s: int, run: Run<S, R>,
                                          accepted: seq<Event<C>>, watermark: Option<int>)
    requires cfg.spec.Valid()
  {
    var closed := Reached(watermark, s + cfg.spec.Size());
    && run.window == (if accepted == [] || Reached(watermark, cfg.SealingHorizon(s) + 1) then None
                      else Some(BatchState(cfg, accepted, closed)))
    && (run.log != [] <==> accepted != [] && closed)
    && (run.log != [] ==>
          run.log[|run.log| - 1] == EmissionOf(cfg, key, s, BatchState(cfg, accepted, true), |run.log| > 1))
  }

  lemma {:induction false} CombineExtendsBatch<C, S, R>(cfg: Config<C, S, R>, accepted: seq<Event<C>>, e: Event<C>,
                                                        w: Option<WindowState<S>>, o: Observation<C>)
    requires o.contribution == e.contribution && o.traceId == e.traceId
    requires w.None? ==> accepted == []
    requires w.Some? ==> accepted != [] && w.value == BatchState(cfg, accepted, w.value.hasEmitted)
    ensures Combined(cfg, w, o) == BatchState(cfg, accepted + [e], w.Some? && w.value.hasEmitted)
  {
    var all := accepted + [e];
    assert all[..|all| - 1] == accepted;
    var xs := Contributions(all);
    assert xs == Contributions(accepted) + [e.contribution];
    assert xs[..|xs| - 1] == Contributions(accepted);
    assert xs[|xs| - 1] == e.contribution;
    assert Fold(cfg.agg, xs) == cfg.agg.combine(Fold(cfg.agg, Contributions(accepted)), e.contribution);
  }

  /** An accepted event always finds its window open or openable; an on-time one finds it not yet closed, and its
      own watermark does not close it. */
  lemma {:induction false} AcceptedInTime<C>(spec: WindowSpec, lw: nat, past: seq<Event<C>>, e: Event<C>, s: int)
    requires spec.Valid() && spec.Covers(s, e.ts)
    ensures !ClassOf(lw, past, e).LateDropped? ==>
      ObservationOf(lw, past, e).watermark < s + spec.Size() + lw * MICROS_PER_SECOND
    ensures ClassOf(lw, past, e).OnTime? ==> ObservationOf(lw, past, e).watermark < s + spec.Size()
    ensures !ClassOf(lw, past, e).OnTime? ==> WatermarkOf(lw, past) == Some(ObservationOf(lw, past, e).watermark)
  {
    ClassificationBands(lw * MICROS_PER_SECOND, e.ts, WatermarkOf(lw, past));
    KeyWatermarkAdvances(lw * MICROS_PER_SECOND, HighOf(past), e.ts);
  }

  lemma {:induction false} LastObservation<C>(lw: nat, evs: seq<Event<C>>)
    requires evs != []
    ensures var past := evs[..|evs| - 1]; var e := evs[|evs| - 1]; var os := Observations(lw, evs);
      && os[..|os| - 1] == Observations(lw, past)
      && os[|os| - 1] == ObservationOf(lw, past, e)
      && WatermarkOf(lw, evs) == Some(ObservationOf(lw, past, e).watermark)
      && NoLater(WatermarkOf(lw, past), WatermarkOf(lw, evs))
  {
    KeyWatermarkAdvances(lw * MICROS_PER_SECOND, HighOf(evs[..|evs| - 1]), evs[|evs| - 1].ts);
  }

  /** Batch refinement: with the aggregator at least as patient as the manager, every run of every window agrees
      with the batch. */
  lemma {:induction false} BatchRefinement<C, S, R>(cfg: Config<C, S, R>, lw: nat, key: string, s: int,
                                                    evs: seq<Event<C>>)
    requires cfg.spec.Valid() && lw <= cfg.latenessSeconds
    ensures AgreesWithBatch(cfg, lw, key, s, evs)
  {
    if evs == [] {
      EmptyBatch(cfg, lw, key, s);
    } else {
      Rejoin(evs);
      BatchRefinement(cfg, lw, key, s, evs[..|evs| - 1]);
      BatchStep(cfg, lw, key, s, evs[..|evs| - 1], evs[|evs| - 1]);
    }
  }

  lemma {:induction false} EmptyBatch<C, S, R>(cfg: Config<C, S, R>, lw: nat, key: string, s: int)
    requires cfg.spec.Valid()
    ensures AgreesWithBatch(cfg, lw, key, s, [])
  {
    assert RunEvents<C, S, R>(cfg, lw, key, s, []) == Run(None, []);
  }

  lemma {:induction false} BatchStep<C, S, R>(cfg: Config<C, S, R>, lw: nat, key: string, s: int, past: seq<Event<C>>,
                                              e: Event<C>)
    requires cfg.spec.Valid() && lw <= cfg.latenessSeconds
    requires AgreesWithBatch(cfg, lw, key, s, past)
    ensures AgreesWithBatch(cfg, lw, key, s, past + [e])
  {
    var evs := past + [e];
    assert evs[..|evs| - 1] == past;
    LastObservation(lw, evs);
    var run := RunEvents(cfg, lw, key, s, past);
    var o := ObservationOf(lw, past, e);
    assert RunEvents(cfg, lw, key, s, evs) == StepRun(cfg, key, s, run, o);
    if !o.classification.LateDropped? && cfg.spec.Covers(s, e.ts) {
      AcceptedInTime(cfg.spec, lw, past, e, s);
      AcceptStep(cfg, key, s, run, Accepted(cfg.spec, lw, s, past), WatermarkOf(lw, past), e, o);
    } else {
      SkipStep(cfg, key, s, run, Accepted(cfg.spec, lw, s, past), WatermarkOf(lw, past), o);
    }
  }

  lemma {:induction false} AcceptStep<C, S, R>(cfg: Config<C, S, R>, key: string, s: int, run: Run<S, R>,
                                               accepted: seq<Event<C>>, watermark: Option<int>, e: Event<C>,
                                               o: Observation<C>)
    requires cfg.spec.Valid() && MatchesBatch(cfg, key, s, run, accepted, watermark)
    requires o.contribution == e.contribution && o.traceId == e.traceId && o.ts == e.ts
    requires !o.classification.LateDropped? && cfg.spec.Covers(s, e.ts) && NoLater(watermark, Some(o.watermark))
    requires o.watermark <= cfg.SealingHorizon(s)
    requires if o.classification.OnTime? then o.watermark < s + cfg.spec.Size() else watermark == Some(o.watermark)
    ensures MatchesBatch(cfg, key, s, StepRun(cfg, key, s, run, o), accepted + [e], Some(o.watermark))
  {
    CombineExtendsBatch(cfg, accepted, e, run.window, o);
  }

  lemma {:induction false} SkipStep<C, S, R>(cfg: Config<C, S, R>, key: string, s: int, run: Run<S, R>,
                                             accepted: seq<Event<C>>, watermark: Option<int>, o: Observation<C>)
    requires cfg.spec.Valid() && MatchesBatch(cfg, key, s, run, accepted, watermark)
    requires (o.classification.LateDropped? || !cfg.spec.Covers(s, o.ts)) && NoLater(watermark, Some(o.watermark))
    ensures MatchesBatch(cfg, key, s, StepRun(cfg, key, s, run, o), accepted, Some(o.watermark))
  {
  }

  /** Nothing accepted is lost or silent: the sealing guard never skips an accepted event, an on-time event never
      lands in an emitted window, and a tolerated event for an emitted window is re-emitted at once, as a repair
      whose count includes it. */
  lemma {:induction false} NothingLostOrSilent<C, S, R>(cfg: Config<C, S, R>, lw: nat, key: string, s: int,
                                                        past: seq<Event<C>>, e: Event<C>)
    requires cfg.spec.Valid() && lw <= cfg.latenessSeconds
    requires cfg.spec.Covers(s, e.ts) && !ClassOf(lw, past, e).LateDropped?
    ensures var run := RunEvents(cfg, lw, key, s, past);
      var o := ObservationOf(lw, past, e);
      var accepted := Accepted(cfg.spec, lw, s, past) + [e];
      && Contributes(cfg, s, run.window, o)
      && (o.classification.OnTime? ==> run.log == [] && StepEmission(cfg, key, s, run.window, o) == None)
      && (run.log != [] ==>
            StepEmission(cfg, key, s, run.window, o)
            == Some(EmissionOf(cfg, key, s, BatchState(cfg, accepted, true), true)))
  {
    BatchRefinement(cfg, lw, key, s, past);
    AcceptedInTime(cfg.spec, lw, past, e, s);
    KeyWatermarkAdvances(lw * MICROS_PER_SECOND, HighOf(past), e.ts);
    AcceptedOutcome(cfg, key, s, RunEvents(cfg, lw, key, s, past), Accepted(cfg.spec, lw, s, past),
                    WatermarkOf(lw, past), e, ObservationOf(lw, past, e));
  }

  lemma {:induction false} AcceptedOutcome<C, S, R>(cfg: Config<C, S, R>, key: string, s: int, run: Run<S, R>,
                                                    accepted: seq<Event<C>>, watermark: Option<int>, e: Event<C>,
                                                    o: Observation<C>)
    requires cfg.spec.Valid() && MatchesBatch(cfg, key, s, run, accepted, watermark)
    requires o.contribution == e.contribution && o.traceId == e.traceId && o.ts == e.ts
    requires !o.classification.LateDropped? && cfg.spec.Covers(s, e.ts) && NoLater(watermark, Some(o.watermark))
    requires o.watermark <= cfg.SealingHorizon(s)
    requires if o.classification.OnTime? then o.watermark < s + cfg.spec.Size() else watermark == Some(o.watermark)
    ensures Contributes(cfg, s, run.window, o)
    ensures o.classification.OnTime? ==> run.log == [] && StepEmission(cfg, key, s, run.window, o) == None
    ensures run.log != [] ==>
      StepEmission(cfg, key, s, run.window, o)
      == Some(EmissionOf(cfg, key, s, BatchState(cfg, accepted + [e], true), true))
  {
    CombineExtendsBatch(cfg, accepted, e, run.window, o);
  }

  // The same notions in plain numbers, microseconds written out.

  /** An event is dropped exactly when an earlier arrival lies more than twice the tolerance ahead of it, and on time
      exactly when none lies more than the tolerance ahead. */
  lemma {:induction false} ClassInSeconds<C>(lw: nat, past: seq<Event<C>>, e: Event<C>)
    ensures ClassOf(lw, past, e).LateDropped? <==>
      exists x :: x in past && e.ts < x.ts - 2 * lw * 1_000_000
    ensures ClassOf(lw, past, e).OnTime? <==>
      forall x :: x in past ==> x.ts - lw * 1_000_000 <= e.ts
  {
    HighIsMaximum(past);
    ClassificationBands(lw * MICROS_PER_SECOND, e.ts, WatermarkOf(lw, past));
  }

  /** The accepted events are exactly those that were not dropped and lie in the aligned window, in arrival order. */
  lemma {:induction false} AcceptedInSeconds<C>(spec: WindowSpec, lw: nat, s: int, past: seq<Event<C>>, e: Event<C>)
    requires spec.Valid()
    ensures Accepted(spec, lw, s, past[..0]) == []
    ensures Accepted(spec, lw, s, past + [e]) == Accepted(spec, lw, s, past) +
      if && (forall x :: x in past ==> x.ts - 2 * lw * 1_000_000 <= e.ts)
         && s % (spec.slideSeconds * 1_000_000) == 0 && s <= e.ts < s + spec.sizeSeconds * 1_000_000
      then [e] else []
  {
    assert (past + [e])[..|past|] == past;
    ClassInSeconds(lw, past, e);
  }

  // When the aggregator is less patient than the manager, some run loses an accepted event.

  /** An event in window 0, one that pushes the watermark just past its horizon, and a tolerated straggler. */
  function LosingRun<C, S, R>(cfg: Config<C, S, R>, lw: nat, c: C): seq<Event<C>> {
    var inside := cfg.spec.Size() - 1;
    [Event(inside, c, None),
     Event(cfg.SealingHorizon(0) + 1 + lw * MICROS_PER_SECOND, c, None),
     Event(inside, c, None)]
  }

  lemma {:induction false} ImpatientAggregatorLoses<C, S, R>(cfg: Config<C, S, R>, lw: nat, key: string, c: C)
    requires cfg.spec.Valid() && cfg.latenessSeconds < lw
    ensures var evs := LosingRun(cfg, lw, c);
      var run := RunEvents(cfg, lw, key, 0, evs);
      && |Accepted(cfg.spec, lw, 0, evs)| == 2
      && |run.log| == 1 && run.log[0].eventCount == 1
  {
    var evs := LosingRun(cfg, lw, c);
    var two, one := evs[..2], evs[..1];
    assert evs[..|evs| - 1] == two && two[..|two| - 1] == one && one[..|one| - 1] == [];
    LastObservation(lw, one);
    LastObservation(lw, two);
    LastObservation(lw, evs);
    LosingObservations(cfg, lw, c);
    var r1 := StepRun(cfg, key, 0, Run(None, []), ObservationOf(lw, [], evs[0]));
    assert RunEvents(cfg, lw, key, 0, []) == Run(None, []);
    assert RunEvents(cfg, lw, key, 0, one) == r1;
    var r2 := StepRun(cfg, key, 0, r1, ObservationOf(lw, one, evs[1]));
    assert RunEvents(cfg, lw, key, 0, two) == r2;
    assert |r2.log| == 1 && r2.log[0].eventCount == 1 && r2.window.None?;
    assert RunEvents(cfg, lw, key, 0, evs) == StepRun(cfg, key, 0, r2, ObservationOf(lw, two, evs[2]));
    assert Accepted(cfg.spec, lw, 0, one) == [evs[0]];
    assert Accepted(cfg.spec, lw, 0, two) == [evs[0]];
  }

  lemma {:induction false} LosingObservations<C, S, R>(cfg: Config<C, S, R>, lw: nat, c: C)
    requires cfg.spec.Valid() && cfg.latenessSeconds < lw
    ensures var evs := LosingRun(cfg, lw, c);
      var inside := cfg.spec.Size() - 1;
      var beyond := cfg.SealingHorizon(0) + 1;
      && cfg.spec.Covers(0, inside) && !cfg.spec.Covers(0, beyond + lw * MICROS_PER_SECOND)
      && ObservationOf(lw, [], evs[0]) == Observation(inside, c, OnTime, inside - lw * MICROS_PER_SECOND, None)
      && ObservationOf(lw, evs[..1], evs[1])
         == Observation(beyond + lw * MICROS_PER_SECOND, c, OnTime, beyond, None)
      && ObservationOf(lw, evs[..2], evs[2]) == Observation(inside, c, LateTolerated, beyond, None)
  {
    var evs := LosingRun(cfg, lw, c);
    assert evs[..2][..1] == evs[..1] && evs[..1][..0] == [];
    assert HighOf(evs[..1]) == Some(evs[0].ts);
    assert HighOf(evs[..2]) == Some(evs[1].ts);
  }

  /** The batch agreement holds for all runs exactly when the aggregator's tolerance covers the manager's. */
  lemma {:induction false} BatchRefinementExactly<C(!new), S, R>(cfg: Config<C, S, R>, lw: nat, c: C)
    requires cfg.spec.Valid()
    ensures lw <= cfg.latenessSeconds <==>
      forall key: string, s: int, evs: seq<Event<C>> :: AgreesWithBatch(cfg, lw, key, s, evs)
  {
    if lw <= cfg.latenessSeconds {
      forall key: string, s: int, evs: seq<Event<C>> ensures AgreesWithBatch(cfg, lw, key, s, evs) {
        BatchRefinement(cfg, lw, key, s, evs);
      }
    } else {
      ImpatientAggregatorLoses(cfg, lw, "k", c);
      assert !AgreesWithBatch(cfg, lw, "k", 0, LosingRun(cfg, lw, c));
    }
  }

  // The closure protocol, for any source of observations whose watermarks do not go back.

  predicate MonotoneWatermarks<C>(os: seq<Observation<C>>) {
    forall i, j :: 0 <= i < j < |os| ==> os[i].watermark <= os[j].watermark
  }

  predicate CountsRise<R>(log: seq<WindowEmission<R>>) {
    forall i, j :: 0 <= i < j < |log| ==> log[i].eventCount < log[j].eventCount
  }

  predicate FirstClosesRestRepair<R>(log: seq<WindowEmission<R>>) {
    forall i :: 0 <= i < |log| ==> (log[i].isRepair <==> i > 0)
  }

  /** A window closes once, before all its repairs; counts rise along its emissions; it is sealed only after it was
      emitted, and a sealed window stays shut. */
  lemma {:induction false} ClosureProtocol<C, S, R>(cfg: Config<C, S, R>, key: string, s: int, os: seq<Observation<C>>)
    requires cfg.spec.Valid() && MonotoneWatermarks(os)
    ensures var run := RunWindow(cfg, key, s, os);
      && FirstClosesRestRepair(run.log)
      && CountsRise(run.log)
      && (run.window.Some? ==>
            && os[|os| - 1].watermark <= cfg.SealingHorizon(s)
            && (run.window.value.hasEmitted <==> s + cfg.spec.Size() <= os[|os| - 1].watermark)
            && (run.window.value.hasEmitted <==> run.log != [])
            && (run.log != [] ==> run.log[|run.log| - 1].eventCount <= run.window.value.eventCount))
      && (run.window.None? && run.log != [] ==> cfg.SealingHorizon(s) < os[|os| - 1].watermark)
  {
    if os != [] {
      var past := os[..|os| - 1];
      ClosureProtocol(cfg, key, s, past);
      var before := RunWindow(cfg, key, s, past);
      if past != [] {
        assert os[|os| - 2].watermark <= os[|os| - 1].watermark;
      }
    }
  }

  /** Eviction never happens to a window that was not emitted, and an evicted window never reopens. */
  lemma {:induction false} SealedForGood<C, S, R>(cfg: Config<C, S, R>, key: string, s: int, os: seq<Observation<C>>,
                                                  i: nat, j: nat)
    requires cfg.spec.Valid() && MonotoneWatermarks(os) && i <= j <= |os|
    requires RunWindow(cfg, key, s, os[..i]).window.Some?
    requires RunWindow(cfg, key, s, os[..j]).window.None?
    ensures RunWindow(cfg, key, s, os[..j]).log != []
    ensures RunWindow(cfg, key, s, os).window.None?
    ensures RunWindow(cfg, key, s, os).log == RunWindow(cfg, key, s, os[..j]).log
    decreases |os| - i, |os|
  {
    if i + 1 < j && RunWindow(cfg, key, s, os[..i + 1]).window.Some? {
      SealedForGood(cfg, key, s, os, i + 1, j);
    } else {
      var past := os[..i + 1];
      assert past[..|past| - 1] == os[..i];
      ClosureProtocol(cfg, key, s, os[..i]);
      assert RunWindow(cfg, key, s, past) == StepRun(cfg, key, s, RunWindow(cfg, key, s, os[..i]), os[i]);
      assert RunWindow(cfg, key, s, past).log != [];
      assert os[..j][..i + 1] == past;
      StaysShut(cfg, key, s, os[..j], i + 1);
      StaysShut(cfg, key, s, os, i + 1);
    }
  }

  lemma {:induction false} StaysShut<C, S, R>(cfg: Config<C, S, R>, key: string, s: int, os: seq<Observation<C>>,
                                              i: nat)
    requires cfg.spec.Valid() && MonotoneWatermarks(os) && i <= |os|
    requires RunWindow(cfg, key, s, os[..i]).window.None? && RunWindow(cfg, key, s, os[..i]).log != []
    ensures RunWindow(cfg, key, s, os) == RunWindow(cfg, key, s, os[..i])
  {
    if i == |os| {
      assert os[..i] == os;
    } else {
      var past := os[..|os| - 1];
      assert past[..i] == os[..i];
      StaysShut(cfg, key, s, past, i);
      ClosureProtocol(cfg, key, s, past);
      assert past[|past| - 1] == os[|os| - 2];
    }
  }

  /** The manager's watermarks never go back, so its runs obey the closure protocol. */
  lemma {:induction false} ManagerIsMonotone<C>(lw: nat, evs: seq<Event<C>>)
    ensures MonotoneWatermarks(Observations(lw, evs))
    ensures evs != [] ==>
      forall o :: o in Observations(lw, evs) ==> o.watermark <= WatermarkOf(lw, evs).value
  {
    if evs != [] {
      ManagerIsMonotone(lw, evs[..|evs| - 1]);
      LastObservation(lw, evs);
      var os := Observations(lw, evs);
      forall i | 0 <= i < |os| - 1 ensures os[i].watermark <= os[|os| - 1].watermark {
        assert os[i] == Observations(lw, evs[..|evs| - 1])[i];
      }
    }
  }

  // Arrival order.

  predicate NothingDropped<C>(lw: nat, evs: seq<Event<C>>) {
    forall i :: 0 <= i < |evs| ==> !ClassOf(lw, evs[..i], evs[i]).LateDropped?
  }

  function Covered<C>(spec: WindowSpec, s: int, evs: seq<Event<C>>): seq<Event<C>>
    requires spec.Valid()
  {
    if evs == [] then []
    else if spec.Covers(s, evs[|evs| - 1].ts) then Covered(spec, s, evs[..|evs| - 1]) + [evs[|evs| - 1]]
    else Covered(spec, s, evs[..|evs| - 1])
  }

  lemma {:induction false} AcceptedIsCovered<C>(spec: WindowSpec, lw: nat, s: int, evs: seq<Event<C>>)
    requires spec.Valid() && NothingDropped(lw, evs)
    ensures Accepted(spec, lw, s, evs) == Covered(spec, s, evs)
  {
    if evs != [] {
      var past := evs[..|evs| - 1];
      forall i | 0 <= i < |past| ensures !ClassOf(lw, past[..i], past[i]).LateDropped? {
        assert past[..i] == evs[..i];
      }
      AcceptedIsCovered(spec, lw, s, past);
    }
  }

  lemma {:induction false} CoveredCounts<C>(spec: WindowSpec, s: int, evs: seq<Event<C>>, e: Event<C>)
    requires spec.Valid()
    ensures multiset(Covered(spec, s, evs))[e] == if spec.Covers(s, e.ts) then multiset(evs)[e] else 0
  {
    if evs != [] {
      CoveredCounts(spec, s, evs[..|evs| - 1], e);
      assert evs == evs[..|evs| - 1] + [evs[|evs| - 1]];
    }
  }

  lemma {:induction false} HighIsMaximum<C>(evs: seq<Event<C>>)
    ensures HighOf(evs).None? <==> evs == []
    ensures HighOf(evs).Some? ==>
      && (exists e :: e in evs && e.ts == HighOf(evs).value)
      && (forall e :: e in evs ==> e.ts <= HighOf(evs).value)
  {
    if evs != [] {
      var past, last := evs[..|evs| - 1], evs[|evs| - 1];
      HighIsMaximum(past);
      assert evs == past + [last];
      if HighOf(past).Some? {
        var e :| e in past && e.ts == HighOf(past).value;
        assert e in evs;
      }
      assert last in evs;
    }
  }

  lemma {:induction false} HighIgnoresOrder<C>(a: seq<Event<C>>, b: seq<Event<C>>)
    requires multiset(a) == multiset(b)
    ensures HighOf(a) == HighOf(b)
  {
    HighIsMaximum(a);
    HighIsMaximum(b);
    assert forall e :: e in a <==> e in multiset(a);
    assert forall e :: e in b <==> e in multiset(b);
    assert |a| == |multiset(a)| == |b|;
  }

  lemma {:induction false} ContributionsSplit<C>(a: seq<Event<C>>, b: seq<Event<C>>)
    ensures Contributions(a + b) == Contributions(a) + Contributions(b)
  {
    if b == [] {
      assert a + b == a;
    } else {
      ContributionsSplit(a, b[..|b| - 1]);
      assert (a + b)[..|a + b| - 1] == a + b[..|b| - 1];
    }
  }

  lemma {:induction false} ContributionsIgnoreOrder<C>(a: seq<Event<C>>, b: seq<Event<C>>)
    requires multiset(a) == multiset(b)
    ensures multiset(Contributions(a)) == multiset(Contributions(b))
    decreases |b|
  {
    if b == [] {
      assert |multiset(a)| == 0;
    } else {
      var i := MatchLast(a, b);
      ContributionsIgnoreOrder(Without(a, i), b[..|b| - 1]);
      WithoutLosesOne(a, i);
      ContributionsSplit(a[..i] + [a[i]], a[i + 1..]);
      ContributionsSplit(a[..i], [a[i]]);
      ContributionsSplit(a[..i], a[i + 1..]);
      assert Contributions([a[i]]) == [a[i].contribution];
    }
  }

  /** Arrival-order insensitivity: for a commutative aggregation, two arrival orders of the same events with nothing
      dropped in either emit the same windows with the same last value and count. */
  lemma {:induction false} ArrivalOrderInsensitive<C(!new), S(!new), R>(cfg: Config<C, S, R>, lw: nat, key: string,
                                                                        s: int, a: seq<Event<C>>, b: seq<Event<C>>)
    requires cfg.spec.Valid() && lw <= cfg.latenessSeconds && Commutes(cfg.agg)
    requires multiset(a) == multiset(b) && NothingDropped(lw, a) && NothingDropped(lw, b)
    ensures var ra := RunEvents(cfg, lw, key, s, a);
      var rb := RunEvents(cfg, lw, key, s, b);
      && (ra.log == [] <==> rb.log == [])
      && (ra.window.None? <==> rb.window.None?)
      && (ra.window.Some? ==> ra.window.value.state == rb.window.value.state)
      && (ra.log != [] ==>
            && ra.log[|ra.log| - 1].value == rb.log[|rb.log| - 1].value
            && ra.log[|ra.log| - 1].eventCount == rb.log[|rb.log| - 1].eventCount)
  {
    BatchRefinement(cfg, lw, key, s, a);
    BatchRefinement(cfg, lw, key, s, b);
    AcceptedIsCovered(cfg.spec, lw, s, a);
    AcceptedIsCovered(cfg.spec, lw, s, b);
    HighIgnoresOrder(a, b);
    var ca, cb := Covered(cfg.spec, s, a), Covered(cfg.spec, s, b);
    assert multiset(ca) == multiset(cb) by {
      forall e: Event<C> ensures multiset(ca)[e] == multiset(cb)[e] {
        CoveredCounts(cfg.spec, s, a, e);
        CoveredCounts(cfg.spec, s, b, e);
      }
    }
    ContributionsIgnoreOrder(ca, cb);
    FoldIgnoresOrder(cfg.agg, Contributions(ca), Contributions(cb));
    assert |ca| == |multiset(ca)| == |cb|;
  }

  // Memory.

  /** A retained window starts between the sealing bound and the highest event time. */
  lemma {:induction false} RetainedBand<C, S, R>(cfg: Config<C, S, R>, lw: nat, key: string, s: int, evs: seq<Event<C>>)
    requires cfg.spec.Valid() && RunEvents(cfg, lw, key, s, evs).window.Some?
    ensures HighOf(evs).Some? && cfg.spec.IsStart(s)
    ensures s <= HighOf(evs).value <= s + cfg.spec.Size() + (cfg.latenessSeconds + lw) * MICROS_PER_SECOND
  {
    if evs != [] {
      LastObservation(lw, evs);
      if RunEvents(cfg, lw, key, s, evs[..|evs| - 1]).window.Some? {
        RetainedBand(cfg, lw, key, s, evs[..|evs| - 1]);
      }
    }
  }
}
