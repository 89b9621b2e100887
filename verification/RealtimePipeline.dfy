/** The event path of one shard: extract the key, observe the watermark, aggregate. */
module RealtimePipelines {
  import opened Prelude
  import opened WindowSpecs
  import opened Aggregations
  import opened Watermarks
  import opened WindowAggregators
  import opened WindowRuns

  /** An inbound event with the key its extractor returned; the empty key is a failed extraction. */
  datatype Arrival<+C> = Arrival(partitionKey: string, event: Event<C>)

  datatype ProcessingResult<+R> = ProcessingResult(
    partitionKey: Option<string>,
    classification: Option<EventClassification>,
    emissions: seq<WindowEmission<R>>,
    extractionFailed: bool
  )

  /** The events of one key, in arrival order. */
  function EventsFor<C>(history: seq<Arrival<C>>, key: string): seq<Event<C>> {
    if history == [] then []
    else
      var past := EventsFor(history[..|history| - 1], key);
      if history[|history| - 1].partitionKey == key then past + [history[|history| - 1].event] else past
  }

  /** `r` is the outcome that the key's own past, and nothing else, prescribes for arrival `a`. */
  ghost predicate IsResult<C, S, R(!new)>(cfg: Config<C, S, R>, lw: nat, past: seq<Arrival<C>>, a: Arrival<C>,
                                          r: ProcessingResult<R>)
    requires cfg.spec.Valid()
  {
    var key := a.partitionKey;
    var mine := EventsFor(past, key);
    if key == "" then r == ProcessingResult(None, None, [], true)
    else
      && r.partitionKey == Some(key)
      && r.classification == Some(ClassOf(lw, mine, a.event))
      && !r.extractionFailed
      && AscendingStarts(r.emissions)
      && forall e: WindowEmission<R> :: e in r.emissions <==>
           StepEmission(cfg, key, e.windowStart, RunEvents(cfg, lw, key, e.windowStart, mine).window,
                        ObservationOf(lw, mine, a.event)) == Some(e)
  }

  ghost predicate Faithful<C, S, R(!new)>(cfg: Config<C, S, R>, lw: nat, history: seq<Arrival<C>>,
                                          results: seq<ProcessingResult<R>>)
    requires cfg.spec.Valid()
  {
    && |results| == |history|
    && forall i :: 0 <= i < |history| ==> IsResult(cfg, lw, history[..i], history[i], results[i])
  }

  ghost predicate TracksHistory<C, S, R>(cfg: Config<C, S, R>, lw: nat, history: seq<Arrival<C>>,
                                         highs: map<string, int>, states: States<S>)
    requires cfg.spec.Valid()
  {
    && (forall k :: k != "" ==> HighFor(highs, k) == HighOf(EventsFor(history, k)))
    && (forall k, s :: k != "" ==>
          WindowIn(states, k, s) == RunEvents(cfg, lw, k, s, EventsFor(history, k)).window)
  }

  class RealtimePipeline<C, S, R(!new)> {
    const watermarks: WatermarkManager
    const aggregator: WindowAggregator<C, S, R>
    /** Everything processed so far and everything returned for it. */
    ghost var history: seq<Arrival<C>>
    ghost var results: seq<ProcessingResult<R>>

    ghost function Cfg(): Config<C, S, R> {
      aggregator.cfg
    }

    ghost function Lw(): nat {
      watermarks.latenessSeconds
    }

    ghost predicate Valid()
      reads this, watermarks, aggregator
    {
      && aggregator.Valid()
      && TracksHistory(Cfg(), Lw(), history, watermarks.highEventTs, aggregator.states)
      && Faithful(Cfg(), Lw(), history, results)
    }

    constructor (cfg: Config<C, S, R>, lw: nat)
      requires cfg.spec.Valid()
      ensures Valid() && fresh(watermarks) && fresh(aggregator)
      ensures Cfg() == cfg && Lw() == lw && history == [] && results == []
    {
      watermarks := new WatermarkManager(lw);
      aggregator := new WindowAggregator(cfg);
      history := [];
      results := [];
    }

    method Process(a: Arrival<C>) returns (r: ProcessingResult<R>)
      requires Valid()
      modifies this, watermarks, aggregator
      ensures Valid()
      ensures history == old(history) + [a] && results == old(results) + [r]
      ensures a.partitionKey == "" ==>
        && r == ProcessingResult(None, None, [], true)
        && watermarks.highEventTs == old(watermarks.highEventTs) && aggregator.states == old(aggregator.states)
      ensures a.partitionKey != "" ==>
        r.partitionKey == Some(a.partitionKey) && r.classification.Some? && !r.extractionFailed
    {
      ghost var past := history;
      var key := a.partitionKey;
      if key == "" {
        r := ProcessingResult(None, None, [], true);
      } else {
        var observed := watermarks.Observe(key, a.event.ts);
        var w := observed.value;
        var o := Observation(a.event.ts, a.event.contribution, w.classification, w.watermark, a.event.traceId);
        var emitted := aggregator.Observe(key, o);
        r := ProcessingResult(Some(key), Some(w.classification), emitted.value, false);
        ResultFollows(Cfg(), Lw(), past, a, old(watermarks.highEventTs), old(aggregator.states), o, emitted.value);
      }
      history := history + [a];
      results := results + [r];
      TrackStep(Cfg(), Lw(), past, a, old(watermarks.highEventTs), old(aggregator.states),
                watermarks.highEventTs, aggregator.states);
      FaithfulStep(Cfg(), Lw(), past, old(results), a, r);
    }

    method ProcessBatch(arrivals: seq<Arrival<C>>) returns (rs: seq<ProcessingResult<R>>)
      requires Valid()
      modifies this, watermarks, aggregator
      ensures Valid()
      ensures history == old(history) + arrivals && results == old(results) + rs
    {
      rs := [];
      TakeEnds(history, arrivals);
      for i := 0 to |arrivals|
        invariant Valid()
        invariant history == old(history) + arrivals[..i] && results == old(results) + rs
      {
        var r := Process(arrivals[i]);
        TakeOne(old(history), arrivals, i);
        ConcatAssociates(old(results), rs, [r]);
        rs := rs + [r];
      }
    }
  }

  lemma {:induction false} EventsForSnoc<C>(past: seq<Arrival<C>>, a: Arrival<C>, key: string)
    ensures EventsFor(past + [a], key) ==
      if a.partitionKey == key then EventsFor(past, key) + [a.event] else EventsFor(past, key)
  {
    assert (past + [a])[..|past|] == past;
  }

  lemma {:induction false} RunEventsSnoc<C, S, R>(cfg: Config<C, S, R>, lw: nat, key: string, s: int,
                                                  past: seq<Event<C>>, e: Event<C>)
    requires cfg.spec.Valid()
    ensures RunEvents(cfg, lw, key, s, past + [e])
      == StepRun(cfg, key, s, RunEvents(cfg, lw, key, s, past), ObservationOf(lw, past, e))
    ensures HighOf(past + [e]) == Some(RaisedHigh(HighOf(past), e.ts))
  {
    assert (past + [e])[..|past|] == past;
    LastObservation(lw, past + [e]);
  }

  lemma {:induction false} TrackStep<C, S, R>(cfg: Config<C, S, R>, lw: nat, past: seq<Arrival<C>>, a: Arrival<C>,
                                              highs: map<string, int>, states: States<S>, highs': map<string, int>,
                                              states': States<S>)
    requires cfg.spec.Valid() && TracksHistory(cfg, lw, past, highs, states)
    requires a.partitionKey == "" ==> highs' == highs && states' == states
    requires a.partitionKey != "" ==>
      && highs' == highs[a.partitionKey := RaisedHigh(HighFor(highs, a.partitionKey), a.event.ts)]
      && Stepped(cfg, a.partitionKey, states, states', ObservationOf(lw, EventsFor(past, a.partitionKey), a.event))
    ensures TracksHistory(cfg, lw, past + [a], highs', states')
  {
    forall k | k != ""
      ensures HighFor(highs', k) == HighOf(EventsFor(past + [a], k))
    {
      EventsForSnoc(past, a, k);
      RunEventsSnoc(cfg, lw, k, 0, EventsFor(past, k), a.event);
    }
    forall k, s | k != ""
      ensures WindowIn(states', k, s) == RunEvents(cfg, lw, k, s, EventsFor(past + [a], k)).window
    {
      EventsForSnoc(past, a, k);
      RunEventsSnoc(cfg, lw, k, s, EventsFor(past, k), a.event);
    }
  }

  lemma {:induction false} FaithfulStep<C, S, R(!new)>(cfg: Config<C, S, R>, lw: nat, past: seq<Arrival<C>>,
                                                       results: seq<ProcessingResult<R>>, a: Arrival<C>,
                                                       r: ProcessingResult<R>)
    requires cfg.spec.Valid() && Faithful(cfg, lw, past, results) && IsResult(cfg, lw, past, a, r)
    ensures Faithful(cfg, lw, past + [a], results + [r])
  {
    var history := past + [a];
    assert history[..|past|] == past;
    forall i | 0 <= i < |past| ensures IsResult(cfg, lw, history[..i], history[i], (results + [r])[i]) {
      assert history[..i] == past[..i];
    }
  }

  /** An answer built from the collaborators' own states is the one the key's past prescribes. */
  lemma {:induction false} ResultFollows<C, S, R(!new)>(cfg: Config<C, S, R>, lw: nat, past: seq<Arrival<C>>,
                                                        a: Arrival<C>, highs: map<string, int>, states: States<S>,
                                                        o: Observation<C>, es: seq<WindowEmission<R>>)
    requires cfg.spec.Valid() && TracksHistory(cfg, lw, past, highs, states) && a.partitionKey != ""
    requires o == ObservationOf(lw, EventsFor(past, a.partitionKey), a.event)
    requires EmitsExactly(cfg, a.partitionKey, states, o, es)
    ensures IsResult(cfg, lw, past, a, ProcessingResult(Some(a.partitionKey), Some(o.classification), es, false))
  {
    var key := a.partitionKey;
    forall s ensures WindowIn(states, key, s) == RunEvents(cfg, lw, key, s, EventsFor(past, key)).window {
    }
  }

  lemma {:induction false} FaithfulPrefix<C, S, R(!new)>(cfg: Config<C, S, R>, lw: nat, history: seq<Arrival<C>>,
                                                         results: seq<ProcessingResult<R>>)
    requires cfg.spec.Valid() && Faithful(cfg, lw, history, results) && history != []
    ensures var n := |history| - 1;
      && history == history[..n] + [history[n]]
      && Faithful(cfg, lw, history[..n], results[..n])
      && IsResult(cfg, lw, history[..n], history[n], results[n])
  {
    var n := |history| - 1;
    forall i | 0 <= i < n ensures IsResult(cfg, lw, history[..n][..i], history[i], results[i]) {
      assert history[..n][..i] == history[..i];
    }
  }

  // The log of one window, read back from the results.

  function EmissionsIn<R>(es: seq<WindowEmission<R>>, key: string, s: int): seq<WindowEmission<R>> {
    if es == [] then []
    else
      var past := EmissionsIn(es[..|es| - 1], key, s);
      var e := es[|es| - 1];
      if e.partitionKey == key && e.windowStart == s then past + [e] else past
  }

  /** All emissions for a window over the run, in the order they were returned. */
  function EmissionsFor<R>(results: seq<ProcessingResult<R>>, key: string, s: int): seq<WindowEmission<R>> {
    if results == [] then []
    else EmissionsFor(results[..|results| - 1], key, s) + EmissionsIn(results[|results| - 1].emissions, key, s)
  }

  lemma {:induction false} EmissionsInNone<R>(es: seq<WindowEmission<R>>, key: string, s: int)
    requires forall e :: e in es ==> !(e.partitionKey == key && e.windowStart == s)
    ensures EmissionsIn(es, key, s) == []
  {
    if es != [] {
      EmissionsInNone(es[..|es| - 1], key, s);
    }
  }

  lemma {:induction false} EmissionsInOne<R>(es: seq<WindowEmission<R>>, e: WindowEmission<R>)
    requires AscendingStarts(es) && e in es
    ensures EmissionsIn(es, e.partitionKey, e.windowStart) == [e]
  {
    var m := |es| - 1;
    assert es == es[..m] + [es[m]];
    if es[m] == e {
      EmissionsInNone(es[..m], e.partitionKey, e.windowStart);
    } else {
      assert e in es[..m];
      EmissionsInOne(es[..m], e);
    }
  }

  /** Reading a window's emissions back from a faithful run gives that window's own log. */
  lemma {:induction false} LogIsRun<C, S, R(!new)>(cfg: Config<C, S, R>, lw: nat, history: seq<Arrival<C>>,
                                                   results: seq<ProcessingResult<R>>, key: string, s: int)
    requires cfg.spec.Valid() && Faithful(cfg, lw, history, results) && key != ""
    ensures EmissionsFor(results, key, s) == RunEvents(cfg, lw, key, s, EventsFor(history, key)).log
  {
    if history != [] {
      var n := |history| - 1;
      var past, a, r := history[..n], history[n], results[n];
      FaithfulPrefix(cfg, lw, history, results);
      LogIsRun(cfg, lw, past, results[..n], key, s);
      EventsForSnoc(past, a, key);
      var mine := EventsFor(past, key);
      RunEventsSnoc(cfg, lw, key, s, mine, a.event);
      LastEmissions(cfg, lw, past, a, r, key, s);
    }
  }

  lemma {:induction false} LastEmissions<C, S, R(!new)>(cfg: Config<C, S, R>, lw: nat, past: seq<Arrival<C>>,
                                                        a: Arrival<C>, r: ProcessingResult<R>, key: string, s: int)
    requires cfg.spec.Valid() && IsResult(cfg, lw, past, a, r) && key != ""
    ensures var mine := EventsFor(past, key);
      var step := StepEmission(cfg, key, s, RunEvents(cfg, lw, key, s, mine).window, ObservationOf(lw, mine, a.event));
      EmissionsIn(r.emissions, key, s) == if a.partitionKey == key && step.Some? then [step.value] else []
  {
    var mine := EventsFor(past, key);
    var step := StepEmission(cfg, key, s, RunEvents(cfg, lw, key, s, mine).window, ObservationOf(lw, mine, a.event));
    if a.partitionKey == key && step.Some? {
      assert step.value.windowStart == s && step.value.partitionKey == key;
      assert step.value in r.emissions;
      EmissionsInOne(r.emissions, step.value);
    } else {
      EmissionsInNone(r.emissions, key, s);
    }
  }

  /** The running pipeline agrees with the batch for every key and window: read from the returned results alone, a
      window has been emitted exactly when it has an accepted event and the key's watermark has reached its end, and
      its latest emission is the batch value. */
  lemma {:induction false} PipelineMatchesBatch<C, S, R(!new)>(p: RealtimePipeline<C, S, R>, key: string, s: int)
    requires p.Valid() && key != "" && p.Lw() <= p.Cfg().latenessSeconds
    ensures var accepted := Accepted(p.Cfg().spec, p.Lw(), s, EventsFor(p.history, key));
      var log := EmissionsFor(p.results, key, s);
      && (log != [] <==> accepted != [] && Reached(p.watermarks.WatermarkFor(key), s + p.Cfg().spec.Size()))
      && (log != [] ==>
            log[|log| - 1] == EmissionOf(p.Cfg(), key, s, BatchState(p.Cfg(), accepted, true), |log| > 1))
  {
    var evs := EventsFor(p.history, key);
    LogIsRun(p.Cfg(), p.Lw(), p.history, p.results, key, s);
    BatchRefinement(p.Cfg(), p.Lw(), key, s, evs);
  }

  /** Not only the latest: every emission, at the moment it is returned, is the batch value of its window. */
  lemma {:induction false} EveryEmissionIsBatch<C, S, R(!new)>(cfg: Config<C, S, R>, lw: nat, past: seq<Arrival<C>>,
                                                               a: Arrival<C>, r: ProcessingResult<R>,
                                                               e: WindowEmission<R>)
    requires cfg.spec.Valid() && lw <= cfg.latenessSeconds && IsResult(cfg, lw, past, a, r) && e in r.emissions
    ensures e.partitionKey == a.partitionKey != ""
    ensures var accepted := Accepted(cfg.spec, lw, e.windowStart, EventsFor(past + [a], e.partitionKey));
      accepted != [] && e == EmissionOf(cfg, e.partitionKey, e.windowStart, BatchState(cfg, accepted, true), e.isRepair)
  {
    var key, s := a.partitionKey, e.windowStart;
    var mine := EventsFor(past, key);
    var run, o := RunEvents(cfg, lw, key, s, mine), ObservationOf(lw, mine, a.event);
    assert StepEmission(cfg, key, s, run.window, o) == Some(e);
    StepEmits(cfg, key, s, run, o, e);
    EventsForSnoc(past, a, key);
    RunEventsSnoc(cfg, lw, key, s, mine, a.event);
    BatchRefinement(cfg, lw, key, s, mine + [a.event]);
  }

  lemma {:induction false} ReturnedIsBatch<C, S, R(!new)>(cfg: Config<C, S, R>, lw: nat, history: seq<Arrival<C>>,
                                                          results: seq<ProcessingResult<R>>, i: nat,
                                                          e: WindowEmission<R>)
    requires cfg.spec.Valid() && lw <= cfg.latenessSeconds && Faithful(cfg, lw, history, results)
    requires i < |results| && e in results[i].emissions
    ensures i < |history| && e.partitionKey != ""
    ensures var accepted := Accepted(cfg.spec, lw, e.windowStart, EventsFor(history[..i + 1], e.partitionKey));
      accepted != [] && e == EmissionOf(cfg, e.partitionKey, e.windowStart, BatchState(cfg, accepted, true), e.isRepair)
  {
    assert IsResult(cfg, lw, history[..i], history[i], results[i]);
    TakeNext(history, i);
    EveryEmissionIsBatch(cfg, lw, history[..i], history[i], results[i], e);
  }

  lemma {:induction false} StepEmits<C, S, R>(cfg: Config<C, S, R>, key: string, s: int, run: Run<S, R>,
                                              o: Observation<C>, e: WindowEmission<R>)
    requires cfg.spec.Valid() && StepEmission(cfg, key, s, run.window, o) == Some(e)
    ensures e.partitionKey == key
    ensures StepRun(cfg, key, s, run, o).log != [] && StepRun(cfg, key, s, run, o).log[|run.log|] == e
    ensures |StepRun(cfg, key, s, run, o).log| == |run.log| + 1
  {
  }

  /** What each returned emission carries, field by field: the window of the arrival's key, the final value over exactly
      the events that the window had accepted by then, their number, and the trace of the last of them. */
  lemma {:induction false} EmissionFields<C, S, R(!new)>(p: RealtimePipeline<C, S, R>, i: nat, e: WindowEmission<R>)
    requires p.Valid() && p.Lw() <= p.Cfg().latenessSeconds && i < |p.results| && e in p.results[i].emissions
    ensures i < |p.history| && e.partitionKey == p.history[i].partitionKey != ""
    ensures e.aggregationName == p.Cfg().agg.name
    ensures e.windowEnd == e.windowStart + p.Cfg().spec.sizeSeconds * 1_000_000
    ensures var mine := EventsFor(p.history[..i + 1], e.partitionKey);
      var accepted := Accepted(p.Cfg().spec, p.Lw(), e.windowStart, mine);
      && accepted != []
      && e.value == p.Cfg().agg.finalise(Fold(p.Cfg().agg, Contributions(accepted)))
      && e.eventCount == |accepted|
      && e.lastTraceId == accepted[|accepted| - 1].traceId
  {
    assert IsResult(p.Cfg(), p.Lw(), p.history[..i], p.history[i], p.results[i]);
    EveryEmissionIsBatch(p.Cfg(), p.Lw(), p.history[..i], p.history[i], p.results[i], e);
    TakeNext(p.history, i);
  }

  lemma {:induction false} FaithfulTake<C, S, R(!new)>(cfg: Config<C, S, R>, lw: nat, history: seq<Arrival<C>>,
                                                       results: seq<ProcessingResult<R>>, n: nat)
    requires cfg.spec.Valid() && Faithful(cfg, lw, history, results) && n <= |results|
    ensures n <= |history| && Faithful(cfg, lw, history[..n], results[..n])
  {
    forall i | 0 <= i < n ensures IsResult(cfg, lw, history[..n][..i], history[i], results[i]) {
      assert history[..n][..i] == history[..i];
    }
  }

  /** An emission is marked as a repair exactly when its window was emitted before. */
  lemma {:induction false} RepairFlag<C, S, R(!new)>(p: RealtimePipeline<C, S, R>, i: nat, e: WindowEmission<R>)
    requires p.Valid() && p.Lw() <= p.Cfg().latenessSeconds && i < |p.results| && e in p.results[i].emissions
    ensures e.isRepair <==> EmissionsFor(p.results[..i], e.partitionKey, e.windowStart) != []
  {
    var cfg, lw, past, a := p.Cfg(), p.Lw(), p.history[..i], p.history[i];
    assert IsResult(cfg, lw, past, a, p.results[i]);
    var key, s := a.partitionKey, e.windowStart;
    var mine := EventsFor(past, key);
    var run, o := RunEvents(cfg, lw, key, s, mine), ObservationOf(lw, mine, a.event);
    assert StepEmission(cfg, key, s, run.window, o) == Some(e);
    StepEmits(cfg, key, s, run, o, e);
    RunEventsSnoc(cfg, lw, key, s, mine, a.event);
    ManagerIsMonotone(lw, mine + [a.event]);
    ClosureProtocol(cfg, key, s, Observations(lw, mine + [a.event]));
    FaithfulTake(cfg, lw, p.history, p.results, i);
    LogIsRun(cfg, lw, past, p.results[..i], key, s);
  }

  /** An event that was not dropped and lies in a window that has been emitted is repaired in the same call, with the
      count that includes it. */
  lemma {:induction false} RepairedAtOnce<C, S, R(!new)>(p: RealtimePipeline<C, S, R>, i: nat, s: int)
    requires p.Valid() && p.Lw() <= p.Cfg().latenessSeconds && i < |p.results| <= |p.history|
    requires var a := p.history[i];
      && a.partitionKey != "" && EmissionsFor(p.results[..i], a.partitionKey, s) != []
      && (forall x :: x in EventsFor(p.history[..i], a.partitionKey) ==> x.ts - 2 * p.Lw() * 1_000_000 <= a.event.ts)
      && s % (p.Cfg().spec.slideSeconds * 1_000_000) == 0
      && s <= a.event.ts < s + p.Cfg().spec.sizeSeconds * 1_000_000
    ensures exists e ::
      && e in p.results[i].emissions && e.windowStart == s && e.isRepair
      && e.eventCount == |Accepted(p.Cfg().spec, p.Lw(), s, EventsFor(p.history[..i], e.partitionKey))| + 1
  {
    var cfg, lw, past, a := p.Cfg(), p.Lw(), p.history[..i], p.history[i];
    var key := a.partitionKey;
    var mine := EventsFor(past, key);
    assert IsResult(cfg, lw, past, a, p.results[i]);
    ClassInSeconds(lw, mine, a.event);
    FaithfulTake(cfg, lw, p.history, p.results, i);
    LogIsRun(cfg, lw, past, p.results[..i], key, s);
    NothingLostOrSilent(cfg, lw, key, s, mine, a.event);
    var accepted := Accepted(cfg.spec, lw, s, mine) + [a.event];
    var e := EmissionOf(cfg, key, s, BatchState(cfg, accepted, true), true);
    var window := RunEvents(cfg, lw, key, s, mine).window;
    assert StepEmission(cfg, key, s, window, ObservationOf(lw, mine, a.event)) == Some(e);
    assert e in p.results[i].emissions;
  }

  /** A window has been emitted exactly when it accepted an event and some event of the key lies the tolerance beyond
      its end. */
  lemma {:induction false} EmittedInSeconds<C, S, R(!new)>(p: RealtimePipeline<C, S, R>, key: string, s: int)
    requires p.Valid() && key != "" && p.Lw() <= p.Cfg().latenessSeconds
    ensures var evs := EventsFor(p.history, key);
      EmissionsFor(p.results, key, s) != [] <==>
        && Accepted(p.Cfg().spec, p.Lw(), s, evs) != []
        && exists x :: x in evs && s + p.Cfg().spec.sizeSeconds * 1_000_000 <= x.ts - p.Lw() * 1_000_000
  {
    PipelineMatchesBatch(p, key, s);
    HighIsMaximum(EventsFor(p.history, key));
  }

  /** A window is retained exactly when it accepted an event and no event of the key lies the two tolerances beyond its
      end, nor further. */
  lemma {:induction false} RetainedInSeconds<C, S, R(!new)>(p: RealtimePipeline<C, S, R>, key: string, s: int)
    requires p.Valid() && key != "" && p.Lw() <= p.Cfg().latenessSeconds
    ensures var evs := EventsFor(p.history, key);
      (key, s) in p.aggregator.states <==>
        && Accepted(p.Cfg().spec, p.Lw(), s, evs) != []
        && forall x :: x in evs ==>
             x.ts - p.Lw() * 1_000_000 <= s + p.Cfg().spec.sizeSeconds * 1_000_000 + p.Cfg().latenessSeconds * 1_000_000
  {
    var evs := EventsFor(p.history, key);
    assert WindowIn(p.aggregator.states, key, s) == RunEvents(p.Cfg(), p.Lw(), key, s, evs).window;
    BatchRefinement(p.Cfg(), p.Lw(), key, s, evs);
    HighIsMaximum(evs);
  }

  /** In any reachable pipeline the first emission of a window is its only closure, and counts rise after it. */
  lemma {:induction false} PipelineClosesOnce<C, S, R(!new)>(p: RealtimePipeline<C, S, R>, key: string, s: int)
    requires p.Valid() && key != ""
    ensures FirstClosesRestRepair(EmissionsFor(p.results, key, s))
    ensures CountsRise(EmissionsFor(p.results, key, s))
  {
    var evs := EventsFor(p.history, key);
    LogIsRun(p.Cfg(), p.Lw(), p.history, p.results, key, s);
    ManagerIsMonotone(p.Lw(), evs);
    ClosureProtocol(p.Cfg(), key, s, Observations(p.Lw(), evs));
  }

  /** For the distinct-count aggregation that feeds the outage detector, the latest value of an emitted window is the
      number of distinct keys among its accepted events. */
  lemma {:induction false} DistinctDevicesReported<C, K(!new)>(p: RealtimePipeline<C, set<K>, int>, device: C -> K,
                                                               name: string, key: string, s: int)
    requires p.Valid() && key != "" && p.Lw() <= p.Cfg().latenessSeconds
    requires p.Cfg().agg == DistinctCountAggregation(device, name)
    ensures var accepted := Accepted(p.Cfg().spec, p.Lw(), s, EventsFor(p.history, key));
      var log := EmissionsFor(p.results, key, s);
      log != [] ==> log[|log| - 1].value == |set x | x in Contributions(accepted) :: device(x)|
  {
    PipelineMatchesBatch(p, key, s);
    DistinctCountsKeys(device, name, Contributions(Accepted(p.Cfg().spec, p.Lw(), s, EventsFor(p.history, key))));
  }

  /** Two pipelines that received the same events of a key in different orders, neither dropping any, report the same
      windows of that key with the same last values, however their other keys were interleaved. */
  lemma {:induction false} PipelineIgnoresArrivalOrder<C(!new), S(!new), R(!new)>(p: RealtimePipeline<C, S, R>,
                                                                                  q: RealtimePipeline<C, S, R>,
                                                                                  key: string, s: int)
    requires p.Valid() && q.Valid() && p.Cfg() == q.Cfg() && p.Lw() == q.Lw() && key != ""
    requires p.Lw() <= p.Cfg().latenessSeconds && Commutes(p.Cfg().agg)
    requires multiset(EventsFor(p.history, key)) == multiset(EventsFor(q.history, key))
    requires NothingDropped(p.Lw(), EventsFor(p.history, key)) && NothingDropped(q.Lw(), EventsFor(q.history, key))
    ensures var a := EmissionsFor(p.results, key, s);
      var b := EmissionsFor(q.results, key, s);
      && (a == [] <==> b == [])
      && (a != [] ==> a[|a| - 1].value == b[|b| - 1].value && a[|a| - 1].eventCount == b[|b| - 1].eventCount)
  {
    LogIsRun(p.Cfg(), p.Lw(), p.history, p.results, key, s);
    LogIsRun(q.Cfg(), q.Lw(), q.history, q.results, key, s);
    ArrivalOrderInsensitive(p.Cfg(), p.Lw(), key, s, EventsFor(p.history, key), EventsFor(q.history, key));
  }

  /** The rounding of the retained band to whole slides bounds a key's open windows. */
  lemma {:induction false} MemoryBound<C, S, R(!new)>(p: RealtimePipeline<C, S, R>, key: string)
    requires p.Valid() && key != ""
    ensures |set w | w in p.aggregator.states && w.0 == key :: w.1| <=
      (p.Cfg().latenessSeconds + p.Lw() + p.Cfg().spec.sizeSeconds) / p.Cfg().spec.slideSeconds + 1
    ensures p.aggregator.OpenWindowCount(key) == |set w | w in p.aggregator.states && w.0 == key :: w.1|
  {
    var cfg, evs := p.Cfg(), EventsFor(p.history, key);
    OpenWindowsCounted(p.aggregator, key);
    if key in p.aggregator.openStarts {
      var starts := p.aggregator.openStarts[key];
      var span := cfg.latenessSeconds + p.Lw() + cfg.spec.sizeSeconds;
      forall s | s in starts
        ensures HighOf(evs).Some? && s % cfg.spec.Slide() == 0
        ensures HighOf(evs).value - span * MICROS_PER_SECOND <= s <= HighOf(evs).value
      {
        assert (key, s) in p.aggregator.states;
        assert WindowIn(p.aggregator.states, key, s).Some?;
        RetainedBand(cfg, p.Lw(), key, s, evs);
      }
      assert starts[0] in starts;
      AlignedCount(starts, HighOf(evs).value - span * MICROS_PER_SECOND, span * MICROS_PER_SECOND, cfg.spec.Slide());
      ScaledQuotient(span, cfg.spec.slideSeconds);
    }
  }

  lemma {:induction false} ScaledQuotient(a: nat, b: nat)
    requires 0 < b
    ensures (a * MICROS_PER_SECOND) / (b * MICROS_PER_SECOND) == a / b
  {
    var q, m := a / b, MICROS_PER_SECOND;
    assert a * m == q * (b * m) + (a % b) * m;
    var d := b * m;
    var x := a * m;
    FloorMultiple(x, d);
    if x / d < q {
      MultiplyMonotone(x / d, q, d);
      assert false;
    }
    if q < x / d {
      MultiplyMonotone(q, x / d, d);
      assert false;
    }
  }

  // Key isolation.

  function OnlyKeys<C>(history: seq<Arrival<C>>, keys: set<string>): seq<Arrival<C>> {
    if history == [] then []
    else
      var past := OnlyKeys(history[..|history| - 1], keys);
      if history[|history| - 1].partitionKey in keys then past + [history[|history| - 1]] else past
  }

  function OnlyResults<C, R>(history: seq<Arrival<C>>, results: seq<ProcessingResult<R>>, keys: set<string>)
    : seq<ProcessingResult<R>>
    requires |history| == |results|
  {
    if history == [] then []
    else
      var n := |history| - 1;
      var past := OnlyResults(history[..n], results[..n], keys);
      if history[n].partitionKey in keys then past + [results[n]] else past
  }

  lemma {:induction false} OnlyKeysKeepsEvents<C>(history: seq<Arrival<C>>, keys: set<string>, k: string)
    requires k in keys
    ensures EventsFor(OnlyKeys(history, keys), k) == EventsFor(history, k)
  {
    if history != [] {
      var n := |history| - 1;
      OnlyKeysKeepsEvents(history[..n], keys, k);
      EventsForSnoc(OnlyKeys(history[..n], keys), history[n], k);
    }
  }

  lemma {:induction false} RestrictionIsFaithful<C, S, R(!new)>(cfg: Config<C, S, R>, lw: nat, history: seq<Arrival<C>>,
                                                                results: seq<ProcessingResult<R>>, keys: set<string>)
    requires cfg.spec.Valid() && Faithful(cfg, lw, history, results)
    ensures Faithful(cfg, lw, OnlyKeys(history, keys), OnlyResults(history, results, keys))
  {
    if history != [] {
      var n := |history| - 1;
      var past, a := history[..n], history[n];
      FaithfulPrefix(cfg, lw, history, results);
      RestrictionIsFaithful(cfg, lw, past, results[..n], keys);
      if a.partitionKey in keys {
        OnlyKeysKeepsEvents(past, keys, a.partitionKey);
        assert IsResult(cfg, lw, OnlyKeys(past, keys), a, results[n]);
        FaithfulStep(cfg, lw, OnlyKeys(past, keys), OnlyResults(past, results[..n], keys), a, results[n]);
      }
    }
  }

  /** A history has only one faithful list of results. */
  lemma {:induction false} FaithfulIsUnique<C, S, R(!new)>(cfg: Config<C, S, R>, lw: nat, history: seq<Arrival<C>>,
                                                           r1: seq<ProcessingResult<R>>, r2: seq<ProcessingResult<R>>)
    requires cfg.spec.Valid() && Faithful(cfg, lw, history, r1) && Faithful(cfg, lw, history, r2)
    ensures r1 == r2
  {
    forall i | 0 <= i < |history| ensures r1[i] == r2[i] {
      assert IsResult(cfg, lw, history[..i], history[i], r1[i]);
      assert IsResult(cfg, lw, history[..i], history[i], r2[i]);
      if history[i].partitionKey != "" {
        AscendingListsEqual(r1[i].emissions, r2[i].emissions);
      }
    }
  }

  /** Key non-interference: whatever else a pipeline processed, the results, watermarks and windows of any set of keys
      are those of a pipeline that saw only the arrivals of these keys. With all keys in the set, this is replay
      determinism. */
  lemma {:induction false} KeyNonInterference<C, S, R(!new)>(p: RealtimePipeline<C, S, R>, q: RealtimePipeline<C, S, R>,
                                                             keys: set<string>)
    requires p.Valid() && q.Valid() && p.Cfg() == q.Cfg() && p.Lw() == q.Lw()
    requires q.history == OnlyKeys(p.history, keys)
    ensures q.results == OnlyResults(p.history, p.results, keys)
    ensures forall k :: k in keys && k != "" ==> p.watermarks.WatermarkFor(k) == q.watermarks.WatermarkFor(k)
    ensures forall k, s :: k in keys && k != "" ==>
      WindowIn(p.aggregator.states, k, s) == WindowIn(q.aggregator.states, k, s)
  {
    RestrictionIsFaithful(p.Cfg(), p.Lw(), p.history, p.results, keys);
    FaithfulIsUnique(p.Cfg(), p.Lw(), q.history, q.results, OnlyResults(p.history, p.results, keys));
    forall k | k in keys && k != ""
      ensures EventsFor(q.history, k) == EventsFor(p.history, k)
    {
      OnlyKeysKeepsEvents(p.history, keys, k);
    }
  }
}
