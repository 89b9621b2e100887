/** Event-time window aggregation: one aggregator serves many keys and many overlapping windows. */
module WindowAggregators {
  import opened Prelude
  import opened WindowSpecs
  import opened Aggregations
  import opened Watermarks

  datatype Config<!C, !S, !R> = Config(spec: WindowSpec, agg: Aggregation<C, S, R>, latenessSeconds: nat) {
    /** Last watermark at which the window starting at `s` is still retained. */
    function SealingHorizon(s: int): int {
      s + spec.Size() + latenessSeconds * MICROS_PER_SECOND
    }
  }

  datatype Observation<+C> = Observation(
    ts: int,
    contribution: C,
    classification: EventClassification,
    watermark: int,
    traceId: Option<string>
  )

  datatype WindowState<+S> = WindowState(state: S, eventCount: nat, hasEmitted: bool, lastTraceId: Option<string>)

  datatype WindowEmission<+R> = WindowEmission(
    partitionKey: string,
    aggregationName: string,
    windowStart: int,
    windowEnd: int,
    value: R,
    eventCount: nat,
    isRepair: bool,
    lastTraceId: Option<string>
  )

  type States<S> = map<(string, int), WindowState<S>>

  function WindowIn<S>(states: States<S>, key: string, s: int): Option<WindowState<S>> {
    if (key, s) in states then Some(states[(key, s)]) else None
  }

  function EmissionOf<C, S, R>(cfg: Config<C, S, R>, key: string, s: int, w: WindowState<S>, isRepair: bool)
    : WindowEmission<R>
  {
    WindowEmission(key, cfg.agg.name, s, s + cfg.spec.Size(), cfg.agg.finalise(w.state), w.eventCount, isRepair,
                   w.lastTraceId)
  }

  // What one observation does to a single window, seen in isolation.

  /** The observation reaches this window: it is not dropped, the window covers it, and a window that is not
      retained may still be opened. */
  predicate Contributes<C, S, R>(cfg: Config<C, S, R>, s: int, w: Option<WindowState<S>>, o: Observation<C>)
    requires cfg.spec.Valid()
  {
    && !o.classification.LateDropped?
    && cfg.spec.Covers(s, o.ts)
    && (w.Some? || o.watermark <= cfg.SealingHorizon(s))
  }

  function Combined<C, S, R>(cfg: Config<C, S, R>, w: Option<WindowState<S>>, o: Observation<C>): WindowState<S> {
    var before := if w.Some? then w.value else WindowState(cfg.agg.initial, 0, false, None);
    WindowState(cfg.agg.combine(before.state, o.contribution), before.eventCount + 1, before.hasEmitted, o.traceId)
  }

  function Absorbed<C, S, R>(cfg: Config<C, S, R>, s: int, w: Option<WindowState<S>>, o: Observation<C>)
    : Option<WindowState<S>>
    requires cfg.spec.Valid()
  {
    if Contributes(cfg, s, w, o) then Some(Combined(cfg, w, o)) else w
  }

  predicate Repairs<C, S, R>(cfg: Config<C, S, R>, s: int, w: Option<WindowState<S>>, o: Observation<C>)
    requires cfg.spec.Valid()
  {
    Contributes(cfg, s, w, o) && o.classification.LateTolerated? && w.Some? && w.value.hasEmitted
  }

  predicate Closes<C, S, R>(cfg: Config<C, S, R>, s: int, w: Option<WindowState<S>>, watermark: int) {
    w.Some? && !w.value.hasEmitted && s + cfg.spec.Size() <= watermark
  }

  function Retained<C, S, R>(cfg: Config<C, S, R>, s: int, w: Option<WindowState<S>>, watermark: int)
    : Option<WindowState<S>>
  {
    if w.None? || watermark > cfg.SealingHorizon(s) then None
    else Some(w.value.(hasEmitted := w.value.hasEmitted || Closes(cfg, s, w, watermark)))
  }

  function StepWindow<C, S, R>(cfg: Config<C, S, R>, s: int, w: Option<WindowState<S>>, o: Observation<C>)
    : Option<WindowState<S>>
    requires cfg.spec.Valid()
  {
    Retained(cfg, s, Absorbed(cfg, s, w, o), o.watermark)
  }

  function StepEmission<C, S, R>(cfg: Config<C, S, R>, key: string, s: int, w: Option<WindowState<S>>,
                                 o: Observation<C>): Option<WindowEmission<R>>
    requires cfg.spec.Valid()
  {
    var absorbed := Absorbed(cfg, s, w, o);
    if Repairs(cfg, s, w, o) then Some(EmissionOf(cfg, key, s, absorbed.value, true))
    else if Closes(cfg, s, absorbed, o.watermark) then Some(EmissionOf(cfg, key, s, absorbed.value, false))
    else None
  }

  // What one observation does to the whole aggregator.

  ghost predicate Stepped<C, S, R>(cfg: Config<C, S, R>, key: string, before: States<S>, after: States<S>,
                                   o: Observation<C>)
    requires cfg.spec.Valid()
  {
    forall k, s :: WindowIn(after, k, s) == (
      if k == key then StepWindow(cfg, s, WindowIn(before, k, s), o) else WindowIn(before, k, s))
  }

  predicate AscendingStarts<R>(es: seq<WindowEmission<R>>) {
    forall i, j :: 0 <= i < j < |es| ==> es[i].windowStart < es[j].windowStart
  }

  /** `es` holds exactly the emissions that the windows of `key` produce one by one, by ascending start. */
  ghost predicate EmitsExactly<C, S, R(!new)>(cfg: Config<C, S, R>, key: string, before: States<S>,
                                              o: Observation<C>, es: seq<WindowEmission<R>>)
    requires cfg.spec.Valid()
  {
    && AscendingStarts(es)
    && forall e: WindowEmission<R> :: e in es <==>
         StepEmission(cfg, key, e.windowStart, WindowIn(before, key, e.windowStart), o) == Some(e)
  }

  /** Two ascending lists with the same elements are equal, so `EmitsExactly` determines the list. */
  lemma {:induction false} AscendingListsEqual<R(!new)>(a: seq<WindowEmission<R>>, b: seq<WindowEmission<R>>)
    requires AscendingStarts(a) && AscendingStarts(b)
    requires forall e: WindowEmission<R> :: e in a <==> e in b
    ensures a == b
  {
    if a == [] {
      if b != [] {
        HasMember(b);
        assert false;
      }
    } else {
      HasMember(a);
      assert a[0] in b;
      SameHead(a, b);
      assert a == [a[0]] + a[1..] && b == [b[0]] + b[1..];
      forall e: WindowEmission<R> ensures e in a[1..] <==> e in b[1..] {
        TailMembers(a, e);
        TailMembers(b, e);
      }
      AscendingListsEqual(a[1..], b[1..]);
    }
  }

  lemma {:induction false} HasMember<T>(xs: seq<T>)
    requires xs != []
    ensures exists x :: x in xs
  {
    assert xs[0] in xs;
  }

  lemma {:induction false} TailMembers<R>(a: seq<WindowEmission<R>>, e: WindowEmission<R>)
    requires AscendingStarts(a) && a != []
    ensures e in a[1..] <==> e in a && e != a[0]
  {
    assert a == [a[0]] + a[1..];
    if e in a[1..] {
      var i :| 0 <= i < |a[1..]| && a[1..][i] == e;
      assert a[i + 1] == e;
    }
  }

  lemma {:induction false} SameHead<R(!new)>(a: seq<WindowEmission<R>>, b: seq<WindowEmission<R>>)
    requires AscendingStarts(a) && AscendingStarts(b) && a != [] && b != []
    requires forall e: WindowEmission<R> :: e in a <==> e in b
    ensures a[0] == b[0]
  {
    assert a[0] in b && b[0] in a;
    var i :| 0 <= i < |b| && b[i] == a[0];
    var j :| 0 <= j < |a| && a[j] == b[0];
    if 0 < i {
      assert b[0].windowStart < b[i].windowStart;
    }
  }

  ghost predicate Indexed<C, S, R>(cfg: Config<C, S, R>, states: States<S>, openStarts: map<string, seq<int>>)
    requires cfg.spec.Valid()
  {
    && (forall k :: k in openStarts ==> openStarts[k] != [] && Ascending(openStarts[k]))
    && (forall k, s :: (k, s) in states <==> k in openStarts && s in openStarts[k])
    && (forall k, s :: (k, s) in states ==> cfg.spec.IsStart(s))
  }

  lemma {:induction false} DistinctSize(xs: seq<int>)
    requires Ascending(xs)
    ensures |set x | x in xs| == |xs|
  {
    if xs != [] {
      var n := |xs| - 1;
      DistinctSize(xs[..n]);
      Rejoin(xs);
      assert (set x | x in xs) == (set x | x in xs[..n]) + {xs[n]};
      assert xs[n] !in xs[..n];
    }
  }

  /** The count read off the index is the number of windows of the key that are retained. */
  lemma {:induction false} OpenWindowsCounted<C, S, R(!new)>(a: WindowAggregator<C, S, R>, key: string)
    requires a.Valid()
    ensures a.OpenWindowCount(key) == |set w | w in a.states && w.0 == key :: w.1|
  {
    var retained := set w | w in a.states && w.0 == key :: w.1;
    var starts := if key in a.openStarts then a.openStarts[key] else [];
    forall s ensures s in retained <==> s in starts {
      assert s in retained <==> (key, s) in a.states;
    }
    DistinctSize(starts);
    assert retained == set s | s in starts;
  }

  function ByStartThenRepair<R>(): (WindowEmission<R>, WindowEmission<R>) -> bool {
    (a: WindowEmission<R>, b: WindowEmission<R>) =>
      a.windowStart < b.windowStart || (a.windowStart == b.windowStart && (!a.isRepair || b.isRepair))
  }

  class WindowAggregator<C, S, R(!new)> {
    const cfg: Config<C, S, R>
    var states: States<S>
    var openStarts: map<string, seq<int>>

    ghost predicate Valid()
      reads this
    {
      cfg.spec.Valid() && Indexed(cfg, states, openStarts)
    }

    constructor (cfg: Config<C, S, R>)
      requires cfg.spec.Valid()
      ensures Valid() && this.cfg == cfg && states == map[] && openStarts == map[]
    {
      this.cfg := cfg;
      states := map[];
      openStarts := map[];
    }

    /** Every window of the key moves by its own step, and the emissions come out by ascending start. */
    method Observe(key: string, o: Observation<C>) returns (r: Result<seq<WindowEmission<R>>>)
      requires Valid()
      modifies this
      ensures Valid()
      ensures key == "" ==> r.ValueError? && states == old(states) && openStarts == old(openStarts)
      ensures key != "" ==>
        && r.Ok?
        && Stepped(cfg, key, old(states), states, o)
        && EmitsExactly(cfg, key, old(states), o, r.value)
    {
      if key == "" {
        return ValueError;
      }
      if o.classification.LateDropped? {
        var closed := CloseEligibleWindows(key, o.watermark);
        return Ok(closed);
      }
      var starts := WindowsContaining(cfg.spec, o.ts);
      var emissions: seq<WindowEmission<R>> := [];
      for i := 0 to |starts|
        invariant Valid()
        invariant forall k, s ::
          WindowIn(states, k, s) == (
            if k == key && s in starts[..i] then Absorbed(cfg, s, WindowIn(old(states), k, s), o)
            else WindowIn(old(states), k, s))
        invariant AscendingStarts(emissions)
        invariant forall e: WindowEmission<R> :: e in emissions <==>
          && e.windowStart in starts[..i]
          && Repairs(cfg, e.windowStart, WindowIn(old(states), key, e.windowStart), o)
          && e == EmissionOf(cfg, key, e.windowStart,
                             Combined(cfg, WindowIn(old(states), key, e.windowStart), o), true)
      {
        var s := starts[i];
        assert starts[..i + 1] == starts[..i] + [s];
        assert s !in starts[..i];
        var repair := Touch(key, s, o);
        if repair.Some? {
          emissions := emissions + [repair.value];
        }
      }
      assert starts[..|starts|] == starts;
      ghost var absorbed := states;
      assert forall s :: WindowIn(absorbed, key, s) == Absorbed(cfg, s, WindowIn(old(states), key, s), o);
      var closed := CloseEligibleWindows(key, o.watermark);
      r := Ok(Sorted(emissions + closed, ByStartThenRepair()));
      CombinedEmissions(cfg, key, old(states), absorbed, o, emissions, closed);
    }

    /** Applies the observation to one window that covers it: opens the window if it may, combines, repairs. */
    method Touch(key: string, s: int, o: Observation<C>) returns (repair: Option<WindowEmission<R>>)
      requires Valid() && cfg.spec.Covers(s, o.ts) && !o.classification.LateDropped?
      modifies this
      ensures Valid()
      ensures forall k, x ::
        WindowIn(states, k, x) == (
          if k == key && x == s then Absorbed(cfg, s, WindowIn(old(states), k, x), o) else WindowIn(old(states), k, x))
      ensures repair ==
        if Repairs(cfg, s, WindowIn(old(states), key, s), o)
        then Some(EmissionOf(cfg, key, s, Combined(cfg, WindowIn(old(states), key, s), o), true))
        else None
    {
      if (key, s) !in states {
        if o.watermark > cfg.SealingHorizon(s) {
          return None;
        }
        var existing := if key in openStarts then openStarts[key] else [];
        InsertAscending(s, existing);
        states := states[(key, s) := WindowState(cfg.agg.initial, 0, false, None)];
        openStarts := openStarts[key := Insert(s, existing, AtMost())];
      }
      var w := states[(key, s)];
      var next := WindowState(cfg.agg.combine(w.state, o.contribution), w.eventCount + 1, w.hasEmitted, o.traceId);
      states := states[(key, s) := next];
      if o.classification.LateTolerated? && next.hasEmitted {
        repair := Some(EmissionOf(cfg, key, s, next, true));
      } else {
        repair := None;
      }
    }

    function OpenWindowCount(key: string): nat
      reads this
    {
      if key in openStarts then |openStarts[key]| else 0
    }

    /** Emits one window if the watermark has newly reached its end and drops it past its horizon. */
    method CloseWindow(key: string, s: int, watermark: int)
      returns (emission: Option<WindowEmission<R>>, keep: bool)
      requires (key, s) in states
      modifies this`states
      ensures forall k, x ::
        WindowIn(states, k, x) == (
          if k == key && x == s then Retained(cfg, s, WindowIn(old(states), k, x), watermark)
          else WindowIn(old(states), k, x))
      ensures emission ==
        if Closes(cfg, s, WindowIn(old(states), key, s), watermark)
        then Some(EmissionOf(cfg, key, s, old(states)[(key, s)], false))
        else None
      ensures keep <==> watermark <= cfg.SealingHorizon(s)
    {
      var w := states[(key, s)];
      emission := None;
      if !w.hasEmitted && watermark >= s + cfg.spec.Size() {
        emission := Some(EmissionOf(cfg, key, s, w, false));
        states := states[(key, s) := w.(hasEmitted := true)];
      }
      keep := watermark <= cfg.SealingHorizon(s);
      if !keep {
        states := states - {(key, s)};
      }
    }

    /** Emits the windows of the key that the watermark has reached, then evicts those past their horizon. */
    method CloseEligibleWindows(key: string, watermark: int) returns (closed: seq<WindowEmission<R>>)
      requires Valid()
      modifies this
      ensures Valid()
      ensures forall k, s ::
        WindowIn(states, k, s) == (
          if k == key then Retained(cfg, s, WindowIn(old(states), k, s), watermark) else WindowIn(old(states), k, s))
      ensures AscendingStarts(closed)
      ensures forall e: WindowEmission<R> :: e in closed <==>
        && Closes(cfg, e.windowStart, WindowIn(old(states), key, e.windowStart), watermark)
        && e == EmissionOf(cfg, key, e.windowStart, WindowIn(old(states), key, e.windowStart).value, false)
    {
      closed := [];
      if key !in openStarts {
        return;
      }
      var starts := openStarts[key];
      var kept: seq<int> := [];
      for i := 0 to |starts|
        invariant openStarts == old(openStarts)
        invariant SweptStates(cfg, key, starts[..i], old(states), states, watermark)
        invariant SweptStarts(cfg, starts[..i], kept, watermark)
        invariant SweptEmissions(cfg, key, starts[..i], old(states), closed, watermark)
      {
        var s := starts[i];
        assert starts[..i + 1] == starts[..i] + [s];
        assert s !in starts[..i];
        ghost var before := states;
        assert WindowIn(before, key, s) == WindowIn(old(states), key, s);
        var emission, keep := CloseWindow(key, s, watermark);
        SweepOne(cfg, key, starts[..i], s, old(states), before, states, kept, closed, watermark);
        if emission.Some? {
          closed := closed + [emission.value];
        }
        if keep {
          kept := kept + [s];
        }
      }
      assert starts[..|starts|] == starts;
      ghost var index := openStarts;
      openStarts := if kept != [] then openStarts[key := kept] else openStarts - {key};
      SweepAll(cfg, key, starts, old(states), index, states, openStarts, kept, watermark);
    }
  }

  // Progress of the closing loop over the starts it has visited.

  ghost predicate SweptStates<C, S, R>(cfg: Config<C, S, R>, key: string, done: seq<int>, before: States<S>,
                                       now: States<S>, watermark: int)
  {
    forall k, s ::
      WindowIn(now, k, s) == (
        if k == key && s in done then Retained(cfg, s, WindowIn(before, k, s), watermark)
        else WindowIn(before, k, s))
  }

  ghost predicate SweptStarts<C, S, R>(cfg: Config<C, S, R>, done: seq<int>, kept: seq<int>, watermark: int) {
    && Ascending(kept)
    && forall s :: s in kept <==> s in done && watermark <= cfg.SealingHorizon(s)
  }

  ghost predicate SweptEmissions<C, S, R(!new)>(cfg: Config<C, S, R>, key: string, done: seq<int>,
                                                before: States<S>, closed: seq<WindowEmission<R>>, watermark: int)
  {
    && AscendingStarts(closed)
    && forall e: WindowEmission<R> :: e in closed <==>
         && e.windowStart in done
         && Closes(cfg, e.windowStart, WindowIn(before, key, e.windowStart), watermark)
         && e == EmissionOf(cfg, key, e.windowStart, WindowIn(before, key, e.windowStart).value, false)
  }

  lemma {:induction false} SweepOne<C, S, R(!new)>(cfg: Config<C, S, R>, key: string, done: seq<int>, s: int,
                                                   first: States<S>, before: States<S>, after: States<S>,
                                                   kept: seq<int>, closed: seq<WindowEmission<R>>, watermark: int)
    requires forall x :: x in done ==> x < s
    requires SweptStates(cfg, key, done, first, before, watermark)
    requires SweptStarts(cfg, done, kept, watermark)
    requires SweptEmissions(cfg, key, done, first, closed, watermark)
    requires forall k, x ::
      WindowIn(after, k, x) == (
        if k == key && x == s then Retained(cfg, s, WindowIn(before, k, x), watermark) else WindowIn(before, k, x))
    ensures SweptStates(cfg, key, done + [s], first, after, watermark)
    ensures SweptStarts(cfg, done + [s], if watermark <= cfg.SealingHorizon(s) then kept + [s] else kept, watermark)
    ensures SweptEmissions(cfg, key, done + [s], first,
              if Closes(cfg, s, WindowIn(first, key, s), watermark)
              then closed + [EmissionOf(cfg, key, s, WindowIn(first, key, s).value, false)] else closed, watermark)
  {
    assert forall x :: x in kept ==> x in done;
    AscendingSnoc(kept, s);
    forall i | 0 <= i < |closed| ensures closed[i].windowStart < s {
      assert closed[i] in closed;
    }
  }

  lemma {:induction false} SweepAll<C, S, R>(cfg: Config<C, S, R>, key: string, starts: seq<int>, before: States<S>,
                                             index: map<string, seq<int>>, after: States<S>,
                                             index': map<string, seq<int>>, kept: seq<int>, watermark: int)
    requires cfg.spec.Valid() && Indexed(cfg, before, index)
    requires key in index && starts == index[key]
    requires SweptStates(cfg, key, starts, before, after, watermark)
    requires SweptStarts(cfg, starts, kept, watermark)
    requires index' == if kept != [] then index[key := kept] else index - {key}
    ensures Indexed(cfg, after, index')
  {
    assert forall k, s :: (k, s) in after <==> WindowIn(after, k, s).Some?;
    assert forall k, s :: (k, s) in before <==> WindowIn(before, k, s).Some?;
  }

  /** Repairs and closures never meet on one window, so sorting their concatenation lists each window once. */
  lemma {:induction false} CombinedEmissions<C, S, R(!new)>(cfg: Config<C, S, R>, key: string, before: States<S>,
                                                            absorbed: States<S>, o: Observation<C>,
                                                            repairs: seq<WindowEmission<R>>,
                                                            closed: seq<WindowEmission<R>>)
    requires cfg.spec.Valid()
    requires forall s :: WindowIn(absorbed, key, s) == Absorbed(cfg, s, WindowIn(before, key, s), o)
    requires AscendingStarts(repairs) && AscendingStarts(closed)
    requires forall e: WindowEmission<R> :: e in repairs <==>
      && Repairs(cfg, e.windowStart, WindowIn(before, key, e.windowStart), o)
      && e == EmissionOf(cfg, key, e.windowStart, Combined(cfg, WindowIn(before, key, e.windowStart), o), true)
    requires forall e: WindowEmission<R> :: e in closed <==>
      && Closes(cfg, e.windowStart, WindowIn(absorbed, key, e.windowStart), o.watermark)
      && e == EmissionOf(cfg, key, e.windowStart, WindowIn(absorbed, key, e.windowStart).value, false)
    ensures EmitsExactly(cfg, key, before, o, Sorted(repairs + closed, ByStartThenRepair()))
  {
    var both := repairs + closed;
    var es := Sorted(both, ByStartThenRepair());
    assert forall e: WindowEmission<R> :: e in both <==> e in repairs || e in closed;
    assert NoDuplicates(both) by {
      forall i, j | 0 <= i < j < |both| ensures both[i] != both[j] {
        if i < |repairs| <= j {
          assert both[i] in repairs && both[j] in closed;
        }
      }
    }
    SortedSorts(both, ByStartThenRepair());
    forall i, j | 0 <= i < j < |es| ensures es[i].windowStart < es[j].windowStart {
      assert ByStartThenRepair()(es[i], es[j]);
      assert es[i] in both && es[j] in both;
    }
  }
}
