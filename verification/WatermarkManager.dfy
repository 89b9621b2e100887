/** Per-key event-time watermarks with allowed lateness. */
module Watermarks {
  import opened Prelude

  datatype EventClassification = OnTime | LateTolerated | LateDropped

  datatype WatermarkObservation = WatermarkObservation(
    key: string,
    classification: EventClassification,
    watermark: int,
    highEventTimestamp: int,
    lateness: int
  )

  /** `None` stands for the baseline "no event seen yet", which lies before every instant. */
  function DeriveWatermark(lateness: int, high: Option<int>): Option<int> {
    match high
    case None => None
    case Some(h) => Some(h - lateness)
  }

  function Classify(lateness: int, ts: int, previous: Option<int>): EventClassification {
    match previous
    case None => OnTime
    case Some(w) =>
      if ts >= w then OnTime
      else if w - ts <= lateness && lateness > 0 then LateTolerated
      else LateDropped
  }

  function RaisedHigh(high: Option<int>, ts: int): int {
    match high
    case None => ts
    case Some(h) => Max(h, ts)
  }

  function HighFor(highs: map<string, int>, key: string): Option<int> {
    if key in highs then Some(highs[key]) else None
  }

  /** The baseline is at or before everything. */
  predicate NoLater(a: Option<int>, b: Option<int>) {
    a.None? || (b.Some? && a.value <= b.value)
  }

  ghost predicate IsGlobalWatermark(lateness: int, highs: map<string, int>, g: Option<int>) {
    match g
    case None => highs == map[]
    case Some(w) =>
      && (exists k :: k in highs && w == highs[k] - lateness)
      && (forall k :: k in highs ==> w <= highs[k] - lateness)
  }

  class WatermarkManager {
    const latenessSeconds: nat
    var highEventTs: map<string, int>

    constructor (latenessSeconds: nat)
      ensures this.latenessSeconds == latenessSeconds
      ensures highEventTs == map[]
    {
      this.latenessSeconds := latenessSeconds;
      highEventTs := map[];
    }

    function Lateness(): int {
      latenessSeconds * MICROS_PER_SECOND
    }

    /** Classifies against the watermark before the event and reports the watermark after it. */
    method Observe(key: string, ts: int) returns (r: Result<WatermarkObservation>)
      modifies this
      ensures key == "" ==> r.ValueError? && highEventTs == old(highEventTs)
      ensures key != "" ==>
        && highEventTs == old(highEventTs)[key := RaisedHigh(HighFor(old(highEventTs), key), ts)]
        && r == Ok(WatermarkObservation(
                     key,
                     Classify(Lateness(), ts, DeriveWatermark(Lateness(), HighFor(old(highEventTs), key))),
                     RaisedHigh(HighFor(old(highEventTs), key), ts) - Lateness(),
                     RaisedHigh(HighFor(old(highEventTs), key), ts),
                     Lateness()))
    {
      if key == "" {
        return ValueError;
      }
      var previousHigh := HighFor(highEventTs, key);
      var previousWatermark := DeriveWatermark(Lateness(), previousHigh);
      var classification := Classify(Lateness(), ts, previousWatermark);
      var newHigh := RaisedHigh(previousHigh, ts);
      highEventTs := highEventTs[key := newHigh];
      r := Ok(WatermarkObservation(key, classification, newHigh - Lateness(), newHigh, Lateness()));
    }

    function WatermarkFor(key: string): Option<int>
      reads this
    {
      DeriveWatermark(Lateness(), HighFor(highEventTs, key))
    }

    /** The minimum watermark over all tracked keys. */
    method GlobalWatermark() returns (g: Option<int>)
      ensures IsGlobalWatermark(Lateness(), highEventTs, g)
    {
      g := None;
      var rest := highEventTs.Keys;
      while rest != {}
        invariant rest <= highEventTs.Keys
        invariant g.None? ==> rest == highEventTs.Keys
        invariant g.Some? ==> exists k :: k in highEventTs && g.value == highEventTs[k] - Lateness()
        invariant g.Some? ==> forall k :: k in highEventTs && k !in rest ==> g.value <= highEventTs[k] - Lateness()
        decreases rest
      {
        var k :| k in rest;
        var w := highEventTs[k] - Lateness();
        if g.None? || w < g.value {
          g := Some(w);
        }
        rest := rest - {k};
      }
    }
  }

  /** Three contiguous bands: dropped, tolerated (empty when the lateness is zero), on time. */
  lemma {:induction false} ClassificationBands(lateness: int, ts: int, previous: Option<int>)
    requires 0 <= lateness
    ensures Classify(lateness, ts, previous).LateDropped? <==> previous.Some? && ts + lateness < previous.value
    ensures Classify(lateness, ts, previous).OnTime? <==> previous.None? || previous.value <= ts
    ensures lateness == 0 ==> !Classify(lateness, ts, previous).LateTolerated?
  {
  }

  /** A key's watermark never goes back, and a late event does not move it. */
  lemma {:induction false} KeyWatermarkAdvances(lateness: int, high: Option<int>, ts: int)
    requires 0 <= lateness
    ensures NoLater(DeriveWatermark(lateness, high), Some(RaisedHigh(high, ts) - lateness))
    ensures !Classify(lateness, ts, DeriveWatermark(lateness, high)).OnTime? ==>
      DeriveWatermark(lateness, high) == Some(RaisedHigh(high, ts) - lateness)
  {
  }

  /** The minimum over keys is not monotone: one observation keeps it from going back exactly when the key is
      already tracked, no key is tracked yet, or the new key enters at or after the current minimum. */
  lemma {:induction false} GlobalWatermarkRegression(lateness: int, highs: map<string, int>, key: string, ts: int,
                                                     before: Option<int>, after: Option<int>)
    requires IsGlobalWatermark(lateness, highs, before)
    requires IsGlobalWatermark(lateness, highs[key := RaisedHigh(HighFor(highs, key), ts)], after)
    ensures NoLater(before, after) <==>
      key in highs || before.None? || before.value <= ts - lateness
  {
    var highs' := highs[key := RaisedHigh(HighFor(highs, key), ts)];
    assert key in highs';
    if before.Some? {
      var k :| k in highs' && after.value == highs'[k] - lateness;
      var j :| j in highs && before.value == highs[j] - lateness;
    }
  }

  /** A key that enters one microsecond below the only tracked one takes the minimum back by as much. */
  lemma {:induction false} NewKeyTakesMinimumBack(lateness: int, ts: int, after: Option<int>)
    requires IsGlobalWatermark(lateness, map["a" := ts]["b" := ts - 1], after)
    ensures IsGlobalWatermark(lateness, map["a" := ts], Some(ts - lateness))
    ensures after == Some(ts - lateness - 1) && !NoLater(Some(ts - lateness), after)
  {
    var highs := map["a" := ts];
    assert "a" in highs && "b" in highs["b" := ts - 1];
  }
}
