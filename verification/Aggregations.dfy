/** Aggregation strategies: an initial state, a `combine` step and a `finalise` projection. */
module Aggregations {
  import opened Prelude

  datatype Aggregation<!C, !S, !R> = Aggregation(
    name: string,
    initial: S,
    combine: (S, C) -> S,
    finalise: S -> R
  )

  function CountAggregation<C>(): Aggregation<C, int, int> {
    Aggregation("count", 0, (n: int, c: C) => n + 1, (n: int) => n)
  }

  /** Numbers are exact here; `SumAggregation.combine` of the program adds binary floating-point values. */
  function SumAggregation(): Aggregation<real, real, real> {
    Aggregation("sum", 0.0, (total: real, x: real) => total + x, (total: real) => total)
  }

  function DistinctCountAggregation<C, K>(key: C -> K, name: string): Aggregation<C, set<K>, int> {
    Aggregation(name, {}, (seen: set<K>, c: C) => seen + {key(c)}, (seen: set<K>) => |seen|)
  }

  function MeanAggregation(): Aggregation<real, (real, int), real> {
    Aggregation("mean", (0.0, 0),
                (st: (real, int), x: real) => (st.0 + x, st.1 + 1),
                (st: (real, int)) => if st.1 > 0 then st.0 / st.1 as real else 0.0)
  }

  /** The reference meaning of a window: fold its contributions in arrival order. */
  function Fold<C, S, R>(agg: Aggregation<C, S, R>, xs: seq<C>): S {
    if xs == [] then agg.initial
    else agg.combine(Fold(agg, xs[..|xs| - 1]), xs[|xs| - 1])
  }

  /** Two contributions may be combined in either order. */
  ghost predicate Commutes<C(!new), S(!new), R>(agg: Aggregation<C, S, R>) {
    forall s: S, a: C, b: C :: agg.combine(agg.combine(s, a), b) == agg.combine(agg.combine(s, b), a)
  }

  lemma {:induction false} CommutativeAggregations<C(!new), K(!new)>(key: C -> K, name: string)
    ensures Commutes(CountAggregation<C>())
    ensures Commutes(SumAggregation())
    ensures Commutes(MeanAggregation())
    ensures Commutes(DistinctCountAggregation(key, name))
  {
    var agg := DistinctCountAggregation(key, name);
    forall s: set<K>, a: C, b: C
      ensures agg.combine(agg.combine(s, a), b) == agg.combine(agg.combine(s, b), a)
    {
      assert s + {key(a)} + {key(b)} == s + {key(b)} + {key(a)};
    }
  }

  lemma {:induction false} CountIsLength<C>(xs: seq<C>)
    ensures CountAggregation<C>().finalise(Fold(CountAggregation<C>(), xs)) == Fold(CountAggregation<C>(), xs) == |xs|
  {
    if xs != [] { CountIsLength(xs[..|xs| - 1]); }
  }

  lemma {:induction false} DistinctCountsKeys<C, K>(key: C -> K, name: string, xs: seq<C>)
    ensures Fold(DistinctCountAggregation(key, name), xs) == (set x | x in xs :: key(x))
  {
    if xs != [] {
      DistinctCountsKeys(key, name, xs[..|xs| - 1]);
      assert xs == xs[..|xs| - 1] + [xs[|xs| - 1]];
    }
  }

  lemma {:induction false} AggregationNames<C, K>(key: C -> K, name: string)
    ensures CountAggregation<C>().name == "count" && SumAggregation().name == "sum"
    ensures MeanAggregation().name == "mean" && DistinctCountAggregation(key, name).name == name
  {
  }

  function SumOf(xs: seq<real>): real {
    if xs == [] then 0.0 else xs[0] + SumOf(xs[1..])
  }

  lemma {:induction false} SumOfSnoc(xs: seq<real>, x: real)
    ensures SumOf(xs + [x]) == SumOf(xs) + x
  {
    if xs == [] {
      assert xs + [x] == [x];
    } else {
      SumOfSnoc(xs[1..], x);
      assert (xs + [x])[1..] == xs[1..] + [x];
    }
  }

  /** The two-part state of the mean holds the sum and the number of contributions. */
  lemma {:induction false} MeanIsSumOverCount(xs: seq<real>)
    ensures Fold(MeanAggregation(), xs) == (SumOf(xs), |xs|)
    ensures SumAggregation().finalise(Fold(SumAggregation(), xs)) == Fold(SumAggregation(), xs) == SumOf(xs)
    ensures xs != [] ==> MeanAggregation().finalise(Fold(MeanAggregation(), xs)) == SumOf(xs) / |xs| as real
    ensures MeanAggregation().finalise(Fold(MeanAggregation(), [])) == 0.0
  {
    if xs != [] {
      MeanIsSumOverCount(xs[..|xs| - 1]);
      SumOfSnoc(xs[..|xs| - 1], xs[|xs| - 1]);
      assert xs == xs[..|xs| - 1] + [xs[|xs| - 1]];
    }
  }

  /** A commutative fold absorbs an element taken from anywhere as if it came last. */
  lemma {:induction false} FoldMovesLast<C(!new), S(!new), R>(agg: Aggregation<C, S, R>, xs: seq<C>, i: nat)
    requires Commutes(agg) && i < |xs|
    ensures Fold(agg, xs) == agg.combine(Fold(agg, Without(xs, i)), xs[i])
  {
    var n := |xs| - 1;
    if i == n {
      assert Without(xs, i) == xs[..n];
    } else {
      FoldMovesLast(agg, xs[..n], i);
      var rest := Without(xs, i);
      assert rest[..|rest| - 1] == Without(xs[..n], i);
      assert rest[|rest| - 1] == xs[n];
    }
  }

  lemma {:induction false} FoldIgnoresOrder<C(!new), S(!new), R>(agg: Aggregation<C, S, R>, xs: seq<C>, ys: seq<C>)
    requires Commutes(agg) && multiset(xs) == multiset(ys)
    ensures Fold(agg, xs) == Fold(agg, ys)
    decreases |ys|
  {
    if ys == [] {
      assert |multiset(xs)| == 0;
    } else {
      var m := |ys| - 1;
      var i := MatchLast(xs, ys);
      FoldMovesLast(agg, xs, i);
      FoldIgnoresOrder(agg, Without(xs, i), ys[..m]);
    }
  }
}
