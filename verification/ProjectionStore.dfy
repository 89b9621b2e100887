/** The in-memory projection store: a two-level mapping from view and key to value. */
module ProjectionStores {
  import opened Prelude

  class InMemoryProjectionStore<!K(==, !new), V> {
    /** The order in which `keys` are listed. */
    const le: (K, K) -> bool
    var data: map<string, map<K, V>>

    constructor (le: (K, K) -> bool)
      ensures this.le == le && forall view :: View(view) == map[]
    {
      this.le := le;
      data := map[];
    }

    /** The content of one view; a view never written to is empty. */
    function View(view: string): map<K, V>
      reads this
    {
      if view in data then data[view] else map[]
    }

    method Get(view: string, key: K) returns (value: Option<V>)
      ensures value == if key in View(view) then Some(View(view)[key]) else None
    {
      value := None;
      if view in data && key in data[view] {
        value := Some(data[view][key]);
      }
    }

    method Put(view: string, key: K, value: V)
      modifies this
      ensures View(view) == old(View(view))[key := value]
      ensures forall w :: w != view ==> View(w) == old(View(w))
    {
      if view !in data {
        data := data[view := map[]];
      }
      data := data[view := data[view][key := value]];
    }

    /** Absent keys are ignored. */
    method Delete(view: string, key: K)
      modifies this
      ensures View(view) == old(View(view)) - {key}
      ensures forall w :: w != view ==> View(w) == old(View(w))
    {
      if view in data {
        data := data[view := data[view] - {key}];
      }
    }

    /** The keys of the view, each once, in ascending order. */
    method Keys(view: string) returns (keys: seq<K>)
      requires TotalOrder(le)
      ensures Ordered(keys, le) && NoDuplicates(keys)
      ensures forall k :: k in keys <==> k in View(view)
      ensures |keys| == |View(view)|
    {
      var listed: seq<K> := [];
      var rest := View(view).Keys;
      while rest != {}
        invariant NoDuplicates(listed)
        invariant rest <= View(view).Keys
        invariant forall k :: k in listed <==> k in View(view) && k !in rest
        invariant |listed| + |rest| == |View(view)|
        decreases rest
      {
        var k :| k in rest;
        listed := listed + [k];
        rest := rest - {k};
      }
      keys := Sorted(listed, le);
      SortedSorts(listed, le);
    }
  }

  /** An ascending listing without repetition is the only one, so the order of a view is reproducible. */
  lemma {:induction false} ListingIsUnique<K(!new)>(a: seq<K>, b: seq<K>, le: (K, K) -> bool)
    requires TotalOrder(le) && Ordered(a, le) && Ordered(b, le) && NoDuplicates(a) && NoDuplicates(b)
    requires forall k :: k in a <==> k in b
    ensures a == b
  {
    if a == [] || b == [] {
      SameEmptiness(a, b);
    } else {
      assert a[0] in b && b[0] in a;
      var i :| 0 <= i < |b| && b[i] == a[0];
      var j :| 0 <= j < |a| && a[j] == b[0];
      assert a[0] == b[0];
      forall k ensures k in a[1..] <==> k in b[1..] {
        TailOfDistinct(a, k);
        TailOfDistinct(b, k);
      }
      ListingIsUnique(a[1..], b[1..], le);
      assert a == [a[0]] + a[1..] && b == [b[0]] + b[1..];
    }
  }

  lemma {:induction false} SameEmptiness<K(!new)>(a: seq<K>, b: seq<K>)
    requires forall k :: k in a <==> k in b
    ensures a == [] <==> b == []
  {
    assert a != [] ==> a[0] in b;
    assert b != [] ==> b[0] in a;
  }

  lemma {:induction false} TailOfDistinct<K>(a: seq<K>, k: K)
    requires a != [] && NoDuplicates(a)
    ensures k in a[1..] <==> k in a && k != a[0]
  {
    if k in a && k != a[0] {
      var i :| 0 <= i < |a| && a[i] == k;
      assert a[1..][i - 1] == k;
    }
    if k in a[1..] {
      var i :| 0 <= i < |a[1..]| && a[1..][i] == k;
      assert a[i + 1] == k;
    }
  }
}
