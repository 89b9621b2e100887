/** Result types and the library calls (`sorted`, `bisect.insort`) that the modelled code relies on. */
module Prelude {

  datatype Option<+T> = None | Some(value: T)

  /** `ValueError` is the exception of the same name that a guard raises before any state changes. */
  datatype Result<+T> = Ok(value: T) | ValueError

  const MICROS_PER_SECOND: int := 1_000_000

  function Max(a: int, b: int): int {
    if a < b then b else a
  }

  predicate NoDuplicates<T(==)>(xs: seq<T>) {
    forall i, j :: 0 <= i < j < |xs| ==> xs[i] != xs[j]
  }

  predicate Ascending(xs: seq<int>) {
    forall i, j :: 0 <= i < j < |xs| ==> xs[i] < xs[j]
  }

  ghost predicate Ordered<T>(xs: seq<T>, le: (T, T) -> bool) {
    forall i, j :: 0 <= i < j < |xs| ==> le(xs[i], xs[j])
  }

  ghost predicate TotalPreorder<T(!new)>(le: (T, T) -> bool) {
    && (forall x, y :: le(x, y) || le(y, x))
    && (forall x, y, z :: le(x, y) && le(y, z) ==> le(x, z))
  }

  /** Places `x` in front of the first element it may precede. */
  function Insert<T>(x: T, ys: seq<T>, le: (T, T) -> bool): seq<T> {
    if ys == [] then [x]
    else if le(x, ys[0]) then [x] + ys
    else [ys[0]] + Insert(x, ys[1..], le)
  }

  /** The stable sort: equal elements keep their order. */
  function Sorted<T>(xs: seq<T>, le: (T, T) -> bool): seq<T> {
    if xs == [] then [] else Insert(xs[0], Sorted(xs[1..], le), le)
  }

  function AtMost(): (int, int) -> bool {
    (a, b) => a <= b
  }

  lemma {:induction false} InsertKeepsElements<T>(x: T, ys: seq<T>, le: (T, T) -> bool)
    ensures |Insert(x, ys, le)| == |ys| + 1
    ensures multiset(Insert(x, ys, le)) == multiset(ys) + multiset{x}
    ensures forall y :: y in Insert(x, ys, le) <==> y == x || y in ys
  {
    if ys != [] && !le(x, ys[0]) {
      InsertKeepsElements(x, ys[1..], le);
      assert ys == [ys[0]] + ys[1..];
    }
  }

  lemma {:induction false} InsertKeepsOrder<T(!new)>(x: T, ys: seq<T>, le: (T, T) -> bool)
    requires TotalPreorder(le) && Ordered(ys, le)
    ensures Ordered(Insert(x, ys, le), le)
  {
    if ys != [] {
      if le(x, ys[0]) {
        assert forall k :: 0 < k < |ys| ==> le(ys[0], ys[k]);
      } else {
        InsertKeepsOrder(x, ys[1..], le);
        InsertKeepsElements(x, ys[1..], le);
        forall y | y in Insert(x, ys[1..], le) ensures le(ys[0], y) {
          assert le(x, ys[0]) || le(ys[0], x);
        }
      }
    }
  }

  lemma {:induction false} InsertKeepsDistinct<T>(x: T, ys: seq<T>, le: (T, T) -> bool)
    requires NoDuplicates(ys) && x !in ys
    ensures NoDuplicates(Insert(x, ys, le))
  {
    if ys != [] && !le(x, ys[0]) {
      InsertKeepsDistinct(x, ys[1..], le);
      InsertKeepsElements(x, ys[1..], le);
      assert ys[0] !in Insert(x, ys[1..], le);
    }
  }

  /** `Sorted` is an ordered permutation of its input. */
  lemma {:induction false} SortedSorts<T(!new)>(xs: seq<T>, le: (T, T) -> bool)
    requires TotalPreorder(le)
    ensures Ordered(Sorted(xs, le), le)
    ensures multiset(Sorted(xs, le)) == multiset(xs)
    ensures |Sorted(xs, le)| == |xs|
    ensures forall x :: x in Sorted(xs, le) <==> x in xs
    ensures NoDuplicates(xs) ==> NoDuplicates(Sorted(xs, le))
  {
    if xs != [] {
      SortedSorts(xs[1..], le);
      InsertKeepsElements(xs[0], Sorted(xs[1..], le), le);
      InsertKeepsOrder(xs[0], Sorted(xs[1..], le), le);
      assert xs == [xs[0]] + xs[1..];
      if NoDuplicates(xs) {
        InsertKeepsDistinct(xs[0], Sorted(xs[1..], le), le);
      }
    }
  }

  /** `bisect.insort` of a new element into an ascending list leaves it ascending. */
  lemma {:induction false} InsertAscending(x: int, ys: seq<int>)
    requires Ascending(ys) && x !in ys
    ensures Ascending(Insert(x, ys, AtMost()))
    ensures forall y :: y in Insert(x, ys, AtMost()) <==> y == x || y in ys
  {
    InsertKeepsElements(x, ys, AtMost());
    InsertKeepsOrder(x, ys, AtMost());
    InsertKeepsDistinct(x, ys, AtMost());
    var zs := Insert(x, ys, AtMost());
    forall i, j | 0 <= i < j < |zs| ensures zs[i] < zs[j] {
      assert AtMost()(zs[i], zs[j]) && zs[i] != zs[j];
    }
  }

  lemma {:induction false} AscendingSnoc(xs: seq<int>, x: int)
    requires Ascending(xs)
    requires forall y :: y in xs ==> y < x
    ensures Ascending(xs + [x])
  {
    forall i | 0 <= i < |xs| ensures xs[i] < x {
      assert xs[i] in xs;
    }
  }

  lemma {:induction false} SortedAscending(xs: seq<int>)
    requires NoDuplicates(xs)
    ensures Ascending(Sorted(xs, AtMost()))
    ensures |Sorted(xs, AtMost())| == |xs|
    ensures forall x :: x in Sorted(xs, AtMost()) <==> x in xs
  {
    SortedSorts(xs, AtMost());
    var zs := Sorted(xs, AtMost());
    forall i, j | 0 <= i < j < |zs| ensures zs[i] < zs[j] {
      assert AtMost()(zs[i], zs[j]) && zs[i] != zs[j];
    }
  }

  // Strings as the library orders them.

  /** Strings compare character by character. */
  predicate StringLess(a: string, b: string) {
    b != [] && (a == [] || a[0] < b[0] || (a[0] == b[0] && StringLess(a[1..], b[1..])))
  }

  /** Which is the lesser shows at the first difference, or at the end of the shorter one. */
  lemma {:induction false} LessAtFirstDifference(a: string, b: string, i: nat)
    requires i <= |a| && i <= |b| && a[..i] == b[..i]
    ensures i < |a| && i < |b| && a[i] != b[i] ==> (StringLess(a, b) <==> a[i] < b[i])
    ensures i == |a| ==> (StringLess(a, b) <==> i < |b|)
    ensures i == |b| ==> !StringLess(a, b)
    decreases i
  {
    if i > 0 {
      assert a[0] == a[..i][0] == b[..i][0] == b[0];
      assert a[1..][..i - 1] == a[..i][1..] == b[..i][1..] == b[1..][..i - 1];
      LessAtFirstDifference(a[1..], b[1..], i - 1);
    }
  }

  function StringAtMost(): (string, string) -> bool {
    (a, b) => a == b || StringLess(a, b)
  }

  lemma {:induction false} StringTrichotomy(a: string, b: string)
    ensures StringLess(a, b) || a == b || StringLess(b, a)
    ensures !(StringLess(a, b) && StringLess(b, a)) && !StringLess(a, a)
  {
    if a != [] {
      StringTrichotomy(a[1..], a[1..]);
    }
    if a != [] && b != [] {
      StringTrichotomy(a[1..], b[1..]);
      if a[0] == b[0] {
        assert a == [a[0]] + a[1..] && b == [b[0]] + b[1..];
      }
    }
  }

  lemma {:induction false} StringLessTransitive(a: string, b: string, c: string)
    requires StringLess(a, b) && StringLess(b, c)
    ensures StringLess(a, c)
  {
    if a != [] && a[0] == b[0] == c[0] {
      StringLessTransitive(a[1..], b[1..], c[1..]);
    }
  }

  /** A total preorder in which only equal elements are tied. */
  ghost predicate TotalOrder<T(!new)>(le: (T, T) -> bool) {
    TotalPreorder(le) && forall x, y :: le(x, y) && le(y, x) ==> x == y
  }

  lemma {:induction false} StringsAreOrdered()
    ensures TotalOrder(StringAtMost())
  {
    var le := StringAtMost();
    forall x, y ensures le(x, y) || le(y, x) {
      StringTrichotomy(x, y);
    }
    forall x, y | le(x, y) && le(y, x) ensures x == y {
      StringTrichotomy(x, y);
    }
    forall x, y, z | le(x, y) && le(y, z) ensures le(x, z) {
      if x != y && y != z {
        StringLessTransitive(x, y, z);
      }
    }
  }

  function Without<T>(xs: seq<T>, i: nat): seq<T>
    requires i < |xs|
  {
    xs[..i] + xs[i + 1..]
  }

  lemma {:induction false} WithoutLosesOne<T>(xs: seq<T>, i: nat)
    requires i < |xs|
    ensures multiset(Without(xs, i)) == multiset(xs) - multiset{xs[i]}
    ensures xs == xs[..i] + [xs[i]] + xs[i + 1..]
  {
    assert xs == xs[..i] + [xs[i]] + xs[i + 1..];
  }

  /** Equal multisets: the last element of one occurs in the other, and taking both away keeps them equal. */
  lemma {:induction false} MatchLast<T>(a: seq<T>, b: seq<T>) returns (i: nat)
    requires multiset(a) == multiset(b) && b != []
    ensures i < |a| && a[i] == b[|b| - 1]
    ensures multiset(Without(a, i)) == multiset(b[..|b| - 1])
  {
    assert b[|b| - 1] in multiset(a);
    i :| 0 <= i < |a| && a[i] == b[|b| - 1];
    WithoutLosesOne(a, i);
    assert b == b[..|b| - 1] + [b[|b| - 1]];
    assert multiset(b[..|b| - 1]) == multiset(b) - multiset{b[|b| - 1]};
  }

  /** Taking the elements of `b` one by one onto `a`. */
  lemma {:induction false} TakeOne<T>(a: seq<T>, b: seq<T>, j: nat)
    requires j < |b|
    ensures a + b[..j] + [b[j]] == a + b[..j + 1]
  {
  }

  lemma {:induction false} TakeEnds<T>(a: seq<T>, b: seq<T>)
    ensures a + b[..0] == a && a + b[..|b|] == a + b
  {
  }

  lemma {:induction false} ConcatAssociates<T>(a: seq<T>, b: seq<T>, c: seq<T>)
    ensures a + b + c == a + (b + c)
  {
  }

  lemma {:induction false} WholePrefix<T>(xs: seq<T>)
    ensures xs[..|xs|] == xs
  {
  }

  lemma {:induction false} UpdateTwice<K, V>(m: map<K, V>, k: K, a: V, b: V)
    ensures m[k := a][k := b] == m[k := b]
  {
  }

  lemma {:induction false} Rejoin<T>(xs: seq<T>)
    requires xs != []
    ensures xs[..|xs| - 1] + [xs[|xs| - 1]] == xs
  {
  }

  lemma {:induction false} TakeNext<T>(xs: seq<T>, i: nat)
    requires i < |xs|
    ensures xs[..i + 1] == xs[..i] + [xs[i]]
    ensures xs[..i + 1] != [] && xs[..i + 1][..|xs[..i + 1]| - 1] == xs[..i] && xs[..i + 1][|xs[..i + 1]| - 1] == xs[i]
    ensures forall x :: x in xs[..i + 1] <==> x in xs[..i] || x == xs[i]
  {
    assert xs[..i + 1] == xs[..i] + [xs[i]];
  }

  lemma {:induction false} NotBefore<T>(xs: seq<T>, i: nat)
    requires NoDuplicates(xs) && i < |xs|
    ensures xs[i] !in xs[..i]
  {
  }
}
