/** Window geometry: epoch-aligned windows `[start, start + size)` whose starts are multiples of the slide.
    Instants are integer microseconds from the Unix epoch and may be negative. */
module WindowSpecs {
  import opened Prelude

  datatype WindowSpec = WindowSpec(sizeSeconds: int, slideSeconds: int) {
    /** What the constructor of the record checks. */
    predicate Valid() {
      && 0 < sizeSeconds
      && 0 < slideSeconds <= sizeSeconds
      && sizeSeconds % slideSeconds == 0
    }

    function Size(): int {
      sizeSeconds * MICROS_PER_SECOND
    }

    function Slide(): int {
      slideSeconds * MICROS_PER_SECOND
    }

    predicate IsStart(s: int)
      requires Valid()
    {
      s % Slide() == 0
    }

    predicate Contains(s: int, t: int) {
      s <= t < s + Size()
    }

    /** Event at `t` belongs to the window that starts at `s`. */
    predicate Covers(s: int, t: int)
      requires Valid()
    {
      IsStart(s) && Contains(s, t)
    }
  }

  lemma {:induction false} FloorMultiple(t: int, d: int)
    requires 0 < d
    ensures (t / d) * d <= t < (t / d) * d + d
    ensures ((t / d) * d) % d == 0
  {
    MultipleMod(t / d, d);
  }

  lemma {:induction false} MultipleMod(q: int, d: int)
    requires 0 < d
    ensures (q * d) % d == 0
  {
    var x := q * d;
    assert x == (x / d) * d + x % d;
    var r := x % d;
    assert r == (q - x / d) * d;
    if r != 0 {
      SmallMultiple(q - x / d, d);
      assert false;
    }
  }

  lemma {:induction false} SmallMultiple(k: int, d: int)
    requires 0 < d
    ensures k * d == 0 || d <= k * d || k * d <= -d
  {
    if k >= 1 {
      assert k * d == d + (k - 1) * d;
      assert (k - 1) * d >= 0;
    } else if k <= -1 {
      assert k * d == -d + (k + 1) * d;
      assert (k + 1) * d <= 0;
    }
  }

  lemma {:induction false} Distribute(x: int, y: int, d: int)
    ensures (x + y) * d == x * d + y * d
  {
  }

  lemma {:induction false} ProductNonNegative(k: nat, d: nat)
    ensures 0 <= k * d
  {
    if k != 0 {
      ProductNonNegative(k - 1, d);
      Distribute(k - 1, 1, d);
    }
  }

  lemma {:induction false} MultiplyMonotone(a: int, b: int, d: int)
    requires 0 < d
    ensures a <= b ==> a * d <= b * d
    ensures a < b ==> a * d + d <= b * d
  {
    if a < b {
      ProductNonNegative(b - a - 1, d);
      Distribute(a, b - a, d);
      Distribute(1, b - a - 1, d);
    }
  }

  /** Multiples of `d` between `lo` and `lo + width` number at most `width / d + 1`. */
  lemma {:induction false} AlignedCount(xs: seq<int>, lo: int, width: nat, d: int)
    requires 0 < d && Ascending(xs)
    requires forall x :: x in xs ==> x % d == 0 && lo <= x <= lo + width
    ensures |xs| <= width / d + 1
  {
    if xs != [] {
      SpreadOfAligned(xs, d);
      var n := |xs| - 1;
      assert xs[n] in xs && xs[0] in xs;
      QuotientBound(n, width, d);
    }
  }

  lemma {:induction false} QuotientBound(n: int, width: int, d: int)
    requires 0 < d && n * d <= width
    ensures n <= width / d
  {
    FloorMultiple(width, d);
    if n > width / d {
      MultiplyMonotone(width / d, n, d);
      assert false;
    }
  }

  lemma {:induction false} AlignedGap(a: int, b: int, d: int)
    requires 0 < d && a < b && a % d == 0 && b % d == 0
    ensures a + d <= b
  {
    assert a == a / d * d && b == b / d * d;
    if b / d <= a / d {
      MultiplyMonotone(b / d, a / d, d);
      assert false;
    }
    MultiplyMonotone(a / d, b / d, d);
  }

  lemma {:induction false} SpreadOfAligned(xs: seq<int>, d: int)
    requires 0 < d && xs != [] && Ascending(xs)
    requires forall x :: x in xs ==> x % d == 0
    ensures xs[0] + (|xs| - 1) * d <= xs[|xs| - 1]
  {
    if |xs| > 1 {
      var ys := xs[..|xs| - 1];
      assert forall x :: x in ys ==> x in xs;
      SpreadOfAligned(ys, d);
      var a, b := xs[|xs| - 2], xs[|xs| - 1];
      assert a in xs && b in xs && a < b;
      AlignedGap(a, b, d);
      assert ys[0] == xs[0] && ys[|ys| - 1] == a;
      Distribute(|ys| - 1, 1, d);
    } else {
      assert (|xs| - 1) * d == 0;
    }
  }

  /** Stepping back from the newest aligned start at or before `t` reaches exactly the starts that cover `t`. */
  lemma {:induction false} StepsBackCover(spec: WindowSpec, t: int, s: int)
    requires spec.Valid()
    ensures spec.Covers(s, t) <==>
      exists k :: 0 <= k < spec.sizeSeconds / spec.slideSeconds && s == StepBack(spec, t, k)
  {
    var d := spec.Slide();
    var n := spec.sizeSeconds / spec.slideSeconds;
    SizeIsSlides(spec);
    var p := t / d;
    FloorMultiple(t, d);
    if spec.Covers(s, t) {
      var q := s / d;
      assert s == q * d;
      if q > p {
        MultiplyMonotone(p, q, d);
        assert false;
      }
      assert (q + n) * d == q * d + n * d;
      if p >= q + n {
        MultiplyMonotone(q + n, p, d);
        assert false;
      }
      assert (p - (p - q)) * d == p * d - (p - q) * d;
      assert s == StepBack(spec, t, p - q);
    }
    if exists k :: 0 <= k < n && s == StepBack(spec, t, k) {
      var k :| 0 <= k < n && s == StepBack(spec, t, k);
      StepBackCovers(spec, t, k);
    }
  }

  lemma {:induction false} SizeIsSlides(spec: WindowSpec)
    requires spec.Valid()
    ensures spec.Size() == (spec.sizeSeconds / spec.slideSeconds) * spec.Slide()
    ensures 0 < spec.Slide()
  {
    var n := spec.sizeSeconds / spec.slideSeconds;
    assert spec.sizeSeconds == n * spec.slideSeconds;
    assert n * (spec.slideSeconds * MICROS_PER_SECOND) == (n * spec.slideSeconds) * MICROS_PER_SECOND;
  }

  lemma {:induction false} StepBackCovers(spec: WindowSpec, t: int, k: int)
    requires spec.Valid() && 0 <= k < spec.sizeSeconds / spec.slideSeconds
    ensures spec.Covers(StepBack(spec, t, k), t)
  {
    var d := spec.Slide();
    var n := spec.sizeSeconds / spec.slideSeconds;
    SizeIsSlides(spec);
    FloorMultiple(t, d);
    var s := StepBack(spec, t, k);
    assert s == (t / d - k) * d by { assert (t / d - k) * d == t / d * d - k * d; }
    MultipleMod(t / d - k, d);
    MultiplyMonotone(k, n, d);
    assert 0 <= k * d by { MultiplyMonotone(0, k, d); }
  }

  function StepBack(spec: WindowSpec, t: int, k: int): int
    requires spec.Valid()
  {
    (t / spec.Slide()) * spec.Slide() - k * spec.Slide()
  }

  /** The starts of all windows that contain `t`: exactly the aligned ones, ascending, `size / slide` of them. */
  method WindowsContaining(spec: WindowSpec, t: int) returns (starts: seq<int>)
    requires spec.Valid()
    ensures Ascending(starts)
    ensures forall s :: s in starts <==> spec.Covers(s, t)
    ensures |starts| == spec.sizeSeconds / spec.slideSeconds
  {
    var slide := spec.Slide();
    var newest := (t / slide) * slide;
    var found := [];
    var count := spec.sizeSeconds / spec.slideSeconds;
    for k := 0 to count
      invariant |found| == k
      invariant forall i :: 0 <= i < k ==> found[i] == StepBack(spec, t, i)
    {
      var start := newest - k * slide;
      StepBackCovers(spec, t, k);
      if start <= t < start + spec.Size() {
        found := found + [start];
      }
    }
    forall i, j | 0 <= i < j < |found| ensures found[j] < found[i] {
      MultiplyMonotone(i, j, slide);
    }
    SortedAscending(found);
    starts := Sorted(found, AtMost());
    forall s ensures s in starts <==> spec.Covers(s, t) {
      StepsBackCover(spec, t, s);
      if s in found {
        var i :| 0 <= i < |found| && found[i] == s;
        assert s == StepBack(spec, t, i);
      }
      if exists k :: 0 <= k < count && s == StepBack(spec, t, k) {
        var k :| 0 <= k < count && s == StepBack(spec, t, k);
        assert found[k] == s;
      }
    }
  }
}
