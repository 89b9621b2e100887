/** When does a stream cut into segments arrive whole, whatever the arrival order? */
module SegmentDelivery {
  import opened Prelude
  import opened Framing
  import opened TcpReassembly

  /** `cuts[i]` and `cuts[i + 1]` delimit segment `i`; equal neighbours make an empty segment. */
  predicate IsCutting(stream: seq<byte>, cuts: seq<nat>) {
    && 2 <= |cuts|
    && (forall i, j :: 0 <= i <= j < |cuts| ==> cuts[i] <= cuts[j])
    && cuts[|cuts| - 1] <= |stream|
  }

  function Start(cuts: seq<nat>, i: nat): nat
    requires i < |cuts| - 1
  {
    cuts[i]
  }

  function End(cuts: seq<nat>, i: nat): nat
    requires i < |cuts| - 1
  {
    cuts[i + 1]
  }

  function Last(cuts: seq<nat>): nat
    requires cuts != []
  {
    cuts[|cuts| - 1]
  }

  function Segment(stream: seq<byte>, cuts: seq<nat>, i: nat): seq<byte>
    requires IsCutting(stream, cuts) && i < |cuts| - 1
  {
    stream[Start(cuts, i)..End(cuts, i)]
  }

  predicate IsSegment(stream: seq<byte>, cuts: seq<nat>, i: nat, p: TcpPacket)
    requires IsCutting(stream, cuts) && i < |cuts| - 1
  {
    p.seqNo == Start(cuts, i) && p.payload == Segment(stream, cuts, i)
  }

  predicate AreSegments(stream: seq<byte>, cuts: seq<nat>, order: seq<nat>, ps: seq<TcpPacket>)
    requires IsCutting(stream, cuts)
  {
    && |order| == |ps|
    && forall j :: 0 <= j < |order| ==> order[j] < |cuts| - 1 && IsSegment(stream, cuts, order[j], ps[j])
  }

  /** A stream may be sent in one piece. */
  lemma {:induction false} OnePiece(stream: seq<byte>)
    ensures IsCutting(stream, [0, |stream|]) && NoInteriorEmpty([0, |stream|])
    ensures Segment(stream, [0, |stream|], 0) == stream
  {
  }

  /** Every segment comes at least once, in any order. */
  predicate Complete(stream: seq<byte>, cuts: seq<nat>, order: seq<nat>, ps: seq<TcpPacket>)
    requires IsCutting(stream, cuts)
  {
    && AreSegments(stream, cuts, order, ps)
    && forall i: nat :: i < |cuts| - 1 ==> i in order
  }

  /** The first segment comes first and every segment comes at least once; the rest is free. */
  predicate Arrives(stream: seq<byte>, cuts: seq<nat>, order: seq<nat>, ps: seq<TcpPacket>)
    requires IsCutting(stream, cuts)
  {
    Complete(stream, cuts, order, ps) && order != [] && order[0] == 0
  }

  ghost predicate DeliversAlways(stream: seq<byte>, cuts: seq<nat>)
    requires IsCutting(stream, cuts)
  {
    forall order: seq<nat>, ps: seq<TcpPacket> :: Arrives(stream, cuts, order, ps) ==>
      BytesOf(RunFrom(NEW_SESSION, ps).chunks) == stream[cuts[0]..Last(cuts)]
  }

  /** No empty segment lies strictly between the end of the first segment and the end of the stream. */
  predicate NoInteriorEmpty(cuts: seq<nat>)
    requires 2 <= |cuts|
  {
    forall i: nat :: i < |cuts| - 1 && cuts[1] < Start(cuts, i) < Last(cuts) ==> Start(cuts, i) < End(cuts, i)
  }

  // Without interior empty segments every order delivers everything.

  predicate Delivered(stream: seq<byte>, cuts: seq<nat>, st: SessionState, i: nat)
    requires IsCutting(stream, cuts) && i < |cuts| - 1
  {
    || End(cuts, i) <= st.expected
    || (Start(cuts, i) in st.buffered && st.buffered[Start(cuts, i)].data == Segment(stream, cuts, i))
  }

  ghost predicate OnCut(cuts: seq<nat>, x: nat) {
    exists k :: 1 <= k < |cuts| && x == cuts[k]
  }

  ghost predicate IsSegmentAt(stream: seq<byte>, cuts: seq<nat>, q: nat, data: seq<byte>, seen: set<nat>)
    requires IsCutting(stream, cuts)
  {
    exists i :: i in seen && i < |cuts| - 1 && Start(cuts, i) == q && data == Segment(stream, cuts, i)
  }

  /** What is buffered are segments that arrived, none of which has been overtaken. */
  ghost predicate BuffersSegments(stream: seq<byte>, cuts: seq<nat>, st: SessionState, seen: set<nat>)
    requires IsCutting(stream, cuts)
  {
    forall q :: q in st.buffered ==>
      cuts[1] < q && st.expected <= q && IsSegmentAt(stream, cuts, q, st.buffered[q].data, seen)
  }

  predicate AllDelivered(stream: seq<byte>, cuts: seq<nat>, st: SessionState, seen: set<nat>)
    requires IsCutting(stream, cuts)
  {
    forall i :: i in seen ==> i < |cuts| - 1 && Delivered(stream, cuts, st, i)
  }

  /** Every segment with data up to the expected number has arrived. */
  predicate NoneSkipped(cuts: seq<nat>, expected: nat, seen: set<nat>) {
    forall j: nat :: j < |cuts| - 1 && Start(cuts, j) < End(cuts, j) <= expected ==> j in seen
  }

  lemma {:induction false} NoneSkippedNext(cuts: seq<nat>, i: nat, seen: set<nat>)
    requires forall a, b :: 0 <= a <= b < |cuts| ==> cuts[a] <= cuts[b]
    requires i in seen && i < |cuts| - 1 && NoneSkipped(cuts, Start(cuts, i), seen)
    ensures NoneSkipped(cuts, End(cuts, i), seen)
  {
    assert forall j: nat :: j < i ==> End(cuts, j) <= Start(cuts, i);
    assert forall j: nat :: i < j < |cuts| - 1 ==> End(cuts, i) <= Start(cuts, j);
  }

  ghost predicate Progress(stream: seq<byte>, cuts: seq<nat>, st: SessionState, seen: set<nat>)
    requires IsCutting(stream, cuts)
  {
    && OnCut(cuts, st.expected)
    && BuffersSegments(stream, cuts, st, seen)
    && AllDelivered(stream, cuts, st, seen)
    && NoneSkipped(cuts, st.expected, seen)
  }

  lemma {:induction false} FlushProgress(stream: seq<byte>, cuts: seq<nat>, st: SessionState, seen: set<nat>)
    requires IsCutting(stream, cuts) && Progress(stream, cuts, st, seen)
    ensures Progress(stream, cuts, Flush(st).state, seen)
    ensures Flush(st).state.expected !in Flush(st).state.buffered
    decreases |st.buffered|
  {
    if st.expected in st.buffered {
      PoppedShrinks(st);
      PopProgress(stream, cuts, st, seen);
      FlushProgress(stream, cuts, Popped(st), seen);
    }
  }

  lemma {:induction false} PopProgress(stream: seq<byte>, cuts: seq<nat>, st: SessionState, seen: set<nat>)
    requires IsCutting(stream, cuts) && Progress(stream, cuts, st, seen) && st.expected in st.buffered
    ensures Progress(stream, cuts, Popped(st), seen)
  {
    var chunk := st.buffered[st.expected];
    var next := Popped(st);
    assert IsSegmentAt(stream, cuts, st.expected, chunk.data, seen);
    var i :| i in seen && i < |cuts| - 1 && Start(cuts, i) == st.expected && chunk.data == Segment(stream, cuts, i);
    assert next.expected == cuts[i + 1];
    BufferedBeyond(stream, cuts, st, seen, i);
    NoneSkippedNext(cuts, i, seen);
    forall j | j in seen ensures Delivered(stream, cuts, next, j) {
      assert Delivered(stream, cuts, st, j);
    }
  }

  /** Beyond a segment that starts at the expected number, what is buffered starts at or after its end. */
  lemma {:induction false} BufferedBeyond(stream: seq<byte>, cuts: seq<nat>, st: SessionState, seen: set<nat>, i: nat)
    requires IsCutting(stream, cuts) && BuffersSegments(stream, cuts, st, seen)
    requires i < |cuts| - 1 && Start(cuts, i) == st.expected
    ensures forall q :: q in st.buffered && q != st.expected ==> End(cuts, i) <= q
  {
    forall q | q in st.buffered && q != st.expected ensures End(cuts, i) <= q {
      assert IsSegmentAt(stream, cuts, q, st.buffered[q].data, seen);
      var m :| m in seen && m < |cuts| - 1 && Start(cuts, m) == q;
      assert i < m;
    }
  }

  lemma {:induction false} SeesMore(stream: seq<byte>, cuts: seq<nat>, st: SessionState, seen: set<nat>, i: nat)
    requires IsCutting(stream, cuts) && BuffersSegments(stream, cuts, st, seen)
    ensures BuffersSegments(stream, cuts, st, seen + {i})
  {
    forall q | q in st.buffered ensures IsSegmentAt(stream, cuts, q, st.buffered[q].data, seen + {i}) {
      assert IsSegmentAt(stream, cuts, q, st.buffered[q].data, seen);
      var m :| m in seen && m < |cuts| - 1 && Start(cuts, m) == q
               && st.buffered[q].data == Segment(stream, cuts, m);
      assert m in seen + {i};
    }
  }

  lemma {:induction false} HandleProgress(stream: seq<byte>, cuts: seq<nat>, st: SessionState, seen: set<nat>, i: nat,
                                          p: TcpPacket)
    requires IsCutting(stream, cuts) && NoInteriorEmpty(cuts) && 0 < st.expected
    requires Progress(stream, cuts, st, seen) && st.expected !in st.buffered
    requires i < |cuts| - 1 && IsSegment(stream, cuts, i, p)
    ensures Progress(stream, cuts, Handle(st, p).state, seen + {i})
    ensures Handle(st, p).state.expected !in Handle(st, p).state.buffered
  {
    SeesMore(stream, cuts, st, seen, i);
    if p.seqNo < st.expected {
      RetransmitProgress(stream, cuts, st, i);
    } else if p.seqNo > st.expected {
      BufferProgress(stream, cuts, st, seen, i, p);
    } else if p.payload != [] {
      EmitProgress(stream, cuts, st, seen, i);
      FlushProgress(stream, cuts, SessionState(End(cuts, i), st.buffered), seen + {i});
    }
  }

  lemma {:induction false} RetransmitProgress(stream: seq<byte>, cuts: seq<nat>, st: SessionState, i: nat)
    requires IsCutting(stream, cuts) && OnCut(cuts, st.expected)
    requires i < |cuts| - 1 && Start(cuts, i) < st.expected
    ensures Delivered(stream, cuts, st, i)
  {
    var k :| 1 <= k < |cuts| && st.expected == cuts[k];
    assert i < k;
  }

  lemma {:induction false} BufferProgress(stream: seq<byte>, cuts: seq<nat>, st: SessionState, seen: set<nat>, i: nat,
                                          p: TcpPacket)
    requires IsCutting(stream, cuts) && NoInteriorEmpty(cuts) && Progress(stream, cuts, st, seen)
    requires i < |cuts| - 1 && IsSegment(stream, cuts, i, p) && st.expected < p.seqNo
    ensures Progress(stream, cuts, SessionState(st.expected, st.buffered[p.seqNo := p.Chunk()]), seen + {i})
  {
    BuffersMore(stream, cuts, st, seen, i, p);
    DeliversMore(stream, cuts, st, seen, i, p);
  }

  lemma {:induction false} DeliversMore(stream: seq<byte>, cuts: seq<nat>, st: SessionState, seen: set<nat>, i: nat,
                                        p: TcpPacket)
    requires IsCutting(stream, cuts) && NoInteriorEmpty(cuts) && AllDelivered(stream, cuts, st, seen)
    requires i < |cuts| - 1 && IsSegment(stream, cuts, i, p) && cuts[1] < p.seqNo
    ensures AllDelivered(stream, cuts, SessionState(st.expected, st.buffered[p.seqNo := p.Chunk()]), seen + {i})
  {
    var st' := SessionState(st.expected, st.buffered[p.seqNo := p.Chunk()]);
    forall j | j in seen ensures j < |cuts| - 1 && Delivered(stream, cuts, st', j) {
      assert Delivered(stream, cuts, st, j);
      if Start(cuts, j) == Start(cuts, i) && j != i {
        SharedStart(stream, cuts, i, j);
      }
    }
  }

  lemma {:induction false} BuffersMore(stream: seq<byte>, cuts: seq<nat>, st: SessionState, seen: set<nat>, i: nat,
                                       p: TcpPacket)
    requires IsCutting(stream, cuts) && OnCut(cuts, st.expected) && BuffersSegments(stream, cuts, st, seen)
    requires i < |cuts| - 1 && IsSegment(stream, cuts, i, p) && st.expected < p.seqNo
    ensures cuts[1] < p.seqNo
    ensures BuffersSegments(stream, cuts, SessionState(st.expected, st.buffered[p.seqNo := p.Chunk()]), seen + {i})
  {
    var k :| 1 <= k < |cuts| && st.expected == cuts[k];
    assert cuts[1] <= cuts[k];
    SeesMore(stream, cuts, st, seen, i);
    assert i in seen + {i} && IsSegmentAt(stream, cuts, p.seqNo, p.payload, seen + {i});
  }

  lemma {:induction false} EmitProgress(stream: seq<byte>, cuts: seq<nat>, st: SessionState, seen: set<nat>, i: nat)
    requires IsCutting(stream, cuts) && Progress(stream, cuts, st, seen)
    requires i < |cuts| - 1 && Start(cuts, i) == st.expected && st.expected !in st.buffered
    ensures Progress(stream, cuts, SessionState(End(cuts, i), st.buffered), seen + {i})
  {
    SeesMore(stream, cuts, st, seen, i);
    BufferedBeyond(stream, cuts, st, seen, i);
    NoneSkippedNext(cuts, i, seen + {i});
    var next := SessionState(End(cuts, i), st.buffered);
    assert next.expected == cuts[i + 1];
    assert cuts[i] <= cuts[i + 1];
    forall j | j in seen ensures Delivered(stream, cuts, next, j) {
      assert Delivered(stream, cuts, st, j);
    }
  }

  /** Two segments past the first that share a start are both empty unless an interior segment is. */
  lemma {:induction false} SharedStart(stream: seq<byte>, cuts: seq<nat>, i: nat, j: nat)
    requires IsCutting(stream, cuts) && NoInteriorEmpty(cuts)
    requires i < |cuts| - 1 && j < |cuts| - 1 && i != j && Start(cuts, i) == Start(cuts, j) && cuts[1] < Start(cuts, i)
    ensures Segment(stream, cuts, i) == Segment(stream, cuts, j)
  {
    var lo, hi := if i < j then i else j, if i < j then j else i;
    assert Start(cuts, lo) <= End(cuts, lo) <= Start(cuts, hi) <= End(cuts, hi) <= Last(cuts);
    if Start(cuts, lo) < Last(cuts) {
      assert false;
    }
  }

  function Seen(order: seq<nat>): set<nat> {
    if order == [] then {} else Seen(order[..|order| - 1]) + {order[|order| - 1]}
  }

  lemma {:induction false} SeenAll(order: seq<nat>)
    ensures forall i :: i in order <==> i in Seen(order)
  {
    if order != [] {
      SeenAll(order[..|order| - 1]);
      assert order == order[..|order| - 1] + [order[|order| - 1]];
    }
  }

  ghost predicate Underway(stream: seq<byte>, cuts: seq<nat>, st: SessionState, seen: set<nat>)
    requires IsCutting(stream, cuts)
  {
    Progress(stream, cuts, st, seen) && st.expected !in st.buffered
  }

  /** As soon as the session knows that the stream starts at the first cut. */
  lemma {:induction false} RunProgress(stream: seq<byte>, cuts: seq<nat>, order: seq<nat>, ps: seq<TcpPacket>)
    requires IsCutting(stream, cuts) && NoInteriorEmpty(cuts)
    requires AreSegments(stream, cuts, order, ps) && Origin(ps) == Some(cuts[0])
    ensures Underway(stream, cuts, RunFrom(NEW_SESSION, ps).state, Seen(order))
  {
    var n := |ps| - 1;
    var past, before := ps[..n], RunFrom(NEW_SESSION, ps[..n]).state;
    RunSettles(past);
    if Origin(past).Some? {
      RunProgress(stream, cuts, order[..n], past);
      HandleProgress(stream, cuts, before, Seen(order[..n]), order[n], ps[n]);
    } else {
      UnpinnedAreEmpty(stream, cuts, order[..n], past);
      FirstProgress(stream, cuts, Seen(order[..n]), order[n], ps[n]);
    }
  }

  /** While no packet has fixed the start, only empty segments at zero have arrived. */
  lemma {:induction false} UnpinnedAreEmpty(stream: seq<byte>, cuts: seq<nat>, order: seq<nat>, ps: seq<TcpPacket>)
    requires IsCutting(stream, cuts) && AreSegments(stream, cuts, order, ps) && Origin(ps).None?
    ensures forall i :: i in Seen(order) ==> i < |cuts| - 1 && Start(cuts, i) == End(cuts, i) == 0
  {
    var n := |ps| - 1;
    if ps != [] {
      UnpinnedAreEmpty(stream, cuts, order[..n], ps[..n]);
      assert IsSegment(stream, cuts, order[n], ps[n]);
      assert cuts[order[n]] <= cuts[order[n] + 1];
    }
  }

  lemma {:induction false} FirstProgress(stream: seq<byte>, cuts: seq<nat>, seen: set<nat>, i: nat, p: TcpPacket)
    requires IsCutting(stream, cuts) && i < |cuts| - 1 && IsSegment(stream, cuts, i, p)
    requires Pins(p) && Start(cuts, i) == cuts[0]
    requires forall j :: j in seen ==> j < |cuts| - 1 && Start(cuts, j) == End(cuts, j) == 0
    ensures Handle(NEW_SESSION, p).state == SessionState(End(cuts, i), map[])
    ensures Underway(stream, cuts, SessionState(End(cuts, i), map[]), seen + {i})
  {
    var st := SessionState(End(cuts, i), map[]);
    assert cuts[i] <= cuts[i + 1];
    assert Flush(st) == Delivery([], st);
    assert OnCut(cuts, cuts[i + 1]);
    assert NoneSkipped(cuts, cuts[0], seen + {i});
    NoneSkippedNext(cuts, i, seen + {i});
  }

  lemma {:induction false} SegmentsAreSlices(stream: seq<byte>, cuts: seq<nat>, order: seq<nat>, ps: seq<TcpPacket>)
    requires IsCutting(stream, cuts) && AreSegments(stream, cuts, order, ps)
    ensures forall j :: 0 <= j < |ps| ==> IsSlice(stream, ps[j])
  {
    forall j | 0 <= j < |ps| ensures IsSlice(stream, ps[j]) {
      assert IsSegment(stream, cuts, order[j], ps[j]);
    }
  }

  /** The last segment that starts at a cut before the end of the stream is not empty. */
  lemma {:induction false} NonEmptyAt(cuts: seq<nat>, k: nat) returns (i: nat)
    requires 2 <= |cuts| && k < |cuts| && cuts[k] < Last(cuts)
    requires forall i, j :: 0 <= i <= j < |cuts| ==> cuts[i] <= cuts[j]
    ensures k <= i < |cuts| - 1 && Start(cuts, i) == cuts[k] < End(cuts, i)
    decreases |cuts| - k
  {
    if cuts[k] < cuts[k + 1] {
      i := k;
    } else {
      i := NonEmptyAt(cuts, k + 1);
    }
  }

  /** Between packets no session waits for a segment it has already received. */
  lemma {:induction false} SeenIsNotAwaited(stream: seq<byte>, cuts: seq<nat>, st: SessionState, seen: set<nat>, i: nat)
    requires IsCutting(stream, cuts) && Underway(stream, cuts, st, seen) && i in seen && i < |cuts| - 1
    ensures !(Start(cuts, i) == st.expected < End(cuts, i))
  {
    assert Delivered(stream, cuts, st, i);
  }

  /** Without interior empty segments a run that starts at the first cut and misses no segment releases everything,
      and nothing stays behind to be discarded. */
  lemma {:induction false} EveryOrderDelivers(stream: seq<byte>, cuts: seq<nat>, order: seq<nat>, ps: seq<TcpPacket>)
    requires IsCutting(stream, cuts) && NoInteriorEmpty(cuts)
    requires Complete(stream, cuts, order, ps) && Origin(ps) == Some(cuts[0])
    ensures var d := RunFrom(NEW_SESSION, ps);
      && d.state == SessionState(Last(cuts), map[])
      && BytesOf(d.chunks) == stream[cuts[0]..Last(cuts)]
  {
    RunProgress(stream, cuts, order, ps);
    var st := RunFrom(NEW_SESSION, ps).state;
    var k :| 1 <= k < |cuts| && st.expected == cuts[k];
    SeenAll(order);
    assert forall i: nat :: i < |cuts| - 1 ==> i in Seen(order);
    if st.expected < Last(cuts) {
      var i := NonEmptyAt(cuts, k);
      SeenIsNotAwaited(stream, cuts, st, Seen(order), i);
      assert false;
    }
    NothingHeldAtEnd(stream, cuts, st, Seen(order));
    SegmentsAreSlices(stream, cuts, order, ps);
    ReassemblySafety(stream, ps);
  }

  lemma {:induction false} NothingHeldAtEnd(stream: seq<byte>, cuts: seq<nat>, st: SessionState, seen: set<nat>)
    requires IsCutting(stream, cuts) && Underway(stream, cuts, st, seen) && st.expected == Last(cuts)
    ensures st.buffered == map[]
  {
    if st.buffered != map[] {
      var q :| q in st.buffered;
      var _ := HeldIsBeyond(stream, cuts, st, seen, q);
      assert false;
    }
  }

  lemma {:induction false} HeldIsBeyond(stream: seq<byte>, cuts: seq<nat>, st: SessionState, seen: set<nat>, q: nat)
    returns (i: nat)
    requires IsCutting(stream, cuts) && Underway(stream, cuts, st, seen) && q in st.buffered
    ensures i in seen && i < |cuts| - 1 && st.expected < q == Start(cuts, i) <= End(cuts, i) <= Last(cuts)
  {
    assert IsSegmentAt(stream, cuts, q, st.buffered[q].data, seen);
    i :| i in seen && i < |cuts| - 1 && Start(cuts, i) == q;
    assert cuts[i] <= cuts[i + 1] <= Last(cuts);
  }

  /** A run that starts at another number loses the bytes before it. */
  lemma {:induction false} WrongOriginLoses(stream: seq<byte>, cuts: seq<nat>, order: seq<nat>, ps: seq<TcpPacket>)
    requires IsCutting(stream, cuts) && AreSegments(stream, cuts, order, ps) && Origin(ps) != Some(cuts[0])
    ensures cuts[0] < Last(cuts) ==> |BytesOf(RunFrom(NEW_SESSION, ps).chunks)| < Last(cuts) - cuts[0]
    ensures cuts[0] == Last(cuts) ==> BytesOf(RunFrom(NEW_SESSION, ps).chunks) == []
  {
    var upTo := stream[..Last(cuts)];
    assert cuts[0] <= Last(cuts);
    forall j | 0 <= j < |ps| ensures IsSlice(upTo, ps[j]) {
      assert IsSegment(stream, cuts, order[j], ps[j]);
      assert cuts[order[j]] <= cuts[order[j] + 1] <= Last(cuts);
    }
    if Origin(ps).Some? {
      OriginIsStart(stream, cuts, order, ps);
    }
    ReassemblySafety(upTo, ps);
  }

  lemma {:induction false} OriginIsStart(stream: seq<byte>, cuts: seq<nat>, order: seq<nat>, ps: seq<TcpPacket>)
    requires IsCutting(stream, cuts) && AreSegments(stream, cuts, order, ps) && Origin(ps).Some?
    ensures cuts[0] <= Origin(ps).value
  {
    var n := |ps| - 1;
    assert IsSegment(stream, cuts, order[n], ps[n]);
    assert cuts[0] <= cuts[order[n]];
    if Origin(ps[..n]).Some? {
      OriginIsStart(stream, cuts, order[..n], ps[..n]);
    }
  }

  /** Which arrival orders bring the whole stream: exactly those whose first packet to fix the start of the stream is
      numbered with the first cut, unless there is nothing to bring. */
  lemma {:induction false} WholeExactly(stream: seq<byte>, cuts: seq<nat>, order: seq<nat>, ps: seq<TcpPacket>)
    requires IsCutting(stream, cuts) && NoInteriorEmpty(cuts) && Complete(stream, cuts, order, ps)
    ensures cuts[0] <= Last(cuts)
    ensures BytesOf(RunFrom(NEW_SESSION, ps).chunks) == stream[cuts[0]..Last(cuts)] <==>
      Origin(ps) == Some(cuts[0]) || cuts[0] == Last(cuts)
  {
    assert cuts[0] <= Last(cuts);
    if Origin(ps) == Some(cuts[0]) {
      EveryOrderDelivers(stream, cuts, order, ps);
    } else {
      WrongOriginLoses(stream, cuts, order, ps);
    }
  }

  /** The first segment fixes the start, unless it is empty at number zero; then the next packet decides. */
  lemma {:induction false} FirstSegmentPins(stream: seq<byte>, cuts: seq<nat>, order: seq<nat>, ps: seq<TcpPacket>)
    requires IsCutting(stream, cuts) && AreSegments(stream, cuts, order, ps) && order != [] && order[0] == 0
    requires 0 < cuts[1]
    ensures Origin(ps) == Some(cuts[0])
  {
    assert IsSegment(stream, cuts, 0, ps[0]);
    assert cuts[0] <= cuts[1];
    assert |ps[0].payload| == cuts[1] - cuts[0];
    FirstPacketPins(ps);
  }

  /** A capture may miss segments: as long as it starts at the first cut, every segment that is discarded in the end
      starts behind a gap, and none is discarded exactly when all that arrived has come out. */
  lemma {:induction false} DiscardIsLoss(stream: seq<byte>, cuts: seq<nat>, order: seq<nat>, ps: seq<TcpPacket>)
    requires IsCutting(stream, cuts) && NoInteriorEmpty(cuts)
    requires AreSegments(stream, cuts, order, ps) && Origin(ps) == Some(cuts[0])
    ensures var st := RunFrom(NEW_SESSION, ps).state;
      && (forall q :: q in st.buffered ==> st.expected < q)
      && (st.buffered == map[] <==> forall i :: i in order ==> End(cuts, i) <= st.expected)
  {
    RunProgress(stream, cuts, order, ps);
    SeenAll(order);
    var st := RunFrom(NEW_SESSION, ps).state;
    forall q | q in st.buffered ensures st.expected < q {
      var _ := HeldIsBeyond(stream, cuts, st, Seen(order), q);
    }
    if st.buffered != map[] {
      var q :| q in st.buffered;
      var i := HeldIsBeyond(stream, cuts, st, Seen(order), q);
      assert i in order && st.expected < End(cuts, i);
    } else {
      forall i | i in order ensures End(cuts, i) <= st.expected {
        assert Delivered(stream, cuts, st, i);
      }
    }
  }

  /** No segment arrived that lies beyond a missing one with data. */
  predicate NoHole(cuts: seq<nat>, order: seq<nat>)
    requires forall i :: i in order ==> i < |cuts| - 1
  {
    forall i, j: nat :: i in order && j < i && Start(cuts, j) < End(cuts, j) ==> j in order
  }

  /** Which missing segments show: exactly those with data that some arrived segment lies beyond. Nothing is discarded
      if all that is missing is the end of the stream. */
  lemma {:induction false} DiscardShowsHolesExactly(stream: seq<byte>, cuts: seq<nat>, order: seq<nat>,
                                                    ps: seq<TcpPacket>)
    requires IsCutting(stream, cuts) && NoInteriorEmpty(cuts)
    requires AreSegments(stream, cuts, order, ps) && Origin(ps) == Some(cuts[0])
    ensures forall i :: i in order ==> i < |cuts| - 1
    ensures RunFrom(NEW_SESSION, ps).state.buffered == map[] <==> NoHole(cuts, order)
  {
    var st := RunFrom(NEW_SESSION, ps).state;
    assert forall i :: i in order ==> i < |cuts| - 1;
    RunProgress(stream, cuts, order, ps);
    SeenAll(order);
    DiscardIsLoss(stream, cuts, order, ps);
    if st.buffered == map[] {
      forall i, j: nat | i in order && j < i && Start(cuts, j) < End(cuts, j) ensures j in order {
        assert End(cuts, j) <= Start(cuts, i) <= End(cuts, i) <= st.expected;
      }
    } else if NoHole(cuts, order) {
      var i :| i in order && st.expected < End(cuts, i);
      AwaitedIsHole(stream, cuts, st, order, i);
      assert false;
    }
  }

  lemma {:induction false} AwaitedIsHole(stream: seq<byte>, cuts: seq<nat>, st: SessionState, order: seq<nat>, i: nat)
    requires IsCutting(stream, cuts) && Underway(stream, cuts, st, Seen(order))
    requires forall j :: j in order <==> j in Seen(order)
    requires i in order && i < |cuts| - 1 && st.expected < End(cuts, i)
    ensures exists m: nat :: m < i && Start(cuts, m) < End(cuts, m) && m !in order
  {
    var k :| 1 <= k < |cuts| && st.expected == cuts[k];
    assert cuts[i + 1] <= Last(cuts);
    assert forall j: nat :: i < j < |cuts| - 1 ==> End(cuts, i) <= Start(cuts, j);
    var m := NonEmptyAt(cuts, k);
    if m in Seen(order) {
      SeenIsNotAwaited(stream, cuts, st, Seen(order), m);
    }
    assert m < i && Start(cuts, m) < End(cuts, m) && m !in order;
  }

  /** A lossy capture that is not noticed: when exactly the first `n` segments arrive, nothing is discarded, although
      the stream ends early. */
  lemma {:induction false} MissingEndIsSilent(stream: seq<byte>, cuts: seq<nat>, order: seq<nat>, ps: seq<TcpPacket>,
                                              n: nat)
    requires IsCutting(stream, cuts) && NoInteriorEmpty(cuts) && 1 <= n < |cuts|
    requires AreSegments(stream, cuts, order, ps) && Origin(ps) == Some(cuts[0])
    requires forall i: nat :: i in order <==> i < n
    ensures RunFrom(NEW_SESSION, ps).state == SessionState(cuts[n], map[])
    ensures cuts[0] <= cuts[n] && BytesOf(RunFrom(NEW_SESSION, ps).chunks) == stream[cuts[0]..cuts[n]]
  {
    var some := cuts[..n + 1];
    forall j | 0 <= j < |order| ensures order[j] < |some| - 1 && IsSegment(stream, some, order[j], ps[j]) {
      assert order[j] in order;
      assert IsSegment(stream, cuts, order[j], ps[j]);
    }
    assert cuts[n] <= Last(cuts);
    forall i: nat | i < n && some[1] < Start(some, i) < Last(some) ensures Start(some, i) < End(some, i) {
      assert cuts[1] < Start(cuts, i) < Last(cuts);
    }
    EveryOrderDelivers(stream, some, order, ps);
  }

  // An interior empty segment `e` can wipe out the data buffered at its number: the descending order shows it.

  function PacketFor(stream: seq<byte>, cuts: seq<nat>, i: nat): TcpPacket
    requires IsCutting(stream, cuts) && i < |cuts| - 1
  {
    TcpPacket("", 0, "", 0, Start(cuts, i), Segment(stream, cuts, i), 0, false)
  }

  /** Segment 0, then the others from the last down to `low`. */
  function Descending(n: nat, low: nat): seq<nat>
    requires 1 <= low <= n
    decreases n - low
  {
    if low == n then [0] else Descending(n, low + 1) + [low]
  }

  lemma {:induction false} DescendingCovers(n: nat, low: nat)
    requires 1 <= low <= n
    ensures forall i :: i in Descending(n, low) <==> i == 0 || low <= i < n
    ensures Descending(n, low) != [] && Descending(n, low)[0] == 0
    decreases n - low
  {
    if low < n {
      DescendingCovers(n, low + 1);
    }
  }

  function DescendingPackets(stream: seq<byte>, cuts: seq<nat>, low: nat): seq<TcpPacket>
    requires IsCutting(stream, cuts) && 1 <= low <= |cuts| - 1
    decreases |cuts| - low
  {
    if low == |cuts| - 1 then [PacketFor(stream, cuts, 0)]
    else DescendingPackets(stream, cuts, low + 1) + [PacketFor(stream, cuts, low)]
  }

  lemma {:induction false} DescendingIsOrder(stream: seq<byte>, cuts: seq<nat>, low: nat)
    requires IsCutting(stream, cuts) && 1 <= low <= |cuts| - 1
    ensures AreSegments(stream, cuts, Descending(|cuts| - 1, low), DescendingPackets(stream, cuts, low))
    decreases |cuts| - low
  {
    if low < |cuts| - 1 {
      DescendingIsOrder(stream, cuts, low + 1);
    }
  }

  predicate IsInteriorEmpty(cuts: seq<nat>, e: nat)
    requires 2 <= |cuts|
  {
    e < |cuts| - 1 && cuts[1] < Start(cuts, e) == End(cuts, e) < Last(cuts)
  }

  /** Nothing at or beyond the start of `e` has come out, and what waits there is empty. */
  predicate Blocked(cuts: seq<nat>, e: nat, st: SessionState)
    requires 2 <= |cuts| && IsInteriorEmpty(cuts, e)
  {
    var q := Start(cuts, e);
    && cuts[1] <= st.expected <= q
    && (st.expected < q ==> q in st.buffered && st.buffered[q].data == [])
    && (forall b :: b in st.buffered && b < q ==> b + |st.buffered[b].data| <= q)
  }

  lemma {:induction false} FlushBlocked(cuts: seq<nat>, e: nat, st: SessionState)
    requires 2 <= |cuts| && IsInteriorEmpty(cuts, e)
    requires cuts[1] <= st.expected <= Start(cuts, e)
    requires Start(cuts, e) in st.buffered && st.buffered[Start(cuts, e)].data == []
    requires forall b :: b in st.buffered && b < Start(cuts, e) ==> b + |st.buffered[b].data| <= Start(cuts, e)
    ensures Blocked(cuts, e, Flush(st).state)
    decreases |st.buffered|
  {
    if st.expected in st.buffered {
      var next := Popped(st);
      PoppedShrinks(st);
      if st.expected == Start(cuts, e) {
        assert Flush(next) == Delivery([], next);
      } else {
        FlushBlocked(cuts, e, next);
      }
    }
  }

  lemma {:induction false} DescendingBlocks(stream: seq<byte>, cuts: seq<nat>, e: nat, low: nat)
    requires IsCutting(stream, cuts) && IsInteriorEmpty(cuts, e) && 0 < cuts[1] && 1 <= low <= |cuts| - 1
    ensures var st := RunFrom(NEW_SESSION, DescendingPackets(stream, cuts, low)).state;
      if low <= e then Blocked(cuts, e, st)
      else st.expected == cuts[1] && forall b :: b in st.buffered ==> Start(cuts, e) <= b
    decreases |cuts| - low
  {
    if low == |cuts| - 1 {
      AfterFirst(stream, cuts);
    } else {
      var past, p := DescendingPackets(stream, cuts, low + 1), PacketFor(stream, cuts, low);
      DescendingBlocks(stream, cuts, e, low + 1);
      RunSnoc(NEW_SESSION, past, p);
      if low < e {
        BlockedStep(stream, cuts, e, RunFrom(NEW_SESSION, past).state, low);
      } else {
        LaterStep(stream, cuts, e, RunFrom(NEW_SESSION, past).state, low);
      }
    }
  }

  /** The segments from `e` on are buffered, and the last of them to arrive is `e` itself. */
  lemma {:induction false} LaterStep(stream: seq<byte>, cuts: seq<nat>, e: nat, st: SessionState, i: nat)
    requires IsCutting(stream, cuts) && IsInteriorEmpty(cuts, e) && 0 < cuts[1] && e <= i < |cuts| - 1
    requires st.expected == cuts[1] && forall b :: b in st.buffered ==> Start(cuts, e) <= b
    ensures var after := Handle(st, PacketFor(stream, cuts, i)).state;
      if i == e then Blocked(cuts, e, after)
      else after.expected == cuts[1] && forall b :: b in after.buffered ==> Start(cuts, e) <= b
  {
    assert Start(cuts, e) <= Start(cuts, i);
  }

  lemma {:induction false} AfterFirst(stream: seq<byte>, cuts: seq<nat>)
    requires IsCutting(stream, cuts) && 0 < cuts[1]
    ensures RunFrom(NEW_SESSION, DescendingPackets(stream, cuts, |cuts| - 1)).state == SessionState(cuts[1], map[])
  {
    var p := PacketFor(stream, cuts, 0);
    assert cuts[0] <= cuts[1];
    RunSnoc(NEW_SESSION, [], p);
    assert [] + [p] == [p];
    assert Flush(SessionState(cuts[1], map[])) == Delivery([], SessionState(cuts[1], map[]));
  }

  lemma {:induction false} BlockedStep(stream: seq<byte>, cuts: seq<nat>, e: nat, st: SessionState, i: nat)
    requires IsCutting(stream, cuts) && IsInteriorEmpty(cuts, e) && 0 < cuts[1]
    requires Blocked(cuts, e, st) && i < e
    ensures Blocked(cuts, e, Handle(st, PacketFor(stream, cuts, i)).state)
  {
    var p := PacketFor(stream, cuts, i);
    assert Start(cuts, i) <= End(cuts, i) <= Start(cuts, e);
    if p.seqNo == st.expected && p.payload != [] {
      FlushBlocked(cuts, e, SessionState(st.expected + |p.payload|, st.buffered));
    }
  }

  lemma {:induction false} InteriorEmptyLoses(stream: seq<byte>, cuts: seq<nat>, e: nat)
    requires IsCutting(stream, cuts) && IsInteriorEmpty(cuts, e) && 0 < cuts[1]
    ensures var ps := DescendingPackets(stream, cuts, 1);
      && Arrives(stream, cuts, Descending(|cuts| - 1, 1), ps)
      && |BytesOf(RunFrom(NEW_SESSION, ps).chunks)| < Last(cuts) - cuts[0]
  {
    var ps, order := DescendingPackets(stream, cuts, 1), Descending(|cuts| - 1, 1);
    DescendingCovers(|cuts| - 1, 1);
    DescendingIsOrder(stream, cuts, 1);
    DescendingBlocks(stream, cuts, e, 1);
    assert e != 0 by { assert cuts[0] <= cuts[1]; }
    SegmentsAreSlices(stream, cuts, order, ps);
    assert IsSegment(stream, cuts, order[0], ps[0]);
    assert Pins(ps[0]);
    FirstPacketPins(ps);
    ReassemblySafety(stream, ps);
  }

  // A first segment that is empty at number zero fixes nothing: the packet after it may start the stream anywhere.

  /** Segment 0, then the last one, then all. */
  function LastSecond(n: nat): seq<nat>
    requires 1 <= n
  {
    [0, n - 1] + seq(n, i => i)
  }

  function LastSecondPackets(stream: seq<byte>, cuts: seq<nat>): seq<TcpPacket>
    requires IsCutting(stream, cuts)
  {
    var order := LastSecond(|cuts| - 1);
    seq(|order|, j requires 0 <= j < |order| => PacketFor(stream, cuts, order[j]))
  }

  lemma {:induction false} LateStartLoses(stream: seq<byte>, cuts: seq<nat>)
    requires IsCutting(stream, cuts) && cuts[1] == 0 && 0 < Start(cuts, |cuts| - 2)
    ensures var ps := LastSecondPackets(stream, cuts);
      && Arrives(stream, cuts, LastSecond(|cuts| - 1), ps)
      && |BytesOf(RunFrom(NEW_SESSION, ps).chunks)| < Last(cuts) - cuts[0]
  {
    var n, ps, order := |cuts| - 1, LastSecondPackets(stream, cuts), LastSecond(|cuts| - 1);
    forall i: nat | i < n ensures i in order {
      assert order[2 + i] == i;
    }
    assert cuts[0] <= cuts[1] && cuts[n - 1] <= cuts[n];
    SecondPacketPins(ps);
    WrongOriginLoses(stream, cuts, order, ps);
  }

  lemma {:induction false} SecondPacketPins(ps: seq<TcpPacket>)
    requires 2 <= |ps| && !Pins(ps[0]) && Pins(ps[1])
    ensures Origin(ps) == Some(ps[1].seqNo)
  {
    if |ps| == 2 {
      assert ps == [ps[0], ps[1]];
      ZeroDoesNotPin(ps[0], ps[1]);
    } else {
      SecondPacketPins(ps[..|ps| - 1]);
    }
  }

  /** If all segments start at zero, so does the stream as soon as one of them fixes its start. */
  lemma {:induction false} AllStartAtZero(stream: seq<byte>, cuts: seq<nat>, order: seq<nat>, ps: seq<TcpPacket>,
                                          k: nat)
    requires IsCutting(stream, cuts) && AreSegments(stream, cuts, order, ps) && Start(cuts, |cuts| - 2) == 0
    requires k < |order| && 0 < End(cuts, order[k])
    ensures Origin(ps) == Some(0)
  {
    var n := |ps| - 1;
    assert IsSegment(stream, cuts, order[n], ps[n]);
    assert cuts[order[n]] <= cuts[|cuts| - 2] && cuts[order[n]] <= cuts[order[n] + 1];
    if k < n {
      AllStartAtZero(stream, cuts, order[..n], ps[..n], k);
    } else if Origin(ps[..n]).Some? {
      OriginAtZero(stream, cuts, order[..n], ps[..n]);
    }
  }

  lemma {:induction false} OriginAtZero(stream: seq<byte>, cuts: seq<nat>, order: seq<nat>, ps: seq<TcpPacket>)
    requires IsCutting(stream, cuts) && AreSegments(stream, cuts, order, ps) && Start(cuts, |cuts| - 2) == 0
    requires Origin(ps).Some?
    ensures Origin(ps) == Some(0)
  {
    var n := |ps| - 1;
    assert IsSegment(stream, cuts, order[n], ps[n]);
    assert cuts[order[n]] <= cuts[|cuts| - 2];
    if Origin(ps[..n]).Some? {
      OriginAtZero(stream, cuts, order[..n], ps[..n]);
    }
  }

  /** The first segment is not an empty one at number zero, or no segment starts later. */
  predicate StartIsFixed(cuts: seq<nat>)
    requires 2 <= |cuts|
  {
    0 < cuts[1] || Start(cuts, |cuts| - 2) == 0
  }

  /** A stream is delivered whole under every arrival order that starts with its first segment, with any duplicates,
      exactly when no interior segment is empty and its start is fixed. */
  lemma {:induction false} DeliveryExactly(stream: seq<byte>, cuts: seq<nat>)
    requires IsCutting(stream, cuts)
    ensures DeliversAlways(stream, cuts) <==> NoInteriorEmpty(cuts) && StartIsFixed(cuts)
  {
    assert cuts[0] <= cuts[1] <= Last(cuts);
    if !StartIsFixed(cuts) {
      LateStartLoses(stream, cuts);
    } else if NoInteriorEmpty(cuts) {
      forall order: seq<nat>, ps: seq<TcpPacket> | Arrives(stream, cuts, order, ps)
        ensures BytesOf(RunFrom(NEW_SESSION, ps).chunks) == stream[cuts[0]..Last(cuts)]
      {
        FixedStart(stream, cuts, order, ps);
        WholeExactly(stream, cuts, order, ps);
      }
    } else {
      var e: nat :| e < |cuts| - 1 && cuts[1] < Start(cuts, e) < Last(cuts) && !(Start(cuts, e) < End(cuts, e));
      assert cuts[e] <= cuts[e + 1] && cuts[e] <= cuts[|cuts| - 2];
      InteriorEmptyLoses(stream, cuts, e);
    }
  }

  lemma {:induction false} FixedStart(stream: seq<byte>, cuts: seq<nat>, order: seq<nat>, ps: seq<TcpPacket>)
    requires IsCutting(stream, cuts) && StartIsFixed(cuts) && Arrives(stream, cuts, order, ps)
    ensures Origin(ps) == Some(cuts[0]) || cuts[0] == Last(cuts)
  {
    if 0 < cuts[1] {
      FirstSegmentPins(stream, cuts, order, ps);
    } else if 0 < Last(cuts) {
      assert cuts[0] <= cuts[1];
      assert |cuts| - 2 in order;
      var k :| 0 <= k < |order| && order[k] == |cuts| - 2;
      AllStartAtZero(stream, cuts, order, ps, k);
    } else {
      assert cuts[0] <= Last(cuts);
    }
  }
}
