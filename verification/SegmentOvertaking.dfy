/** What the discard at the end of the stream counts: segments behind gaps, and segments that a longer one overtook. */
module SegmentOvertaking {
  import opened Prelude
  import opened Framing
  import opened TcpReassembly

  /** Chunk `i` came out while segment `q` was waiting, and reaches past its start. */
  predicate Overtakes(ps: seq<TcpPacket>, i: nat, q: nat)
    requires Origin(ps).Some? && i < |RunFrom(NEW_SESSION, ps).chunks|
  {
    && q in RunFrom(NEW_SESSION, ps[..ReleasedBy(ps, i)]).state.buffered
    && NumberOf(ps, i) < q < NumberOf(ps, i) + |RunFrom(NEW_SESSION, ps).chunks[i].data|
  }

  /** Chunks laid out from `at`: chunk `j` reaches past `q`. */
  predicate Straddles(at: nat, chunks: seq<Timestamped>, j: nat, q: nat)
    requires j < |chunks|
  {
    at + |BytesOf(chunks[..j])| < q < at + |BytesOf(chunks[..j])| + |chunks[j].data|
  }

  lemma {:induction false} StraddlesLater(at: nat, chunk: Timestamped, chunks: seq<Timestamped>, j: nat, q: nat)
    requires j < |chunks|
    ensures Straddles(at, [chunk] + chunks, j + 1, q) <==> Straddles(at + |chunk.data|, chunks, j, q)
  {
    assert ([chunk] + chunks)[..j + 1][1..] == chunks[..j];
  }

  /** A flush passes a waiting segment without releasing it only by a chunk that reaches past its start. */
  lemma {:induction false} FlushPasses(st: SessionState, q: nat) returns (j: nat)
    requires st.expected < q < Flush(st).state.expected && q in Flush(st).state.buffered
    ensures j < |Flush(st).chunks| && Straddles(st.expected, Flush(st).chunks, j, q)
    decreases |st.buffered|
  {
    var chunk, next := st.buffered[st.expected], Popped(st);
    PoppedShrinks(st);
    FlushKeeps(next);
    FlushReleasesAwaited(next);
    if q < next.expected {
      j := 0;
    } else {
      var k := FlushPasses(next, q);
      StraddlesLater(st.expected, chunk, Flush(next).chunks, k, q);
      j := k + 1;
    }
  }

  lemma {:induction false} FlushReleasesAwaited(st: SessionState)
    ensures st.expected !in Flush(st).state.buffered
    ensures st.expected <= Flush(st).state.expected
    decreases |st.buffered|
  {
    if st.expected in st.buffered {
      PoppedShrinks(st);
      FlushReleasesAwaited(Popped(st));
      FlushKeeps(Popped(st));
    }
  }

  /** Conversely a segment that a chunk reaches past is not released. */
  lemma {:induction false} StraddledStays(st: SessionState, j: nat, q: nat)
    requires q in st.buffered && j < |Flush(st).chunks| && Straddles(st.expected, Flush(st).chunks, j, q)
    ensures q in Flush(st).state.buffered && q < Flush(st).state.expected
    decreases |st.buffered|
  {
    var chunk, next := st.buffered[st.expected], Popped(st);
    PoppedShrinks(st);
    if j == 0 {
      FlushLeavesBehind(next, q);
    } else {
      StraddlesLater(st.expected, chunk, Flush(next).chunks, j - 1, q);
      StraddledStays(next, j - 1, q);
    }
  }

  lemma {:induction false} FlushLeavesBehind(st: SessionState, q: nat)
    requires q in st.buffered && q < st.expected
    ensures q in Flush(st).state.buffered && q < Flush(st).state.expected
    decreases |st.buffered|
  {
    if st.expected in st.buffered {
      PoppedShrinks(st);
      FlushLeavesBehind(Popped(st), q);
    }
  }

  /** One packet: a segment that is left below the expected number was there before, or a chunk that the packet
      released reaches past it. */
  lemma {:induction false} StepPasses(st: SessionState, p: TcpPacket, q: nat) returns (j: nat)
    requires 0 < st.expected && st.expected !in st.buffered
    requires q in Handle(st, p).state.buffered && q < Handle(st, p).state.expected
    ensures q in st.buffered
    ensures st.expected <= q ==>
      j < |Handle(st, p).chunks| && Straddles(st.expected, Handle(st, p).chunks, j, q)
  {
    j := 0;
    if p.seqNo == st.expected && p.payload != [] {
      var next := SessionState(st.expected + |p.payload|, st.buffered);
      FlushKeeps(next);
      FlushReleasesAwaited(next);
      if next.expected < q {
        var k := FlushPasses(next, q);
        StraddlesLater(st.expected, p.Chunk(), Flush(next).chunks, k, q);
        j := k + 1;
      }
    }
  }

  lemma {:induction false} StepStraddles(st: SessionState, p: TcpPacket, j: nat, q: nat)
    requires 0 < st.expected && q in st.buffered
    requires j < |Handle(st, p).chunks| && Straddles(st.expected, Handle(st, p).chunks, j, q)
    ensures q in Handle(st, p).state.buffered && q < Handle(st, p).state.expected
  {
    var next := SessionState(st.expected + |p.payload|, st.buffered);
    if j == 0 {
      FlushLeavesBehind(next, q);
    } else {
      StraddlesLater(st.expected, p.Chunk(), Flush(next).chunks, j - 1, q);
      StraddledStays(next, j - 1, q);
    }
  }

  lemma {:induction false} StepLeavesBehind(st: SessionState, p: TcpPacket, q: nat)
    requires q in st.buffered && q < st.expected
    ensures q in Handle(st, p).state.buffered && q < Handle(st, p).state.expected
  {
    if p.seqNo == st.expected && p.payload != [] {
      FlushLeavesBehind(SessionState(st.expected + |p.payload|, st.buffered), q);
    }
  }

  /** The last packet's own chunks, seen in the run. */
  lemma {:induction false} OvertakesNow(past: seq<TcpPacket>, p: TcpPacket, j: nat, q: nat)
    requires Origin(past).Some? && j < |Handle(RunFrom(NEW_SESSION, past).state, p).chunks|
    ensures var before := RunFrom(NEW_SESSION, past);
      var i := |before.chunks| + j;
      && Origin(past + [p]).Some? && i < |RunFrom(NEW_SESSION, past + [p]).chunks|
      && (Overtakes(past + [p], i, q) <==>
            q in before.state.buffered && Straddles(before.state.expected, Handle(before.state, p).chunks, j, q))
  {
    var before := RunFrom(NEW_SESSION, past);
    RunSettles(past);
    OriginStays(past, p);
    NumberInStep(past, p, j);
    assert NumberAfter(past, p) == before.state.expected;
    JustOvertakes(past, p, |before.chunks| + j, q);
  }

  lemma {:induction false} JustOvertakes(past: seq<TcpPacket>, p: TcpPacket, i: nat, q: nat)
    requires Origin(past + [p]).Some?
    requires |RunFrom(NEW_SESSION, past).chunks| <= i < |RunFrom(NEW_SESSION, past + [p]).chunks|
    ensures var number := NumberOf(past + [p], i);
      Overtakes(past + [p], i, q) <==>
        && q in RunFrom(NEW_SESSION, past).state.buffered
        && number < q < number + |RunFrom(NEW_SESSION, past + [p]).chunks[i].data|
  {
    JustReleased(past, p, i);
    assert (past + [p])[..|past|] == past;
  }

  lemma {:induction false} OvertakesEarlier(past: seq<TcpPacket>, p: TcpPacket, i: nat, q: nat)
    requires Origin(past).Some? && i < |RunFrom(NEW_SESSION, past).chunks|
    ensures Origin(past + [p]).Some? && i < |RunFrom(NEW_SESSION, past + [p]).chunks|
    ensures Overtakes(past + [p], i, q) <==> Overtakes(past, i, q)
  {
    EarlierChunk(past, p, i);
    assert past[..ReleasedBy(past, i)] == (past + [p])[..ReleasedBy(past, i)];
  }

  /** A discarded segment below the expected number was overtaken. */
  lemma {:induction false} StrandedWasOvertaken(ps: seq<TcpPacket>, q: nat) returns (i: nat)
    requires q in RunFrom(NEW_SESSION, ps).state.buffered && q < RunFrom(NEW_SESSION, ps).state.expected
    ensures Origin(ps).Some? && i < |RunFrom(NEW_SESSION, ps).chunks| && Overtakes(ps, i, q)
  {
    var past, p := ps[..|ps| - 1], ps[|ps| - 1];
    Rejoin(ps);
    RunSettles(past);
    var before := RunFrom(NEW_SESSION, past);
    if Origin(past).None? {
      NothingWaitsAtFirst(p);
      assert false;
    } else {
      var j := StepPasses(before.state, p, q);
      if q < before.state.expected {
        i := StrandedWasOvertaken(past, q);
        OvertakesEarlier(past, p, i, q);
      } else {
        OvertakesNow(past, p, j, q);
        i := |before.chunks| + j;
      }
    }
  }

  lemma {:induction false} NothingWaitsAtFirst(p: TcpPacket)
    ensures Handle(NEW_SESSION, p).state.buffered == map[]
  {
    if p.payload != [] {
      FlushKeeps(SessionState(p.seqNo + |p.payload|, map[]));
    }
  }

  /** And an overtaken segment is never released. */
  lemma {:induction false} OvertakenIsStranded(ps: seq<TcpPacket>, i: nat, q: nat)
    requires Origin(ps).Some? && i < |RunFrom(NEW_SESSION, ps).chunks| && Overtakes(ps, i, q)
    ensures q in RunFrom(NEW_SESSION, ps).state.buffered && q < RunFrom(NEW_SESSION, ps).state.expected
  {
    var past, p := ps[..|ps| - 1], ps[|ps| - 1];
    Rejoin(ps);
    RunSettles(past);
    var before := RunFrom(NEW_SESSION, past);
    RunSnoc(NEW_SESSION, past, p);
    if i < |before.chunks| {
      OvertakesEarlier(past, p, i, q);
      OvertakenIsStranded(past, i, q);
      StepLeavesBehind(before.state, p, q);
    } else {
      StrandedNow(past, p, i, q);
    }
  }

  lemma {:induction false} StrandedNow(past: seq<TcpPacket>, p: TcpPacket, i: nat, q: nat)
    requires Origin(past + [p]).Some?
    requires |RunFrom(NEW_SESSION, past).chunks| <= i < |RunFrom(NEW_SESSION, past + [p]).chunks|
    requires Overtakes(past + [p], i, q)
    ensures q in RunFrom(NEW_SESSION, past + [p]).state.buffered
    ensures q < RunFrom(NEW_SESSION, past + [p]).state.expected
  {
    var before := RunFrom(NEW_SESSION, past);
    var j := i - |before.chunks|;
    RunSettles(past);
    RunSnoc(NEW_SESSION, past, p);
    JustOvertakes(past, p, i, q);
    if Origin(past).None? {
      assert false;
    }
    OvertakesNow(past, p, j, q);
    StepStraddles(before.state, p, j, q);
  }

  /** Whatever packets arrive: every segment that is discarded in the end starts behind a gap exactly when no chunk came
      out that reaches past the start of a waiting segment. */
  lemma {:induction false} DiscardedBehindGapsExactly(ps: seq<TcpPacket>)
    ensures var d := RunFrom(NEW_SESSION, ps);
      (forall q :: q in d.state.buffered ==> d.state.expected < q) <==>
        Origin(ps).None? || forall i, q :: 0 <= i < |d.chunks| ==> !Overtakes(ps, i, q)
  {
    var d := RunFrom(NEW_SESSION, ps);
    RunSettles(ps);
    if q :| q in d.state.buffered && d.state.expected >= q {
      var i := StrandedWasOvertaken(ps, q);
    }
    if Origin(ps).Some? {
      forall i, q | 0 <= i < |d.chunks| && Overtakes(ps, i, q)
        ensures q in d.state.buffered && !(d.state.expected < q)
      {
        OvertakenIsStranded(ps, i, q);
      }
    }
  }

  /** No packet starts strictly inside another. */
  predicate NoneStartsInside(ps: seq<TcpPacket>) {
    forall i, j :: 0 <= i < |ps| && 0 <= j < |ps| ==>
      !(ps[i].seqNo < ps[j].seqNo < ps[i].seqNo + |ps[i].payload|)
  }

  lemma {:induction false} LatestArrived(ps: seq<TcpPacket>, q: nat) returns (i: nat)
    requires LatestAt(ps, q).Some?
    ensures i < |ps| && ps[i].seqNo == q && ps[i].Chunk() == LatestAt(ps, q).value
  {
    i := |ps| - 1;
    if ps[i].seqNo != q {
      i := LatestArrived(ps[..|ps| - 1], q);
    }
  }

  lemma {:induction false} WaitingArrived(ps: seq<TcpPacket>, q: nat) returns (i: nat)
    requires q in RunFrom(NEW_SESSION, ps).state.buffered
    ensures i < |ps| && ps[i].seqNo == q
  {
    i := |ps| - 1;
    if ps[i].seqNo != q {
      var past, p := ps[..|ps| - 1], ps[|ps| - 1];
      var st := RunFrom(NEW_SESSION, past).state;
      RunSettles(past);
      if st.expected == 0 {
        NothingWaitsAtFirst(p);
      } else {
        FlushKeeps(SessionState(st.expected + |p.payload|, st.buffered));
      }
      i := WaitingArrived(past, q);
    }
  }

  /** Told from the packets alone: if none starts strictly inside another, whatever is lost, repeated or out of order,
      every discarded segment starts behind a gap. */
  lemma {:induction false} AlignedDiscardsBehindGaps(ps: seq<TcpPacket>)
    requires NoneStartsInside(ps)
    ensures var st := RunFrom(NEW_SESSION, ps).state;
      forall q :: q in st.buffered ==> st.expected < q
  {
    var st := RunFrom(NEW_SESSION, ps).state;
    RunSettles(ps);
    if q :| q in st.buffered && q <= st.expected {
      var i := StrandedWasOvertaken(ps, q);
      ChunkProvenance(ps, i);
      var long := LatestArrived(ArrivedBefore(ps, i), NumberOf(ps, i));
      var short := WaitingArrived(ps, q);
      assert false;
    }
  }

  lemma {:induction false} WaitsAfterOrigin(ps: seq<TcpPacket>)
    ensures forall q :: q in RunFrom(NEW_SESSION, ps).state.buffered ==> Origin(ps).Some? && Origin(ps).value < q
  {
    if ps != [] {
      var past, p := ps[..|ps| - 1], ps[|ps| - 1];
      WaitsAfterOrigin(past);
      RunSettles(past);
      var st := RunFrom(NEW_SESSION, past).state;
      if Origin(past).None? {
        NothingWaitsAtFirst(p);
      } else if p.seqNo == st.expected && p.payload != [] {
        FlushKeeps(SessionState(st.expected + |p.payload|, st.buffered));
      }
    }
  }

  /** Over slices of a stream, the bytes of an overtaken segment below the expected number have come out: the discard
      counts bytes that were framed. */
  lemma {:induction false} OvertakenCameOut(stream: seq<byte>, ps: seq<TcpPacket>, q: nat)
    requires forall i :: 0 <= i < |ps| ==> IsSlice(stream, ps[i])
    requires q in RunFrom(NEW_SESSION, ps).state.buffered && q < RunFrom(NEW_SESSION, ps).state.expected
    ensures var d := RunFrom(NEW_SESSION, ps);
      var held := d.state.buffered[q].data;
      var n := if q + |held| <= d.state.expected then |held| else d.state.expected - q;
      && Origin(ps).Some? && Origin(ps).value < q
      && q - Origin(ps).value + n <= |BytesOf(d.chunks)|
      && held[..n] == BytesOf(d.chunks)[q - Origin(ps).value..q - Origin(ps).value + n]
  {
    WaitsAfterOrigin(ps);
    RunSettles(ps);
    ReassemblySafety(stream, ps);
    var d := RunFrom(NEW_SESSION, ps);
    SameSlice(stream, Origin(ps).value, d.state.expected, BytesOf(d.chunks), q, d.state.buffered[q].data);
  }

  /** Two slices of a stream agree where they meet. */
  lemma {:induction false} SameSlice(stream: seq<byte>, from: nat, to: nat, out: seq<byte>, q: nat, held: seq<byte>)
    requires from <= q <= to <= |stream| && out == stream[from..to]
    requires q + |held| <= |stream| && held == stream[q..q + |held|]
    ensures var n := if q + |held| <= to then |held| else to - q;
      q - from + n <= |out| && held[..n] == out[q - from..q - from + n]
  {
    var n := if q + |held| <= to then |held| else to - q;
    var a, b := held[..n], out[q - from..q - from + n];
    forall k | 0 <= k < n ensures a[k] == b[k] {
      assert a[k] == stream[q + k];
    }
    assert a == b;
  }

  /** A segment numbered 3 waits, then a longer one numbered 2 brings its byte: the copy stays and is counted, although
      nothing was lost. */
  lemma {:induction false} OvertakenIsCounted(first: TcpPacket, short: TcpPacket, long: TcpPacket)
    requires first.seqNo == 1 && |first.payload| == 1
    requires short.seqNo == 3 && |short.payload| == 1
    requires long.seqNo == 2 && |long.payload| == 3
    ensures var d := RunFrom(NEW_SESSION, [first, short, long]);
      && d.chunks == [first.Chunk(), long.Chunk()]
      && d.state == SessionState(5, map[3 := short.Chunk()])
  {
    var waiting := SessionState(2, map[3 := short.Chunk()]);
    assert RunFrom(NEW_SESSION, [first, short]) == Delivery([first.Chunk()], waiting) by {
      RunSnoc(NEW_SESSION, [], first);
      RunSnoc(NEW_SESSION, [first], short);
      assert [] + [first] == [first] && [first] + [short] == [first, short];
    }
    RunSnoc(NEW_SESSION, [first, short], long);
    assert [first, short] + [long] == [first, short, long];
  }

  /** A retransmission that also brings a new byte is dropped whole: the byte never comes out and is not counted. */
  lemma {:induction false} NewTailIsNotCounted(first: TcpPacket, longer: TcpPacket)
    requires first.seqNo == longer.seqNo == 1 && |first.payload| == 1 && |longer.payload| == 2
    ensures RunFrom(NEW_SESSION, [first, longer]) == Delivery([first.Chunk()], SessionState(2, map[]))
  {
    RunSnoc(NEW_SESSION, [], first);
    RunSnoc(NEW_SESSION, [first], longer);
    assert [] + [first] == [first] && [first] + [longer] == [first, longer];
  }
}
