/** When a segment keeps the time at which it first arrived, and when a retransmission moves it. */
module ObservationTimes {
  import opened Prelude
  import opened Framing
  import opened TcpReassembly

  /** The packet brings byte `x` of the stream. */
  predicate Brings(p: TcpPacket, x: nat) {
    p.seqNo <= x < p.seqNo + |p.payload|
  }

  /** The time at which byte `x` of the stream arrived first. */
  function ObservedAt(ps: seq<TcpPacket>, x: nat): Option<int> {
    if ps == [] then None
    else
      var before := ObservedAt(ps[..|ps| - 1], x);
      if before.Some? || !Brings(ps[|ps| - 1], x) then before else Some(ps[|ps| - 1].timestamp)
  }

  lemma {:induction false} ObservedSnoc(ps: seq<TcpPacket>, p: TcpPacket, x: nat)
    ensures ObservedAt(ps + [p], x) ==
      if ObservedAt(ps, x).Some? || !Brings(p, x) then ObservedAt(ps, x) else Some(p.timestamp)
  {
    assert (ps + [p])[..|ps|] == ps;
  }

  /** Which packet changes a segment that keeps waiting: exactly another one with its number, still awaited, that
      differs from it. */
  lemma {:induction false} WaitingMovesExactly(st: SessionState, p: TcpPacket, q: nat)
    requires 0 < st.expected && q in st.buffered && q in Handle(st, p).state.buffered
    ensures Handle(st, p).state.buffered[q] != st.buffered[q] <==>
      p.seqNo == q && st.expected < q && p.Chunk() != st.buffered[q]
  {
    if p.seqNo == st.expected && p.payload != [] {
      FlushKeeps(SessionState(st.expected + |p.payload|, st.buffered));
    }
  }

  // Which runs keep the time of a byte's first arrival.

  /** The session does not drop the packet as a late one. */
  predicate Accepts(st: SessionState, p: TcpPacket) {
    st.expected == 0 || st.expected <= p.seqNo
  }

  /** After `past`, the packet is accepted although it brings byte `x`, which arrived before at another time. */
  predicate Redates(past: seq<TcpPacket>, p: TcpPacket, x: nat) {
    && Accepts(RunFrom(NEW_SESSION, past).state, p)
    && Brings(p, x) && ObservedAt(past, x).Some? && ObservedAt(past, x).value != p.timestamp
  }

  predicate NeverRedated(ps: seq<TcpPacket>, x: nat) {
    ps == [] || (NeverRedated(ps[..|ps| - 1], x) && !Redates(ps[..|ps| - 1], ps[|ps| - 1], x))
  }

  /** If the chunk, which starts at number `q`, holds byte `x`, then that byte arrived first at the chunk's time. */
  predicate HasFirstTime(ps: seq<TcpPacket>, q: nat, chunk: Timestamped, x: nat) {
    q <= x < q + |chunk.data| ==> ObservedAt(ps, x) == Some(chunk.timestamp)
  }

  /** Every released chunk, and every segment still awaited, that holds byte `x` has the time of its first arrival. */
  predicate DatedByFirst(ps: seq<TcpPacket>, x: nat) {
    var d := RunFrom(NEW_SESSION, ps);
    && (forall i :: 0 <= i < |d.chunks| ==> Origin(ps).Some? && HasFirstTime(ps, NumberOf(ps, i), d.chunks[i], x))
    && (forall q :: q in d.state.buffered && d.state.expected <= q ==> HasFirstTime(ps, q, d.state.buffered[q], x))
  }

  /** Beyond the expected number no segment has redated the byte. */
  ghost predicate AwaitedAgree(ps: seq<TcpPacket>, x: nat) {
    forall q: nat :: RunFrom(NEW_SESSION, ps).state.expected < q && LatestAt(ps, q).Some? ==>
      HasFirstTime(ps, q, LatestAt(ps, q).value, x)
  }

  lemma {:induction false} FirstTimeStays(past: seq<TcpPacket>, p: TcpPacket, q: nat, chunk: Timestamped, x: nat)
    requires HasFirstTime(past, q, chunk, x)
    ensures HasFirstTime(past + [p], q, chunk, x)
  {
    ObservedSnoc(past, p, x);
  }

  /** An accepted packet that does not redate the byte has its first time. */
  lemma {:induction false} OwnFirstTime(past: seq<TcpPacket>, p: TcpPacket, x: nat)
    requires Accepts(RunFrom(NEW_SESSION, past).state, p) && !Redates(past, p, x)
    ensures HasFirstTime(past + [p], p.seqNo, p.Chunk(), x)
  {
    ObservedSnoc(past, p, x);
  }

  lemma {:induction false} NeverRedatedAgrees(ps: seq<TcpPacket>, x: nat)
    requires NeverRedated(ps, x)
    ensures AwaitedAgree(ps, x) && DatedByFirst(ps, x)
  {
    if ps != [] {
      var past, p := ps[..|ps| - 1], ps[|ps| - 1];
      Rejoin(ps);
      NeverRedatedAgrees(past, x);
      AwaitedStep(past, p, x);
      RunSettles(ps);
      forall i | 0 <= i < |RunFrom(NEW_SESSION, ps).chunks|
        ensures HasFirstTime(ps, NumberOf(ps, i), RunFrom(NEW_SESSION, ps).chunks[i], x)
      {
        ChunkStep(past, p, i, x);
      }
    }
  }

  lemma {:induction false} AwaitedStep(past: seq<TcpPacket>, p: TcpPacket, x: nat)
    requires AwaitedAgree(past, x) && !Redates(past, p, x)
    ensures AwaitedAgree(past + [p], x)
  {
    var st := RunFrom(NEW_SESSION, past).state;
    RunSettles(past);
    RunSnoc(NEW_SESSION, past, p);
    HandleLatest(past, st, p);
    forall q: nat | RunFrom(NEW_SESSION, past + [p]).state.expected < q && LatestAt(past + [p], q).Some?
      ensures HasFirstTime(past + [p], q, LatestAt(past + [p], q).value, x)
    {
      LatestSnoc(past, p, q);
      if p.seqNo == q {
        OwnFirstTime(past, p, x);
      } else {
        FirstTimeStays(past, p, q, LatestAt(past, q).value, x);
      }
    }
  }

  lemma {:induction false} ChunkStep(past: seq<TcpPacket>, p: TcpPacket, i: nat, x: nat)
    requires AwaitedAgree(past, x) && DatedByFirst(past, x) && !Redates(past, p, x)
    requires i < |RunFrom(NEW_SESSION, past + [p]).chunks| && Origin(past + [p]).Some?
    ensures HasFirstTime(past + [p], NumberOf(past + [p], i), RunFrom(NEW_SESSION, past + [p]).chunks[i], x)
  {
    var before := RunFrom(NEW_SESSION, past);
    RunSettles(past);
    if i < |before.chunks| {
      EarlierChunk(past, p, i);
      FirstTimeStays(past, p, NumberOf(past, i), before.chunks[i], x);
    } else {
      NewChunkStep(past, p, i, x);
    }
  }

  lemma {:induction false} NewChunkStep(past: seq<TcpPacket>, p: TcpPacket, i: nat, x: nat)
    requires AwaitedAgree(past, x) && !Redates(past, p, x) && Origin(past + [p]).Some?
    requires |RunFrom(NEW_SESSION, past).chunks| <= i < |RunFrom(NEW_SESSION, past + [p]).chunks|
    ensures HasFirstTime(past + [p], NumberOf(past + [p], i), RunFrom(NEW_SESSION, past + [p]).chunks[i], x)
  {
    var q := NumberOf(past + [p], i);
    RunSnoc(NEW_SESSION, past, p);
    ReleasedNumber(past, p, i);
    LastChunks(past, p, i - |RunFrom(NEW_SESSION, past).chunks|);
    LatestSnoc(past, p, q);
    if p.seqNo == q {
      OwnFirstTime(past, p, x);
    } else {
      FirstTimeStays(past, p, q, LatestAt(past, q).value, x);
    }
  }

  /** The chunks that a packet releases start at its own number and go on from its end. */
  lemma {:induction false} ReleasedNumber(past: seq<TcpPacket>, p: TcpPacket, i: nat)
    requires Origin(past + [p]).Some?
    requires |RunFrom(NEW_SESSION, past).chunks| <= i < |RunFrom(NEW_SESSION, past + [p]).chunks|
    ensures Accepts(RunFrom(NEW_SESSION, past).state, p)
    ensures p.seqNo == NumberAfter(past, p)
    ensures if i == |RunFrom(NEW_SESSION, past).chunks| then NumberOf(past + [p], i) == p.seqNo
      else p.seqNo + |p.payload| <= NumberOf(past + [p], i)
  {
    var before := RunFrom(NEW_SESSION, past);
    var step, j := Handle(before.state, p).chunks, i - |before.chunks|;
    RunSettles(past);
    RunSnoc(NEW_SESSION, past, p);
    NumberInStep(past, p, j);
    if j > 0 {
      assert step[..j][0] == p.Chunk();
    }
  }

  lemma {:induction false} RedatingShows(past: seq<TcpPacket>, p: TcpPacket, x: nat)
    requires Redates(past, p, x)
    ensures !DatedByFirst(past + [p], x)
  {
    var ps, before := past + [p], RunFrom(NEW_SESSION, past);
    assert ps[..|ps| - 1] == past;
    RunSettles(past);
    RunSettles(ps);
    RunSnoc(NEW_SESSION, past, p);
    ObservedSnoc(past, p, x);
    assert !HasFirstTime(ps, p.seqNo, p.Chunk(), x);
    var d := RunFrom(NEW_SESSION, ps);
    if NumberAfter(past, p) < p.seqNo {
      assert d.state.buffered[p.seqNo] == p.Chunk();
    } else {
      var i := |before.chunks|;
      assert d.chunks[i] == p.Chunk();
      ReleasedNumber(past, p, i);
    }
  }

  lemma {:induction false} PrefixNeverRedated(ps: seq<TcpPacket>, k: nat, x: nat)
    requires NeverRedated(ps, x) && k <= |ps|
    ensures NeverRedated(ps[..k], x)
  {
    if k < |ps| {
      PrefixNeverRedated(ps[..|ps| - 1], k, x);
      assert ps[..|ps| - 1][..k] == ps[..k];
    } else {
      WholePrefix(ps);
    }
  }

  /** Byte by byte: at every moment of a run each released chunk or awaited segment that holds byte `x` has the time at
      which `x` arrived first, exactly when no accepted packet brought `x` after it had arrived at another time. */
  lemma {:induction false} FirstTimesKeptExactly(ps: seq<TcpPacket>, x: nat)
    ensures (forall k: nat :: k <= |ps| ==> DatedByFirst(ps[..k], x)) <==> NeverRedated(ps, x)
  {
    if NeverRedated(ps, x) {
      forall k: nat | k <= |ps| ensures DatedByFirst(ps[..k], x) {
        PrefixNeverRedated(ps, k, x);
        NeverRedatedAgrees(ps[..k], x);
      }
    } else {
      var _ := FirstRedating(ps, x);
    }
  }

  lemma {:induction false} FirstRedating(ps: seq<TcpPacket>, x: nat) returns (k: nat)
    requires !NeverRedated(ps, x)
    ensures k <= |ps| && !DatedByFirst(ps[..k], x)
  {
    var past := ps[..|ps| - 1];
    if NeverRedated(past, x) {
      k := |ps|;
      Rejoin(ps);
      WholePrefix(ps);
      RedatingShows(past, ps[|ps| - 1], x);
    } else {
      k := FirstRedating(past, x);
      assert past[..k] == ps[..k];
    }
  }

  /** A retransmission that moves an observation time: the segment numbered 3 waits behind a gap, arrives again, and
      comes out with the time of its second arrival. */
  lemma {:induction false} RetransmissionMovesTime(first: TcpPacket, held: TcpPacket, again: TcpPacket,
                                                   filler: TcpPacket)
    requires first.seqNo == 1 && |first.payload| == 1
    requires filler.seqNo == 2 && |filler.payload| == 1
    requires held.seqNo == again.seqNo == 3 && held.payload == again.payload != []
    requires held.timestamp != again.timestamp
    ensures var ps := [first, held, again, filler];
      && RunFrom(NEW_SESSION, ps).chunks == [first.Chunk(), filler.Chunk(), again.Chunk()]
      && ObservedAt(ps, 3) == Some(held.timestamp)
      && Redates([first, held], again, 3)
  {
    var ps := [first, held, again, filler];
    var waiting := SessionState(2, map[3 := again.Chunk()]);
    assert RunFrom(NEW_SESSION, [first, held, again]) == Delivery([first.Chunk()], waiting) by {
      OneWaits(first, held);
      RunSnoc(NEW_SESSION, [first, held], again);
      assert [first, held] + [again] == [first, held, again];
      assert map[3 := held.Chunk()][3 := again.Chunk()] == map[3 := again.Chunk()];
    }
    RunSnoc(NEW_SESSION, [first, held, again], filler);
    assert [first, held, again] + [filler] == ps;
    FillsTheGap(filler, again.Chunk());
    OneWaits(first, held);
    ObservedSnoc([first, held], again, 3);
    assert [first, held] + [again] == [first, held, again];
    ObservedSnoc([first, held, again], filler, 3);
  }

  lemma {:induction false} OneWaits(first: TcpPacket, held: TcpPacket)
    requires first.seqNo == 1 && |first.payload| == 1 && held.seqNo == 3
    ensures RunFrom(NEW_SESSION, [first, held]) == Delivery([first.Chunk()], SessionState(2, map[3 := held.Chunk()]))
    ensures held.payload != [] ==> ObservedAt([first, held], 3) == Some(held.timestamp)
  {
    OneReleased(first);
    RunSnoc(NEW_SESSION, [first], held);
    ObservedSnoc([first], held, 3);
    assert [first] + [held] == [first, held];
  }

  lemma {:induction false} OneReleased(first: TcpPacket)
    requires first.seqNo == 1 && |first.payload| == 1
    ensures RunFrom(NEW_SESSION, [first]) == Delivery([first.Chunk()], SessionState(2, map[]))
    ensures forall x :: ObservedAt([first], x) == if x == 1 then Some(first.timestamp) else None
  {
    RunSnoc(NEW_SESSION, [], first);
    forall x ensures ObservedAt([first], x) == if x == 1 then Some(first.timestamp) else None {
      ObservedSnoc([], first, x);
    }
    assert [] + [first] == [first];
  }

  lemma {:induction false} FillsTheGap(filler: TcpPacket, held: Timestamped)
    requires filler.seqNo == 2 && |filler.payload| == 1
    ensures Handle(SessionState(2, map[3 := held]), filler).chunks == [filler.Chunk(), held]
  {
    var st := SessionState(3, map[3 := held]);
    assert Popped(st) == SessionState(3 + |held.data|, map[]);
    assert Flush(Popped(st)) == Delivery([], Popped(st));
    assert Flush(st) == Prepend(held, Flush(Popped(st)));
  }

  /** An overlapping segment moves one too, although no number arrives twice: byte 3 waits, and comes out with the time
      of the longer segment that brings it again. */
  lemma {:induction false} OverlapMovesTime(first: TcpPacket, held: TcpPacket, long: TcpPacket)
    requires first.seqNo == 1 && |first.payload| == 1
    requires held.seqNo == 3 && |held.payload| == 1
    requires long.seqNo == 2 && |long.payload| == 2 && long.timestamp != held.timestamp
    ensures RunFrom(NEW_SESSION, [first, held, long]).chunks == [first.Chunk(), long.Chunk()]
    ensures ObservedAt([first, held, long], 3) == Some(held.timestamp)
    ensures Redates([first, held], long, 3)
  {
    OneWaits(first, held);
    RunSnoc(NEW_SESSION, [first, held], long);
    ObservedSnoc([first, held], long, 3);
    assert [first, held] + [long] == [first, held, long];
  }

  /** An empty packet brings no byte, so it fixes no time: the segment that follows it keeps its own. */
  lemma {:induction false} EmptyPacketDatesNothing(first: TcpPacket, empty: TcpPacket, data: TcpPacket)
    requires first.seqNo == 1 && |first.payload| == 1
    requires empty.seqNo == data.seqNo == 2 && empty.payload == [] && |data.payload| == 1
    ensures RunFrom(NEW_SESSION, [first, empty, data]).chunks == [first.Chunk(), data.Chunk()]
    ensures ObservedAt([first, empty, data], 2) == Some(data.timestamp)
    ensures NeverRedated([first, empty, data], 2)
  {
    OneReleased(first);
    RunSnoc(NEW_SESSION, [first], empty);
    RunSnoc(NEW_SESSION, [first, empty], data);
    ObservedSnoc([first], empty, 2);
    ObservedSnoc([first, empty], data, 2);
    NeverRedatedSnoc([], first, 2);
    NeverRedatedSnoc([first], empty, 2);
    NeverRedatedSnoc([first, empty], data, 2);
    assert [] + [first] == [first] && [first] + [empty] == [first, empty];
    assert [first, empty] + [data] == [first, empty, data];
  }

  lemma {:induction false} NeverRedatedSnoc(ps: seq<TcpPacket>, p: TcpPacket, x: nat)
    ensures NeverRedated(ps + [p], x) <==> NeverRedated(ps, x) && !Redates(ps, p, x)
  {
    assert (ps + [p])[..|ps|] == ps;
  }
}
