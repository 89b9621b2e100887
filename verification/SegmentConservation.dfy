/** Every byte of a capture is accounted for: it came out, or it is counted as discarded. */
module SegmentConservation {
  import opened Prelude
  import opened Framing
  import opened TcpReassembly
  import opened SegmentDelivery
  import opened Sessions

  /** The bytes of all segments that arrived, each segment once. */
  function SeenBytes(cuts: seq<nat>, order: seq<nat>): int
    requires forall i :: i in order ==> i < |cuts| - 1
  {
    if order == [] then 0
    else
      var n := |order| - 1;
      assert order[n] in order && forall i :: i in order[..n] ==> i in order;
      SeenBytes(cuts, order[..n]) + if order[n] in order[..n] then 0 else End(cuts, order[n]) - Start(cuts, order[n])
  }

  ghost function Held(buffered: map<nat, Timestamped>): nat {
    Total(DataSizes(buffered))
  }

  lemma {:induction false} HeldWithout(buffered: map<nat, Timestamped>, q: nat)
    requires q in buffered
    ensures Held(buffered) == |buffered[q].data| + Held(buffered - {q})
  {
    TotalPick(DataSizes(buffered), q);
    assert DataSizes(buffered) - {q} == DataSizes(buffered - {q});
  }

  lemma {:induction false} HeldWith(buffered: map<nat, Timestamped>, q: nat, chunk: Timestamped)
    ensures Held(buffered[q := chunk]) ==
      Held(buffered) + |chunk.data| - if q in buffered then |buffered[q].data| else 0
  {
    HeldWithout(buffered[q := chunk], q);
    assert buffered[q := chunk] - {q} == buffered - {q};
    if q in buffered {
      HeldWithout(buffered, q);
    } else {
      assert buffered - {q} == buffered;
    }
  }

  lemma {:induction false} FlushConserves(st: SessionState)
    ensures Flush(st).state.expected + Held(Flush(st).state.buffered) == st.expected + Held(st.buffered)
    decreases |st.buffered|
  {
    if st.expected in st.buffered {
      PoppedShrinks(st);
      HeldWithout(st.buffered, st.expected);
      FlushConserves(Popped(st));
    }
  }

  lemma {:induction false} ReleaseConserves(st: SessionState, p: TcpPacket)
    requires 0 < st.expected == p.seqNo && p.payload != []
    ensures var after := Handle(st, p).state;
      after.expected + Held(after.buffered) == st.expected + Held(st.buffered) + |p.payload|
  {
    FlushConserves(SessionState(st.expected + |p.payload|, st.buffered));
  }

  /** A segment that arrives again adds nothing; a new one adds its bytes to what came out or to what waits. */
  lemma {:induction false} StepConserves(stream: seq<byte>, cuts: seq<nat>, st: SessionState, seen: set<nat>, i: nat,
                                         p: TcpPacket)
    requires IsCutting(stream, cuts) && NoInteriorEmpty(cuts) && Underway(stream, cuts, st, seen) && 0 < st.expected
    requires i < |cuts| - 1 && IsSegment(stream, cuts, i, p)
    ensures var after := Handle(st, p).state;
      after.expected + Held(after.buffered) == st.expected + Held(st.buffered)
        + if i in seen then 0 else End(cuts, i) - Start(cuts, i)
  {
    assert cuts[i] <= cuts[i + 1];
    assert |p.payload| == End(cuts, i) - Start(cuts, i);
    if p.seqNo < st.expected {
      RetransmitProgress(stream, cuts, st, i);
    } else if p.seqNo > st.expected {
      HeldWith(st.buffered, p.seqNo, p.Chunk());
      BufferedBefore(stream, cuts, st, seen, i);
    } else if p.payload != [] {
      ReleaseConserves(st, p);
      if i in seen {
        SeenIsNotAwaited(stream, cuts, st, seen, i);
      }
    }
  }

  /** What is buffered at a segment's number has the segment's size, and is there if the segment was seen. */
  lemma {:induction false} BufferedBefore(stream: seq<byte>, cuts: seq<nat>, st: SessionState, seen: set<nat>, i: nat)
    requires IsCutting(stream, cuts) && NoInteriorEmpty(cuts) && Underway(stream, cuts, st, seen)
    requires i < |cuts| - 1 && st.expected < Start(cuts, i)
    ensures var size := End(cuts, i) - Start(cuts, i);
      (if Start(cuts, i) in st.buffered then |st.buffered[Start(cuts, i)].data| else 0) == if i in seen then size else 0
  {
    var q := Start(cuts, i);
    assert cuts[i] <= cuts[i + 1];
    if i in seen {
      assert Delivered(stream, cuts, st, i);
    } else if q in st.buffered {
      assert IsSegmentAt(stream, cuts, q, st.buffered[q].data, seen);
      var m :| m in seen && m < |cuts| - 1 && Start(cuts, m) == q && st.buffered[q].data == Segment(stream, cuts, m);
      SharedStart(stream, cuts, i, m);
      assert if m < i then cuts[m + 1] <= cuts[i] else cuts[i + 1] <= cuts[m];
    }
  }

  lemma {:induction false} UnpinnedBytes(stream: seq<byte>, cuts: seq<nat>, order: seq<nat>, ps: seq<TcpPacket>)
    requires IsCutting(stream, cuts) && AreSegments(stream, cuts, order, ps) && Origin(ps).None?
    ensures forall i :: i in order ==> i < |cuts| - 1
    ensures SeenBytes(cuts, order) == 0
  {
    assert forall i :: i in order ==> i < |cuts| - 1;
    if order != [] {
      var n := |order| - 1;
      UnpinnedBytes(stream, cuts, order[..n], ps[..n]);
      UnpinnedAreEmpty(stream, cuts, order, ps);
    }
  }

  lemma {:induction false} RunConserves(stream: seq<byte>, cuts: seq<nat>, order: seq<nat>, ps: seq<TcpPacket>)
    requires IsCutting(stream, cuts) && NoInteriorEmpty(cuts)
    requires AreSegments(stream, cuts, order, ps) && Origin(ps) == Some(cuts[0])
    ensures forall i :: i in order ==> i < |cuts| - 1
    ensures var st := RunFrom(NEW_SESSION, ps).state;
      st.expected + Held(st.buffered) == cuts[0] + SeenBytes(cuts, order)
  {
    var n := |ps| - 1;
    var past, before := ps[..n], RunFrom(NEW_SESSION, ps[..n]).state;
    assert forall i :: i in order ==> i < |cuts| - 1;
    SeenAll(order[..n]);
    RunSettles(past);
    if Origin(past).Some? {
      RunConserves(stream, cuts, order[..n], past);
      RunProgress(stream, cuts, order[..n], past);
      StepConserves(stream, cuts, before, Seen(order[..n]), order[n], ps[n]);
    } else {
      UnpinnedBytes(stream, cuts, order[..n], past);
      UnpinnedAreEmpty(stream, cuts, order[..n], past);
      FirstProgress(stream, cuts, Seen(order[..n]), order[n], ps[n]);
    }
  }

  /** For a capture of segments that starts at the first of them: the bytes that came out and the bytes that wait
      together are those of all segments that arrived, each segment once. */
  lemma {:induction false} BytesAreConserved(stream: seq<byte>, cuts: seq<nat>, order: seq<nat>, ps: seq<TcpPacket>)
    requires IsCutting(stream, cuts) && NoInteriorEmpty(cuts)
    requires AreSegments(stream, cuts, order, ps) && Origin(ps) == Some(cuts[0])
    ensures forall i :: i in order ==> i < |cuts| - 1
    ensures var d := RunFrom(NEW_SESSION, ps);
      |BytesOf(d.chunks)| + Total(DataSizes(d.state.buffered)) == SeenBytes(cuts, order)
  {
    RunConserves(stream, cuts, order, ps);
    RunSettles(ps);
  }
}
