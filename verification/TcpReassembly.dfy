/** Reassembly of one TCP session on values: what a packet does to the session, and what whole runs deliver.
    Sequence numbers are unbounded, as in the code. */
module TcpReassembly {
  import opened Prelude
  import opened Framing

  datatype TcpPacket = TcpPacket(
    srcIp: string,
    srcPort: int,
    dstIp: string,
    dstPort: int,
    seqNo: nat,
    payload: seq<byte>,
    timestamp: int,
    fin: bool
  ) {
    function Chunk(): Timestamped {
      Timestamped(timestamp, payload)
    }
  }

  /** `expected` is zero until the session is initialised. */
  datatype SessionState = SessionState(expected: nat, buffered: map<nat, Timestamped>)

  const NEW_SESSION := SessionState(0, map[])

  datatype Delivery = Delivery(chunks: seq<Timestamped>, state: SessionState)

  function BytesOf(chunks: seq<Timestamped>): seq<byte> {
    if chunks == [] then [] else chunks[0].data + BytesOf(chunks[1..])
  }

  /** The session after releasing the segment that starts at the expected number. */
  function Popped(st: SessionState): SessionState
    requires st.expected in st.buffered
  {
    SessionState(st.expected + |st.buffered[st.expected].data|, st.buffered - {st.expected})
  }

  lemma {:induction false} PoppedShrinks(st: SessionState)
    requires st.expected in st.buffered
    ensures |Popped(st).buffered| < |st.buffered|
  {
    var rest := Popped(st).buffered;
    assert rest.Keys == st.buffered.Keys - {st.expected};
    assert |rest.Keys| < |st.buffered.Keys|;
  }

  /** Releases buffered segments as long as one starts at the expected number. */
  function Flush(st: SessionState): Delivery
    decreases |st.buffered|
  {
    if st.expected !in st.buffered then Delivery([], st)
    else
      PoppedShrinks(st);
      Prepend(st.buffered[st.expected], Flush(Popped(st)))
  }

  function Prepend(chunk: Timestamped, d: Delivery): Delivery {
    Delivery([chunk] + d.chunks, d.state)
  }

  function Handle(st: SessionState, p: TcpPacket): Delivery {
    var expected := if st.expected == 0 then p.seqNo else st.expected;
    if p.seqNo < expected then Delivery([], st.(expected := expected))
    else if p.seqNo > expected then Delivery([], SessionState(expected, st.buffered[p.seqNo := p.Chunk()]))
    else if p.payload == [] then Delivery([], st.(expected := expected))
    else Prepend(p.Chunk(), Flush(SessionState(expected + |p.payload|, st.buffered)))
  }

  function RunFrom(st: SessionState, ps: seq<TcpPacket>): Delivery {
    if ps == [] then Delivery([], st)
    else
      var before := RunFrom(st, ps[..|ps| - 1]);
      var step := Handle(before.state, ps[|ps| - 1]);
      Delivery(before.chunks + step.chunks, step.state)
  }

  lemma {:induction false} RunSnoc(st: SessionState, ps: seq<TcpPacket>, p: TcpPacket)
    ensures var before := RunFrom(st, ps);
      var step := Handle(before.state, p);
      RunFrom(st, ps + [p]) == Delivery(before.chunks + step.chunks, step.state)
  {
    assert (ps + [p])[..|ps|] == ps;
  }

  lemma {:induction false} BytesSplit(a: seq<Timestamped>, b: seq<Timestamped>)
    ensures BytesOf(a + b) == BytesOf(a) + BytesOf(b)
  {
    if a == [] {
      assert a + b == b;
    } else {
      assert (a + b)[1..] == a[1..] + b;
      BytesSplit(a[1..], b);
    }
  }

  // Where the stream starts.

  /** A first packet fixes the start of the stream unless it is empty and carries the sentinel number zero. */
  predicate Pins(p: TcpPacket) {
    p.seqNo != 0 || p.payload != []
  }

  function Origin(ps: seq<TcpPacket>): Option<nat> {
    if ps == [] then None
    else
      var before := Origin(ps[..|ps| - 1]);
      if before.Some? || !Pins(ps[|ps| - 1]) then before else Some(ps[|ps| - 1].seqNo)
  }

  lemma {:induction false} OriginStays(past: seq<TcpPacket>, p: TcpPacket)
    requires Origin(past).Some?
    ensures Origin(past + [p]) == Origin(past)
  {
    assert (past + [p])[..|past|] == past;
  }

  lemma {:induction false} FirstPacketPins(ps: seq<TcpPacket>)
    requires ps != [] && Pins(ps[0])
    ensures Origin(ps) == Some(ps[0].seqNo)
  {
    if |ps| == 1 {
      assert ps[..0] == [];
      assert Origin(ps[..0]) == None;
    } else {
      FirstPacketPins(ps[..|ps| - 1]);
    }
  }

  /** The sentinel in action: an empty packet with number zero leaves the session uninitialised, so the stream starts
      at the next packet and the bytes in between are never awaited. */
  lemma {:induction false} ZeroDoesNotPin(a: TcpPacket, b: TcpPacket)
    requires !Pins(a) && Pins(b)
    ensures Origin([a, b]) == Some(b.seqNo)
    ensures b.payload != [] ==> RunFrom(NEW_SESSION, [a, b]).chunks == [b.Chunk()]
  {
    assert [a, b][..1] == [a] && [a][..0] == [];
    assert RunFrom(NEW_SESSION, [a]) == Delivery([], NEW_SESSION) by {
      assert RunFrom(NEW_SESSION, []) == Delivery([], NEW_SESSION);
    }
    assert Origin([]) == None && Origin([a]) == None;
  }

  // Safety: under loss, reordering, duplication and overlap, only gap-free bytes come out.

  predicate IsSlice(stream: seq<byte>, p: TcpPacket) {
    p.seqNo + |p.payload| <= |stream| && p.payload == stream[p.seqNo..p.seqNo + |p.payload|]
  }

  predicate HoldsSlices(stream: seq<byte>, buffered: map<nat, Timestamped>) {
    forall q :: q in buffered ==>
      q + |buffered[q].data| <= |stream| && buffered[q].data == stream[q..q + |buffered[q].data|]
  }

  lemma {:induction false} PrependSafe(stream: seq<byte>, chunk: Timestamped, at: nat, d: Delivery)
    requires at + |chunk.data| <= d.state.expected <= |stream|
    requires chunk.data == stream[at..at + |chunk.data|]
    requires BytesOf(d.chunks) == stream[at + |chunk.data|..d.state.expected]
    ensures BytesOf(Prepend(chunk, d).chunks) == stream[at..d.state.expected]
  {
    assert ([chunk] + d.chunks)[1..] == d.chunks;
  }

  lemma {:induction false} FlushSafe(stream: seq<byte>, st: SessionState)
    requires HoldsSlices(stream, st.buffered) && st.expected <= |stream|
    ensures var d := Flush(st);
      && st.expected <= d.state.expected <= |stream|
      && BytesOf(d.chunks) == stream[st.expected..d.state.expected]
      && HoldsSlices(stream, d.state.buffered)
    decreases |st.buffered|
  {
    if st.expected in st.buffered {
      var chunk, next := st.buffered[st.expected], Popped(st);
      PoppedShrinks(st);
      FlushSafe(stream, next);
      PrependSafe(stream, chunk, st.expected, Flush(next));
    }
  }

  predicate Gapless(stream: seq<byte>, origin: Option<nat>, d: Delivery) {
    match origin
    case None => d == Delivery([], NEW_SESSION)
    case Some(o) =>
      && o <= d.state.expected <= |stream| && 0 < d.state.expected
      && BytesOf(d.chunks) == stream[o..d.state.expected]
  }

  /** The chunks of a run concatenate to the slice of the stream from its origin to the expected number. */
  lemma {:induction false} ReassemblySafety(stream: seq<byte>, ps: seq<TcpPacket>)
    requires forall i :: 0 <= i < |ps| ==> IsSlice(stream, ps[i])
    ensures Gapless(stream, Origin(ps), RunFrom(NEW_SESSION, ps))
    ensures HoldsSlices(stream, RunFrom(NEW_SESSION, ps).state.buffered)
  {
    if ps != [] {
      var past, p := ps[..|ps| - 1], ps[|ps| - 1];
      assert IsSlice(stream, p);
      ReassemblySafety(stream, past);
      GaplessStep(stream, Origin(past), RunFrom(NEW_SESSION, past), p);
    }
  }

  lemma {:induction false} GaplessStep(stream: seq<byte>, origin: Option<nat>, before: Delivery, p: TcpPacket)
    requires Gapless(stream, origin, before) && HoldsSlices(stream, before.state.buffered) && IsSlice(stream, p)
    ensures var step := Handle(before.state, p);
      && Gapless(stream, if origin.Some? || !Pins(p) then origin else Some(p.seqNo),
                 Delivery(before.chunks + step.chunks, step.state))
      && HoldsSlices(stream, step.state.buffered)
  {
    HandleSafe(stream, before.state, p);
    var step := Handle(before.state, p);
    BytesSplit(before.chunks, step.chunks);
    if origin.Some? {
      SlicesJoin(stream, origin.value, before.state.expected, step.state.expected);
    } else {
      assert before.chunks + step.chunks == step.chunks;
    }
  }

  lemma {:induction false} SlicesJoin(stream: seq<byte>, a: nat, b: nat, c: nat)
    requires a <= b <= c <= |stream|
    ensures stream[a..b] + stream[b..c] == stream[a..c]
  {
  }

  lemma {:induction false} HandleSafe(stream: seq<byte>, st: SessionState, p: TcpPacket)
    requires HoldsSlices(stream, st.buffered) && st.expected <= |stream| && IsSlice(stream, p)
    requires st.expected == 0 ==> st == NEW_SESSION
    ensures var d := Handle(st, p);
      var from := if st.expected == 0 then p.seqNo else st.expected;
      && HoldsSlices(stream, d.state.buffered)
      && from <= d.state.expected <= |stream|
      && BytesOf(d.chunks) == stream[from..d.state.expected]
      && (d.state.expected == 0 ==> d == Delivery([], NEW_SESSION))
      && (d.state.expected == 0 <==> st.expected == 0 && !Pins(p))
  {
    var from := if st.expected == 0 then p.seqNo else st.expected;
    if p.seqNo == from && p.payload != [] {
      ReleaseSafe(stream, st.buffered, p);
    } else if p.seqNo > from {
      BufferSafe(stream, st.buffered, p);
    }
  }

  lemma {:induction false} ReleaseSafe(stream: seq<byte>, buffered: map<nat, Timestamped>, p: TcpPacket)
    requires HoldsSlices(stream, buffered) && IsSlice(stream, p)
    ensures var d := Prepend(p.Chunk(), Flush(SessionState(p.seqNo + |p.payload|, buffered)));
      && HoldsSlices(stream, d.state.buffered)
      && p.seqNo + |p.payload| <= d.state.expected <= |stream|
      && BytesOf(d.chunks) == stream[p.seqNo..d.state.expected]
  {
    var next := SessionState(p.seqNo + |p.payload|, buffered);
    FlushSafe(stream, next);
    PrependSafe(stream, p.Chunk(), p.seqNo, Flush(next));
  }

  lemma {:induction false} BufferSafe(stream: seq<byte>, buffered: map<nat, Timestamped>, p: TcpPacket)
    requires HoldsSlices(stream, buffered) && IsSlice(stream, p)
    ensures HoldsSlices(stream, buffered[p.seqNo := p.Chunk()])
  {
  }

  // Provenance: a chunk is the packet that arrived last with its number before the chunk came out.

  function LatestAt(ps: seq<TcpPacket>, q: nat): Option<Timestamped> {
    if ps == [] then None
    else if ps[|ps| - 1].seqNo == q then Some(ps[|ps| - 1].Chunk())
    else LatestAt(ps[..|ps| - 1], q)
  }

  predicate ReleasesLatest(ps: seq<TcpPacket>, at: nat, chunks: seq<Timestamped>)
    decreases |chunks|
  {
    chunks == [] || (LatestAt(ps, at) == Some(chunks[0]) && ReleasesLatest(ps, at + |chunks[0].data|, chunks[1..]))
  }

  /** What still waits for its turn is the latest arrival with its number; segments that were overtaken stay as they
      are. */
  predicate HoldsLatest(ps: seq<TcpPacket>, st: SessionState) {
    forall q :: q in st.buffered && st.expected <= q ==> LatestAt(ps, q) == Some(st.buffered[q])
  }

  lemma {:induction false} LatestSnoc(ps: seq<TcpPacket>, p: TcpPacket, q: nat)
    ensures LatestAt(ps + [p], q) == if p.seqNo == q then Some(p.Chunk()) else LatestAt(ps, q)
  {
    assert (ps + [p])[..|ps|] == ps;
  }

  lemma {:induction false} PrependLatest(ps: seq<TcpPacket>, chunk: Timestamped, at: nat, d: Delivery)
    requires LatestAt(ps, at) == Some(chunk) && ReleasesLatest(ps, at + |chunk.data|, d.chunks)
    ensures ReleasesLatest(ps, at, Prepend(chunk, d).chunks)
    ensures |BytesOf(Prepend(chunk, d).chunks)| == |chunk.data| + |BytesOf(d.chunks)|
  {
    assert ([chunk] + d.chunks)[1..] == d.chunks;
  }

  lemma {:induction false} FlushLatest(ps: seq<TcpPacket>, st: SessionState)
    requires HoldsLatest(ps, st)
    ensures var d := Flush(st);
      && ReleasesLatest(ps, st.expected, d.chunks)
      && d.state.expected == st.expected + |BytesOf(d.chunks)| && d.state.expected !in d.state.buffered
      && HoldsLatest(ps, d.state)
    decreases |st.buffered|
  {
    if st.expected in st.buffered {
      var chunk, next := st.buffered[st.expected], Popped(st);
      PoppedShrinks(st);
      FlushLatest(ps, next);
      PrependLatest(ps, chunk, st.expected, Flush(next));
    }
  }

  /** Between packets nothing that could be released is held back. */
  predicate Settled(ps: seq<TcpPacket>, st: SessionState) {
    && HoldsLatest(ps, st)
    && st.expected !in st.buffered
    && (st.expected == 0 ==> st == NEW_SESSION)
  }

  lemma {:induction false} HandleLatest(past: seq<TcpPacket>, st: SessionState, p: TcpPacket)
    requires Settled(past, st)
    ensures var d := Handle(st, p);
      var from := if st.expected == 0 then p.seqNo else st.expected;
      && ReleasesLatest(past + [p], from, d.chunks)
      && d.state.expected == from + |BytesOf(d.chunks)|
      && Settled(past + [p], d.state)
      && (d.state.expected == 0 ==> d.chunks == [])
      && (d.state.expected == 0 <==> st.expected == 0 && !Pins(p))
  {
    var from := if st.expected == 0 then p.seqNo else st.expected;
    forall q ensures LatestAt(past + [p], q) == if p.seqNo == q then Some(p.Chunk()) else LatestAt(past, q) {
      LatestSnoc(past, p, q);
    }
    if p.seqNo == from && p.payload != [] {
      var next := SessionState(from + |p.payload|, st.buffered);
      FlushLatest(past + [p], next);
      PrependLatest(past + [p], p.Chunk(), from, Flush(next));
    }
  }

  /** With no assumption on the packets, chunks come out back to back from the origin. */
  lemma {:induction false} RunSettles(ps: seq<TcpPacket>)
    ensures var d := RunFrom(NEW_SESSION, ps);
      && Settled(ps, d.state)
      && (match Origin(ps)
          case None => d == Delivery([], NEW_SESSION)
          case Some(o) => d.state.expected == o + |BytesOf(d.chunks)| && 0 < d.state.expected)
  {
    if ps != [] {
      var past, p := ps[..|ps| - 1], ps[|ps| - 1];
      assert ps == past + [p];
      RunSettles(past);
      var before := RunFrom(NEW_SESSION, past);
      HandleLatest(past, before.state, p);
      BytesSplit(before.chunks, Handle(before.state, p).chunks);
    }
  }

  /** The index of the packet whose arrival released chunk `i`. */
  function ReleasedBy(ps: seq<TcpPacket>, i: nat): (n: nat)
    requires i < |RunFrom(NEW_SESSION, ps).chunks|
    ensures n < |ps|
    ensures |RunFrom(NEW_SESSION, ps[..n]).chunks| <= i < |RunFrom(NEW_SESSION, ps[..n + 1]).chunks|
  {
    var last := |ps| - 1;
    WholePrefix(ps);
    if i < |RunFrom(NEW_SESSION, ps[..last]).chunks| then
      var n := ReleasedBy(ps[..last], i);
      assert ps[..last][..n] == ps[..n] && ps[..last][..n + 1] == ps[..n + 1];
      n
    else last
  }

  /** The packets that had arrived when chunk `i` came out. */
  function ArrivedBefore(ps: seq<TcpPacket>, i: nat): seq<TcpPacket>
    requires i < |RunFrom(NEW_SESSION, ps).chunks|
  {
    ps[..ReleasedBy(ps, i) + 1]
  }

  /** The sequence number of chunk `i`: the bytes before it count from the origin. */
  function NumberOf(ps: seq<TcpPacket>, i: nat): nat
    requires Origin(ps).Some? && i < |RunFrom(NEW_SESSION, ps).chunks|
  {
    Origin(ps).value + |BytesOf(RunFrom(NEW_SESSION, ps).chunks[..i])|
  }

  lemma {:induction false} ReleasesLatestAt(ps: seq<TcpPacket>, at: nat, chunks: seq<Timestamped>, j: nat)
    requires ReleasesLatest(ps, at, chunks) && j < |chunks|
    ensures LatestAt(ps, at + |BytesOf(chunks[..j])|) == Some(chunks[j])
    decreases |chunks|
  {
    if j > 0 {
      ReleasesLatestAt(ps, at + |chunks[0].data|, chunks[1..], j - 1);
      assert chunks[..j][1..] == chunks[1..][..j - 1];
    }
  }

  /** Every chunk is the packet that arrived last with the chunk's number before the chunk came out: its data and its
      own time, whichever packet unblocked it. */
  lemma {:induction false} ChunkProvenance(ps: seq<TcpPacket>, i: nat)
    requires i < |RunFrom(NEW_SESSION, ps).chunks|
    ensures Origin(ps).Some?
    ensures LatestAt(ArrivedBefore(ps, i), NumberOf(ps, i)) == Some(RunFrom(NEW_SESSION, ps).chunks[i])
  {
    var past, p := ps[..|ps| - 1], ps[|ps| - 1];
    Rejoin(ps);
    if i < |RunFrom(NEW_SESSION, past).chunks| {
      ChunkProvenance(past, i);
    }
    ProvenanceStep(past, p, i);
  }

  lemma {:induction false} ProvenanceStep(past: seq<TcpPacket>, p: TcpPacket, i: nat)
    requires i < |RunFrom(NEW_SESSION, past + [p]).chunks|
    requires i < |RunFrom(NEW_SESSION, past).chunks| ==>
      && Origin(past).Some?
      && LatestAt(ArrivedBefore(past, i), NumberOf(past, i)) == Some(RunFrom(NEW_SESSION, past).chunks[i])
    ensures Origin(past + [p]).Some?
    ensures LatestAt(ArrivedBefore(past + [p], i), NumberOf(past + [p], i))
      == Some(RunFrom(NEW_SESSION, past + [p]).chunks[i])
  {
    RunSettles(past + [p]);
    RunSnoc(NEW_SESSION, past, p);
    if i < |RunFrom(NEW_SESSION, past).chunks| {
      EarlierChunk(past, p, i);
    } else {
      JustReleased(past, p, i);
      LastChunks(past, p, i - |RunFrom(NEW_SESSION, past).chunks|);
    }
  }

  /** A later packet changes nothing about a chunk that has come out. */
  lemma {:induction false} EarlierChunk(past: seq<TcpPacket>, p: TcpPacket, i: nat)
    requires i < |RunFrom(NEW_SESSION, past).chunks| && Origin(past).Some?
    ensures i < |RunFrom(NEW_SESSION, past + [p]).chunks| && Origin(past + [p]).Some?
    ensures RunFrom(NEW_SESSION, past + [p]).chunks[i] == RunFrom(NEW_SESSION, past).chunks[i]
    ensures NumberOf(past + [p], i) == NumberOf(past, i)
    ensures ReleasedBy(past + [p], i) == ReleasedBy(past, i)
    ensures ArrivedBefore(past + [p], i) == ArrivedBefore(past, i)
  {
    var ps := past + [p];
    assert ps[..|ps| - 1] == past;
    RunSnoc(NEW_SESSION, past, p);
    assert RunFrom(NEW_SESSION, ps).chunks[..i] == RunFrom(NEW_SESSION, past).chunks[..i];
    var n := ReleasedBy(past, i);
    assert past[..n + 1] == ps[..n + 1];
  }

  lemma {:induction false} JustReleased(past: seq<TcpPacket>, p: TcpPacket, i: nat)
    requires |RunFrom(NEW_SESSION, past).chunks| <= i < |RunFrom(NEW_SESSION, past + [p]).chunks|
    ensures ReleasedBy(past + [p], i) == |past| && ArrivedBefore(past + [p], i) == past + [p]
  {
    var ps := past + [p];
    assert ps[..|ps| - 1] == past;
    WholePrefix(ps);
  }

  /** Where the chunks released by `p` start. */
  function NumberAfter(past: seq<TcpPacket>, p: TcpPacket): nat {
    var expected := RunFrom(NEW_SESSION, past).state.expected;
    if expected == 0 then p.seqNo else expected
  }

  lemma {:induction false} FlushKeeps(st: SessionState)
    ensures forall q :: q in Flush(st).state.buffered ==>
      q in st.buffered && Flush(st).state.buffered[q] == st.buffered[q]
    decreases |st.buffered|
  {
    if st.expected in st.buffered {
      PoppedShrinks(st);
      FlushKeeps(Popped(st));
    }
  }

  /** Chunk `j` of what the last packet releases, placed in the run. */
  lemma {:induction false} NumberInStep(past: seq<TcpPacket>, p: TcpPacket, j: nat)
    requires Origin(past + [p]).Some?
    requires j < |Handle(RunFrom(NEW_SESSION, past).state, p).chunks|
    ensures var before, all := RunFrom(NEW_SESSION, past).chunks, RunFrom(NEW_SESSION, past + [p]).chunks;
      var step := Handle(RunFrom(NEW_SESSION, past).state, p).chunks;
      && all == before + step && |before| + j < |all| && all[|before| + j] == step[j]
      && NumberOf(past + [p], |before| + j) == NumberAfter(past, p) + |BytesOf(step[..j])|
  {
    RunSnoc(NEW_SESSION, past, p);
    BytesUpTo(RunFrom(NEW_SESSION, past).chunks, Handle(RunFrom(NEW_SESSION, past).state, p).chunks, j);
    StartOfStep(past, p);
  }

  lemma {:induction false} BytesUpTo(a: seq<Timestamped>, b: seq<Timestamped>, j: nat)
    requires j <= |b|
    ensures |BytesOf((a + b)[..|a| + j])| == |BytesOf(a)| + |BytesOf(b[..j])|
  {
    BytesSplit(a, b[..j]);
    assert (a + b)[..|a| + j] == a + b[..j];
  }

  lemma {:induction false} StartOfStep(past: seq<TcpPacket>, p: TcpPacket)
    requires Origin(past + [p]).Some?
    ensures NumberAfter(past, p) == Origin(past + [p]).value + |BytesOf(RunFrom(NEW_SESSION, past).chunks)|
  {
    RunSettles(past);
    assert (past + [p])[..|past|] == past;
  }

  lemma {:induction false} LastChunks(past: seq<TcpPacket>, p: TcpPacket, j: nat)
    requires Origin(past + [p]).Some?
    requires j < |Handle(RunFrom(NEW_SESSION, past).state, p).chunks|
    ensures var i := |RunFrom(NEW_SESSION, past).chunks| + j;
      && i < |RunFrom(NEW_SESSION, past + [p]).chunks|
      && LatestAt(past + [p], NumberOf(past + [p], i)) == Some(RunFrom(NEW_SESSION, past + [p]).chunks[i])
  {
    NumberInStep(past, p, j);
    StepLatest(past, p, j);
  }

  lemma {:induction false} StepLatest(past: seq<TcpPacket>, p: TcpPacket, j: nat)
    requires j < |Handle(RunFrom(NEW_SESSION, past).state, p).chunks|
    ensures var step := Handle(RunFrom(NEW_SESSION, past).state, p).chunks;
      LatestAt(past + [p], NumberAfter(past, p) + |BytesOf(step[..j])|) == Some(step[j])
  {
    var st := RunFrom(NEW_SESSION, past).state;
    RunSettles(past);
    HandleLatest(past, st, p);
    ReleasesLatestAt(past + [p], NumberAfter(past, p), Handle(st, p).chunks, j);
  }
}
