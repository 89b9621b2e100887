/** Packets to framed SIP messages: reassembly feeding the decoder, and the discard at the end of the stream. */
module ParserPipelines {
  import opened Prelude
  import opened Framing
  import opened MessageDecoders
  import opened TcpReassembly
  import opened SegmentDelivery
  import opened SegmentConservation
  import opened ObservationTimes
  import opened Sessions
  import opened TcpReassemblers

  /** One observation time per released byte. */
  function TimesOf(chunks: seq<Timestamped>): seq<int> {
    if chunks == [] then [] else Repeat(chunks[0].timestamp, |chunks[0].data|) + TimesOf(chunks[1..])
  }

  lemma {:induction false} TimesSplit(a: seq<Timestamped>, b: seq<Timestamped>)
    ensures TimesOf(a + b) == TimesOf(a) + TimesOf(b)
  {
    if a == [] {
      assert a + b == b;
    } else {
      assert (a + b)[1..] == a[1..] + b;
      TimesSplit(a[1..], b);
    }
  }

  lemma {:induction false} ReleaseOne(chunks: seq<Timestamped>, c: Timestamped)
    ensures BytesOf(chunks + [c]) == BytesOf(chunks) + c.data
    ensures TimesOf(chunks + [c]) == TimesOf(chunks) + Repeat(c.timestamp, |c.data|)
  {
    BytesSplit(chunks, [c]);
    TimesSplit(chunks, [c]);
    assert [c][1..] == [];
    assert BytesOf([c]) == c.data;
    assert TimesOf([c]) == Repeat(c.timestamp, |c.data|);
  }

  /** What the end of the stream threw away. */
  datatype Discarded = Discarded(segments: nat, bytes: nat, remainder: Option<Timestamped>)

  class ParserPipeline {
    const reassembler: TCPReassembler
    const decoder: MessageDecoder

    /** Between streams: the decoder is empty, the sessions may go on. */
    ghost predicate Valid()
      reads this, decoder, reassembler.tracker, reassembler.tracker.repr
    {
      reassembler.tracker.Valid() && decoder.Valid() && decoder.fed == [] && decoder.framed == []
    }

    constructor ()
      ensures Valid() && fresh(decoder) && fresh(reassembler) && fresh(reassembler.tracker)
      ensures reassembler.tracker.states == map[]
    {
      reassembler := new TCPReassembler();
      decoder := new MessageDecoder();
    }

    /** Yields the framing of the released bytes, stamps each message with the time of its first byte, and reports the
        segments that are still buffered and the remainder that was not framed. */
    method ParseStream(packets: seq<TcpPacket>) returns (messages: seq<Timestamped>, discarded: Discarded)
      requires Valid()
      modifies decoder, reassembler.tracker, reassembler.tracker.repr
      ensures Valid()
      ensures var run := RunAll(old(reassembler.tracker.states), packets);
        && DataOf(messages) == Frame(BytesOf(run.chunks)).messages
        && FirstByteTimes(messages, TimesOf(run.chunks))
        && reassembler.tracker.states == Cleared(run.sessions)
        && IsHeld(run.sessions, discarded.segments, discarded.bytes)
        && IsRemainder(BytesOf(run.chunks), TimesOf(run.chunks), discarded.remainder)
    {
      ghost var ss := reassembler.tracker.states;
      ghost var released: seq<Timestamped> := [];
      messages := [];
      TakeEnds([], packets);
      for i := 0 to |packets|
        invariant reassembler.tracker.Valid() && decoder.Valid()
        invariant fresh(reassembler.tracker.repr - old(reassembler.tracker.repr))
        invariant RunAll(ss, packets[..i]) == Batch(released, reassembler.tracker.states)
        invariant decoder.fed == BytesOf(released) && decoder.times == TimesOf(released)
        invariant decoder.framed == messages
      {
        RunAllNext(ss, packets, i);
        var framed;
        ghost var chunks;
        framed, chunks := ParsePacket(packets[i], released);
        messages := messages + framed;
        released := released + chunks;
      }
      WholePrefix(packets);
      discarded := DiscardIncompleteBuffers();
    }

    /** One packet: what it releases goes through the decoder chunk by chunk. */
    method ParsePacket(packet: TcpPacket, ghost released: seq<Timestamped>)
      returns (messages: seq<Timestamped>, ghost chunks: seq<Timestamped>)
      requires reassembler.tracker.Valid() && decoder.Valid()
      requires decoder.fed == BytesOf(released) && decoder.times == TimesOf(released)
      modifies decoder, reassembler.tracker, reassembler.tracker.repr
      ensures reassembler.tracker.Valid() && decoder.Valid()
      ensures fresh(reassembler.tracker.repr - old(reassembler.tracker.repr))
      ensures Batch(chunks, reassembler.tracker.states) == ProcessIn(old(reassembler.tracker.states), packet)
      ensures decoder.fed == BytesOf(released + chunks) && decoder.times == TimesOf(released + chunks)
      ensures decoder.framed == old(decoder.framed) + messages
    {
      var output := reassembler.ProcessPacket(packet);
      messages := FeedAll(output, released);
      chunks := output;
    }

    method FeedAll(chunks: seq<Timestamped>, ghost released: seq<Timestamped>) returns (messages: seq<Timestamped>)
      requires decoder.Valid() && decoder.fed == BytesOf(released) && decoder.times == TimesOf(released)
      modifies decoder
      ensures decoder.Valid()
      ensures decoder.fed == BytesOf(released + chunks) && decoder.times == TimesOf(released + chunks)
      ensures decoder.framed == old(decoder.framed) + messages
    {
      messages := [];
      ghost var done := released;
      TakeEnds(released, chunks);
      for j := 0 to |chunks|
        invariant done == released + chunks[..j]
        invariant decoder.Valid()
        invariant decoder.fed == BytesOf(done) && decoder.times == TimesOf(done)
        invariant decoder.framed == old(decoder.framed) + messages
      {
        TakeOne(released, chunks, j);
        var framed := FeedOne(chunks[j], done);
        done := done + [chunks[j]];
        ConcatAssociates(old(decoder.framed), messages, framed);
        messages := messages + framed;
      }
    }

    method FeedOne(chunk: Timestamped, ghost released: seq<Timestamped>) returns (messages: seq<Timestamped>)
      requires decoder.Valid() && decoder.fed == BytesOf(released) && decoder.times == TimesOf(released)
      modifies decoder
      ensures decoder.Valid()
      ensures decoder.fed == BytesOf(released + [chunk]) && decoder.times == TimesOf(released + [chunk])
      ensures decoder.framed == old(decoder.framed) + messages
    {
      ReleaseOne(released, chunk);
      messages := decoder.Feed(chunk);
    }

    method DiscardIncompleteBuffers() returns (discarded: Discarded)
      requires reassembler.tracker.Valid() && decoder.Valid()
      modifies decoder, reassembler.tracker`states, reassembler.tracker.repr
      ensures Valid()
      ensures reassembler.tracker.states == Cleared(old(reassembler.tracker.states))
      ensures IsHeld(old(reassembler.tracker.states), discarded.segments, discarded.bytes)
      ensures IsRemainder(old(decoder.fed), old(decoder.times), discarded.remainder)
    {
      var segments, bytes := reassembler.DiscardIncomplete();
      var remainder := decoder.Flush();
      discarded := Discarded(segments, bytes, remainder);
    }
  }

  // What one session's packets are framed into, from a fresh pipeline. `ParseStream` yields exactly this framing.

  function Parsed(packets: seq<TcpPacket>): Framed {
    Frame(BytesOf(RunAll(map[], packets).chunks))
  }

  predicate OneSession(packets: seq<TcpPacket>) {
    forall i, j :: 0 <= i < |packets| && 0 <= j < |packets| ==> KeyOf(packets[i]) == KeyOf(packets[j])
  }

  lemma {:induction false} ParsedOneSession(packets: seq<TcpPacket>)
    requires OneSession(packets)
    ensures Parsed(packets) == Frame(BytesOf(RunFrom(NEW_SESSION, packets).chunks))
  {
    if packets != [] {
      SingleSession(map[], packets, KeyOf(packets[0]));
    }
  }

  /** Whatever is lost, reordered, duplicated or overlapping, the messages and the remainder make up the bytes received
      without a gap. */
  lemma {:induction false} FramesGapFreeBytes(stream: seq<byte>, packets: seq<TcpPacket>)
    requires OneSession(packets) && forall i :: 0 <= i < |packets| ==> IsSlice(stream, packets[i])
    requires Origin(packets).Some?
    ensures Origin(packets).value <= RunFrom(NEW_SESSION, packets).state.expected <= |stream|
    ensures IsFraming(stream[Origin(packets).value..RunFrom(NEW_SESSION, packets).state.expected], Parsed(packets))
  {
    ParsedOneSession(packets);
    ReassemblySafety(stream, packets);
    FrameIsFraming(stream[Origin(packets).value..RunFrom(NEW_SESSION, packets).state.expected]);
  }

  /** And no message is fabricated: they are the first messages of the stream as sent. */
  lemma {:induction false} NothingFabricated(stream: seq<byte>, packets: seq<TcpPacket>)
    requires OneSession(packets) && forall i :: 0 <= i < |packets| ==> IsSlice(stream, packets[i])
    ensures Origin(packets).None? ==> Parsed(packets).messages == []
    ensures Origin(packets).Some? ==>
      && Origin(packets).value <= |stream|
      && Parsed(packets).messages <= Frame(stream[Origin(packets).value..]).messages
  {
    ParsedOneSession(packets);
    ReassemblySafety(stream, packets);
    if Origin(packets).Some? {
      var o, expected := Origin(packets).value, RunFrom(NEW_SESSION, packets).state.expected;
      assert stream[o..expected] <= stream[o..];
      FramePrefix(stream[o..expected], stream[o..]);
    }
  }

  /** Reassembly composed with framing: an arrival order, with any duplicates, that brings every segment yields the
      messages and the remainder of the whole stream framed in order exactly when it starts at the first segment's
      number. */
  lemma {:induction false} AnyOrderParsesTheStream(stream: seq<byte>, cuts: seq<nat>, order: seq<nat>,
                                                   packets: seq<TcpPacket>)
    requires IsCutting(stream, cuts) && NoInteriorEmpty(cuts)
    requires Complete(stream, cuts, order, packets) && OneSession(packets)
    ensures cuts[0] <= Last(cuts)
    ensures Parsed(packets) == Frame(stream[cuts[0]..Last(cuts)]) <==>
      Origin(packets) == Some(cuts[0]) || cuts[0] == Last(cuts)
  {
    ParsedOneSession(packets);
    WholeExactly(stream, cuts, order, packets);
    FrameIsFraming(stream[cuts[0]..Last(cuts)]);
    FrameIsFraming(BytesOf(RunFrom(NEW_SESSION, packets).chunks));
  }

  /** A complete arrival is not reported as lossy: no segment and no byte is discarded. */
  lemma {:induction false} CompleteReportsNothing(stream: seq<byte>, cuts: seq<nat>, order: seq<nat>,
                                                  packets: seq<TcpPacket>, segments: nat, bytes: nat)
    requires IsCutting(stream, cuts) && NoInteriorEmpty(cuts)
    requires Complete(stream, cuts, order, packets) && OneSession(packets) && Origin(packets) == Some(cuts[0])
    requires IsHeld(RunAll(map[], packets).sessions, segments, bytes)
    ensures segments == 0 && bytes == 0
  {
    EveryOrderDelivers(stream, cuts, order, packets);
    HeldBySession(packets);
  }

  /** For a capture of segments that starts at the first of them and may miss others, the report is exact: no segment is
      counted exactly when every segment that arrived has come out, that is, when none lies beyond a missing one with
      data. A missing end is not noticed. The bytes that came out and the bytes counted are together those of all
      segments that arrived, each once. */
  lemma {:induction false} ReportIsExact(stream: seq<byte>, cuts: seq<nat>, order: seq<nat>, packets: seq<TcpPacket>,
                                         segments: nat, bytes: nat)
    requires IsCutting(stream, cuts) && NoInteriorEmpty(cuts)
    requires AreSegments(stream, cuts, order, packets) && OneSession(packets) && Origin(packets) == Some(cuts[0])
    requires IsHeld(RunAll(map[], packets).sessions, segments, bytes)
    ensures segments == 0 <==> forall i :: i in order ==> End(cuts, i) <= RunFrom(NEW_SESSION, packets).state.expected
    ensures segments == 0 <==> NoHole(cuts, order)
    ensures |BytesOf(RunFrom(NEW_SESSION, packets).chunks)| + bytes == SeenBytes(cuts, order)
  {
    BytesAreConserved(stream, cuts, order, packets);
    DiscardIsLoss(stream, cuts, order, packets);
    DiscardShowsHolesExactly(stream, cuts, order, packets);
    HeldBySession(packets);
  }

  /** The report counts what the one session still has in its buffer. */
  lemma {:induction false} HeldBySession(packets: seq<TcpPacket>)
    requires OneSession(packets) && packets != []
    ensures var buffered := RunFrom(NEW_SESSION, packets).state.buffered;
      IsHeld(RunAll(map[], packets).sessions, |buffered|, Total(DataSizes(buffered)))
  {
    var k, ss := KeyOf(packets[0]), RunAll(map[], packets).sessions;
    SingleSession(map[], packets, k);
    OnlySession(packets, k);
    TotalPick(HeldSegments(ss), k);
    TotalPick(HeldBytes(ss), k);
    assert HeldSegments(ss) - {k} == map[] && HeldBytes(ss) - {k} == map[];
  }

  lemma {:induction false} OnlySession(packets: seq<TcpPacket>, k: SessionKey)
    requires packets != [] && forall i :: 0 <= i < |packets| ==> KeyOf(packets[i]) == k
    ensures RunAll(map[], packets).sessions.Keys == {k}
  {
    var past := packets[..|packets| - 1];
    if past == [] {
      assert RunAll(map[], past).sessions == map[];
    } else {
      OnlySession(past, k);
    }
  }

  /** What `ParseStream` yields and what it reports as the remainder rebuild the released bytes, and the remainder is
      dated by its own first byte. */
  lemma {:induction false} NothingUnaccounted(chunks: seq<Timestamped>, messages: seq<Timestamped>,
                                              remainder: Option<Timestamped>)
    requires DataOf(messages) == Frame(BytesOf(chunks)).messages
    requires IsRemainder(BytesOf(chunks), TimesOf(chunks), remainder)
    ensures var rest := if remainder.Some? then remainder.value.data else [];
      Concat(DataOf(messages)) + rest == BytesOf(chunks)
    ensures remainder.Some? ==>
      && remainder.value.data != []
      && |Concat(DataOf(messages))| < |TimesOf(chunks)|
      && remainder.value.timestamp == TimesOf(chunks)[|Concat(DataOf(messages))|]
  {
    FrameIsFraming(BytesOf(chunks));
  }

  // Whose time a message carries.

  /** The chunk that holds byte `k` of the released bytes. */
  function ChunkAt(chunks: seq<Timestamped>, k: nat): (i: nat)
    requires k < |BytesOf(chunks)|
    ensures i < |chunks| && |BytesOf(chunks[..i])| <= k < |BytesOf(chunks[..i])| + |chunks[i].data|
  {
    if k < |chunks[0].data| then 0
    else
      var i := ChunkAt(chunks[1..], k - |chunks[0].data|);
      assert chunks[..i + 1][1..] == chunks[1..][..i];
      i + 1
  }

  lemma {:induction false} TimeAt(chunks: seq<Timestamped>, k: nat)
    requires k < |BytesOf(chunks)|
    ensures |TimesOf(chunks)| == |BytesOf(chunks)|
    ensures TimesOf(chunks)[k] == chunks[ChunkAt(chunks, k)].timestamp
  {
    TimesLength(chunks);
    if k >= |chunks[0].data| {
      TimeAt(chunks[1..], k - |chunks[0].data|);
    }
  }

  lemma {:induction false} TimesLength(chunks: seq<Timestamped>)
    ensures |TimesOf(chunks)| == |BytesOf(chunks)|
  {
    if chunks != [] {
      TimesLength(chunks[1..]);
    }
  }

  /** The index of the chunk that brought the first byte of message `j`. */
  function FirstChunkOf(packets: seq<TcpPacket>, messages: seq<Timestamped>, j: nat): nat
    requires j < |messages| && LengthOf(messages[..j]) < |BytesOf(RunFrom(NEW_SESSION, packets).chunks)|
  {
    ChunkAt(RunFrom(NEW_SESSION, packets).chunks, LengthOf(messages[..j]))
  }

  /** A message that `ParseStream` yields is dated by the packet that arrived last, before the release, with the number
      of the segment that brought the message's first byte. Unless an accepted packet redates that byte, this is the
      time at which it arrived first, whatever happens to other bytes. */
  lemma {:induction false} MessageTimeProvenance(packets: seq<TcpPacket>, messages: seq<Timestamped>, j: nat)
    requires OneSession(packets) && j < |messages|
    requires FirstByteTimes(messages, TimesOf(RunAll(map[], packets).chunks))
    ensures Origin(packets).Some? && LengthOf(messages[..j]) < |BytesOf(RunFrom(NEW_SESSION, packets).chunks)|
    ensures var i := FirstChunkOf(packets, messages, j);
      var latest := LatestAt(ArrivedBefore(packets, i), NumberOf(packets, i));
      latest.Some? && messages[j].timestamp == latest.value.timestamp
    ensures var x := Origin(packets).value + LengthOf(messages[..j]);
      NeverRedated(packets, x) ==> ObservedAt(packets, x) == Some(messages[j].timestamp)
  {
    var chunks, k := RunFrom(NEW_SESSION, packets).chunks, LengthOf(messages[..j]);
    assert RunAll(map[], packets).chunks == chunks by {
      if packets != [] {
        SingleSession(map[], packets, KeyOf(packets[0]));
      }
    }
    FirstByteTimesAt(messages, TimesOf(chunks), j);
    TimesLength(chunks);
    TimeAt(chunks, k);
    ChunkProvenance(packets, FirstChunkOf(packets, messages, j));
    var x := Origin(packets).value + k;
    if NeverRedated(packets, x) {
      NeverRedatedAgrees(packets, x);
      assert HasFirstTime(packets, NumberOf(packets, ChunkAt(chunks, k)), chunks[ChunkAt(chunks, k)], x);
    }
  }
}
