/** Several sessions feed one decoder: when its messages are still those of the sessions. */
module SharedDecoder {
  import opened Prelude
  import opened Framing
  import opened TcpReassembly
  import opened Sessions
  import opened ParserPipelines

  /** The bytes that the reassembler hands to the decoder. */
  function Released(ps: seq<TcpPacket>): seq<byte> {
    BytesOf(RunAll(map[], ps).chunks)
  }

  function ReleasedNext(past: seq<TcpPacket>, p: TcpPacket): seq<byte> {
    BytesOf(ProcessIn(RunAll(map[], past).sessions, p).chunks)
  }

  /** The gap-free bytes of one session. */
  function SessionBytes(ps: seq<TcpPacket>, k: SessionKey): seq<byte> {
    BytesOf(RunFrom(NEW_SESSION, PacketsOf(ps, k)).chunks)
  }

  /** What the decoder frames when `p` comes: its remainder and the released bytes, whoever they belong to. */
  function FramedNext(past: seq<TcpPacket>, p: TcpPacket): seq<seq<byte>> {
    Frame(Frame(Released(past)).rest + ReleasedNext(past, p)).messages
  }

  /** The messages that come out while packets of session `k` are processed. */
  function MessagesFor(ps: seq<TcpPacket>, k: SessionKey): seq<seq<byte>> {
    if ps == [] then []
    else
      var past, p := ps[..|ps| - 1], ps[|ps| - 1];
      if KeyOf(p) == k then MessagesFor(past, k) + FramedNext(past, p) else MessagesFor(past, k)
  }

  lemma {:induction false} ReleasedSnoc(past: seq<TcpPacket>, p: TcpPacket)
    ensures Released(past + [p]) == Released(past) + ReleasedNext(past, p)
  {
    assert (past + [p])[..|past|] == past;
    BytesSplit(RunAll(map[], past).chunks, ProcessIn(RunAll(map[], past).sessions, p).chunks);
  }

  /** The messages of the pipeline are those that come out packet by packet. */
  lemma {:induction false} FramedSnoc(past: seq<TcpPacket>, p: TcpPacket)
    ensures Parsed(past + [p]).messages == Parsed(past).messages + FramedNext(past, p)
    ensures Parsed(past + [p]).rest == Frame(Parsed(past).rest + ReleasedNext(past, p)).rest
  {
    ReleasedSnoc(past, p);
    FrameAppend(Released(past), ReleasedNext(past, p));
  }

  lemma {:induction false} SessionBytesSnoc(past: seq<TcpPacket>, p: TcpPacket, k: SessionKey)
    ensures SessionBytes(past + [p], k) ==
      if KeyOf(p) == k then SessionBytes(past, k) + ReleasedNext(past, p) else SessionBytes(past, k)
  {
    assert (past + [p])[..|past|] == past;
    if KeyOf(p) == k {
      SessionIsolation(map[], past, k);
      RunSnoc(NEW_SESSION, PacketsOf(past, k), p);
      BytesSplit(RunFrom(NEW_SESSION, PacketsOf(past, k)).chunks, ProcessIn(RunAll(map[], past).sessions, p).chunks);
    }
  }

  /** The session whose bytes the decoder was given last. */
  function Owner(ps: seq<TcpPacket>): Option<SessionKey> {
    if ps == [] then None
    else
      var past, p := ps[..|ps| - 1], ps[|ps| - 1];
      if ReleasedNext(past, p) != [] then Some(KeyOf(p)) else Owner(past)
  }

  /** What the packet releases, if anything, meets a remainder of its own session or none. */
  predicate CleanHandover(past: seq<TcpPacket>, p: TcpPacket) {
    ReleasedNext(past, p) == [] || Owner(past) == Some(KeyOf(p)) || Parsed(past).rest == []
  }

  predicate CleanHandovers(ps: seq<TcpPacket>) {
    ps == [] || (CleanHandovers(ps[..|ps| - 1]) && CleanHandover(ps[..|ps| - 1], ps[|ps| - 1]))
  }

  /** Each session got the messages of its own bytes, and what the decoder still holds is what its owner's bytes leave
      over. */
  ghost predicate KeptApart(ps: seq<TcpPacket>) {
    forall k :: SessionKeptApart(ps, k)
  }

  predicate SessionKeptApart(ps: seq<TcpPacket>, k: SessionKey) {
    && MessagesFor(ps, k) == Frame(SessionBytes(ps, k)).messages
    && (Owner(ps) == Some(k) ==> Parsed(ps).rest == Frame(SessionBytes(ps, k)).rest)
  }

  /** While handovers are clean, only the owner has bytes left over. */
  ghost predicate OthersDone(ps: seq<TcpPacket>) {
    && (forall k :: Owner(ps) != Some(k) ==> Frame(SessionBytes(ps, k)).rest == [])
    && (Owner(ps) == None ==> Parsed(ps).rest == [])
  }

  lemma {:induction false} OwnerSnoc(past: seq<TcpPacket>, p: TcpPacket)
    ensures Owner(past + [p]) == if ReleasedNext(past, p) != [] then Some(KeyOf(p)) else Owner(past)
  {
    assert (past + [p])[..|past|] == past;
  }

  lemma {:induction false} MessagesForSnoc(past: seq<TcpPacket>, p: TcpPacket, k: SessionKey)
    ensures MessagesFor(past + [p], k) ==
      if KeyOf(p) == k then MessagesFor(past, k) + FramedNext(past, p) else MessagesFor(past, k)
  {
    assert (past + [p])[..|past|] == past;
  }

  /** A packet that releases nothing leaves every framing as it is. */
  lemma {:induction false} NothingReleased(past: seq<TcpPacket>, p: TcpPacket)
    requires ReleasedNext(past, p) == []
    ensures FramedNext(past, p) == [] && Parsed(past + [p]).rest == Parsed(past).rest
    ensures forall k :: SessionBytes(past + [p], k) == SessionBytes(past, k)
  {
    FramedSnoc(past, p);
    var rest := Parsed(past).rest;
    assert rest + [] == rest;
    FrameIsFraming(Released(past));
    assert Frame(rest) == Framed([], rest);
    forall k ensures SessionBytes(past + [p], k) == SessionBytes(past, k) {
      SessionBytesSnoc(past, p, k);
      assert SessionBytes(past, k) + [] == SessionBytes(past, k);
    }
  }

  lemma {:induction false} KeepsApart(past: seq<TcpPacket>, p: TcpPacket)
    requires KeptApart(past) && OthersDone(past) && CleanHandover(past, p)
    ensures KeptApart(past + [p]) && OthersDone(past + [p])
  {
    OwnerSnoc(past, p);
    FramedSnoc(past, p);
    if ReleasedNext(past, p) == [] {
      NothingReleased(past, p);
    } else {
      SameRest(past, p);
      FrameAppend(SessionBytes(past, KeyOf(p)), ReleasedNext(past, p));
      assert forall k :: SessionKeptApart(past, k);
    }
    forall k
      ensures SessionKeptApart(past + [p], k)
      ensures Owner(past + [p]) != Some(k) ==> Frame(SessionBytes(past + [p], k)).rest == []
    {
      SessionBytesSnoc(past, p, k);
      MessagesForSnoc(past, p, k);
      assert SessionKeptApart(past, k);
    }
  }

  /** At a clean handover of bytes the decoder holds what the packet's session left over. */
  lemma {:induction false} SameRest(past: seq<TcpPacket>, p: TcpPacket)
    requires KeptApart(past) && OthersDone(past) && CleanHandover(past, p) && ReleasedNext(past, p) != []
    ensures Frame(SessionBytes(past, KeyOf(p))).rest == Parsed(past).rest
    ensures forall k :: k != KeyOf(p) ==> Frame(SessionBytes(past, k)).rest == []
  {
    if Owner(past).Some? {
      assert SessionKeptApart(past, Owner(past).value);
    }
  }

  /** Bytes that meet another session's remainder are framed differently from how they are framed alone. */
  lemma {:induction false} RestMatters(rest: seq<byte>, bytes: seq<byte>)
    requires Frame(rest + bytes) == Frame(bytes)
    ensures rest == []
  {
    FrameIsFraming(rest + bytes);
    FrameIsFraming(bytes);
    assert |rest + bytes| == |bytes|;
  }

  lemma {:induction false} HandoverMixes(past: seq<TcpPacket>, p: TcpPacket)
    requires KeptApart(past) && OthersDone(past) && !CleanHandover(past, p)
    ensures !KeptApart(past + [p])
  {
    var k, rest, bytes := KeyOf(p), Parsed(past).rest, ReleasedNext(past, p);
    if KeptApart(past + [p]) {
      OwnerSnoc(past, p);
      FramedSnoc(past, p);
      SessionBytesSnoc(past, p, k);
      MessagesForSnoc(past, p, k);
      assert SessionKeptApart(past, k) && SessionKeptApart(past + [p], k);
      FrameAppend(SessionBytes(past, k), bytes);
      assert [] + bytes == bytes;
      SameTail(MessagesFor(past, k), Frame(rest + bytes).messages, Frame(bytes).messages);
      RestMatters(rest, bytes);
    }
  }

  lemma {:induction false} SameTail<T>(a: seq<T>, b: seq<T>, c: seq<T>)
    requires a + b == a + c
    ensures b == c
  {
    assert b == (a + b)[|a|..] && c == (a + c)[|a|..];
  }

  lemma {:induction false} CleanKeepsApart(ps: seq<TcpPacket>)
    requires CleanHandovers(ps)
    ensures KeptApart(ps) && OthersDone(ps)
  {
    if ps == [] {
      forall k ensures SessionKeptApart(ps, k) && SessionBytes(ps, k) == [] {
        assert PacketsOf(ps, k) == [];
      }
      assert Released(ps) == [];
    } else {
      CleanKeepsApart(ps[..|ps| - 1]);
      KeepsApart(ps[..|ps| - 1], ps[|ps| - 1]);
      Rejoin(ps);
    }
  }

  lemma {:induction false} PrefixIsClean(ps: seq<TcpPacket>, n: nat)
    requires CleanHandovers(ps) && n <= |ps|
    ensures CleanHandovers(ps[..n])
  {
    if n < |ps| {
      PrefixIsClean(ps[..|ps| - 1], n);
      assert ps[..|ps| - 1][..n] == ps[..n];
    } else {
      WholePrefix(ps);
    }
  }

  /** Sessions are kept apart at every moment of a run exactly when all bytes that are released meet a remainder of
      their own session or none. Packets that release nothing may come in between. */
  lemma {:induction false} KeptApartExactly(ps: seq<TcpPacket>)
    ensures (forall n: nat :: n <= |ps| ==> KeptApart(ps[..n])) <==> CleanHandovers(ps)
  {
    if CleanHandovers(ps) {
      forall n: nat | n <= |ps| ensures KeptApart(ps[..n]) {
        PrefixIsClean(ps, n);
        CleanKeepsApart(ps[..n]);
      }
    } else {
      var _ := FirstMixing(ps);
    }
  }

  lemma {:induction false} FirstMixing(ps: seq<TcpPacket>) returns (n: nat)
    requires !CleanHandovers(ps)
    ensures n <= |ps| && !KeptApart(ps[..n])
  {
    var past := ps[..|ps| - 1];
    if CleanHandovers(past) {
      n := |ps|;
      Rejoin(ps);
      WholePrefix(ps);
      CleanKeepsApart(past);
      HandoverMixes(past, ps[|ps| - 1]);
    } else {
      n := FirstMixing(past);
      assert past[..n] == ps[..n];
    }
  }

  /** A switch of session that does no harm: while one session's message is unfinished, an empty packet of another one
      comes and goes. The line end inside the message does not cut it. */
  lemma {:induction false} EmptyPacketMixesNothing(a: TcpPacket, ack: TcpPacket, b: TcpPacket)
    requires KeyOf(a) == KeyOf(b) != KeyOf(ack)
    requires a.seqNo == 1 && a.payload == [65] && ack.payload == []
    requires b.seqNo == 2 && b.payload == [13, 10, 66, 13, 10, 13, 10]
    ensures CleanHandovers([a, ack, b]) && Parsed([a, ack]).rest == [65]
    ensures Parsed([a, ack, b]) == Framed([[65, 13, 10, 66, 13, 10, 13, 10]], [])
  {
    ReleasedByThree(a, ack, b);
    OneMessage([65, 13, 10, 66, 13, 10, 13, 10], 4);
    assert a.payload + b.payload == [65, 13, 10, 66, 13, 10, 13, 10];
  }

  lemma {:induction false} ReleasedByThree(a: TcpPacket, ack: TcpPacket, b: TcpPacket)
    requires KeyOf(a) == KeyOf(b) != KeyOf(ack)
    requires a.seqNo == 1 && |a.payload| == 1 && ack.payload == [] && b.seqNo == 2 && b.payload != []
    ensures Released([a, ack]) == a.payload && Released([a, ack, b]) == a.payload + b.payload
    ensures CleanHandovers([a, ack, b])
  {
    assert [] + [a] == [a] && [a] + [ack] == [a, ack] && [a, ack] + [b] == [a, ack, b];
    Alone([], a);
    EmptyReleasesNothing([a], ack);
    FollowsOn(a, ack, b);
    ReleasedSnoc([], a);
    ReleasedSnoc([a], ack);
    ReleasedSnoc([a, ack], b);
    SameOwner(a, ack, b);
  }

  lemma {:induction false} SameOwner(a: TcpPacket, ack: TcpPacket, b: TcpPacket)
    requires KeyOf(a) == KeyOf(b) && ReleasedNext([], a) != [] && ReleasedNext([a], ack) == []
    ensures CleanHandovers([a, ack, b])
  {
    assert [] + [a] == [a] && [a] + [ack] == [a, ack] && [a, ack] + [b] == [a, ack, b];
    OwnerSnoc([], a);
    OwnerSnoc([a], ack);
    assert Released([]) == [];
    CleanSnoc([], a);
    CleanSnoc([a], ack);
    CleanSnoc([a, ack], b);
  }

  lemma {:induction false} CleanSnoc(past: seq<TcpPacket>, p: TcpPacket)
    ensures CleanHandovers(past + [p]) <==> CleanHandovers(past) && CleanHandover(past, p)
  {
    assert (past + [p])[..|past|] == past;
  }

  lemma {:induction false} EmptyReleasesNothing(past: seq<TcpPacket>, p: TcpPacket)
    requires p.payload == []
    ensures ReleasedNext(past, p) == []
  {
  }

  lemma {:induction false} FollowsOn(a: TcpPacket, ack: TcpPacket, b: TcpPacket)
    requires KeyOf(a) == KeyOf(b) != KeyOf(ack)
    requires a.seqNo == 1 && |a.payload| == 1 && b.seqNo == 2 && b.payload != []
    ensures ReleasedNext([a, ack], b) == b.payload
  {
    var k := KeyOf(a);
    var st := SessionState(2, map[]);
    assert [a, ack][..1] == [a] && [a][..0] == [];
    assert PacketsOf([a], k) == [] + [a];
    assert PacketsOf([a, ack], k) == [] + [a];
    SessionIsolation(map[], [a, ack], k);
    RunSnoc(NEW_SESSION, [], a);
    assert Flush(st) == Delivery([], st);
    assert StateIn(RunAll(map[], [a, ack]).sessions, k) == st;
    ReleasesWhole(st, b);
  }

  lemma {:induction false} ReleasesWhole(st: SessionState, p: TcpPacket)
    requires st.buffered == map[] && p.payload != [] && (st.expected == 0 || st.expected == p.seqNo)
    ensures BytesOf(Handle(st, p).chunks) == p.payload
  {
    var next := SessionState(p.seqNo + |p.payload|, map[]);
    assert Flush(next) == Delivery([], next);
    assert Handle(st, p).chunks == [p.Chunk()];
    assert BytesOf([p.Chunk()]) == p.payload + BytesOf([]);
  }

  /** The other case in action: an unfinished message of one session is completed by another session's bytes, and the
      message that comes out was sent by neither. */
  lemma {:induction false} MixedSessionsFabricate(a: TcpPacket, b: TcpPacket)
    requires KeyOf(a) != KeyOf(b)
    requires a.payload == [65] && b.payload == [13, 10, 13, 10]
    ensures Parsed([a, b]).messages == [[65, 13, 10, 13, 10]]
    ensures Frame(SessionBytes([a, b], KeyOf(a))).messages == []
    ensures Frame(SessionBytes([a, b], KeyOf(b))).messages == [[13, 10, 13, 10]]
  {
    ReleasedByTwo(a, b);
    assert a.payload + b.payload == [65, 13, 10, 13, 10];
    OneMessage([65, 13, 10, 13, 10], 1);
    OneMessage([13, 10, 13, 10], 0);
  }

  lemma {:induction false} ReleasedByTwo(a: TcpPacket, b: TcpPacket)
    requires KeyOf(a) != KeyOf(b) && a.payload != [] && b.payload != []
    ensures Released([a, b]) == a.payload + b.payload
    ensures SessionBytes([a, b], KeyOf(a)) == a.payload && SessionBytes([a, b], KeyOf(b)) == b.payload
  {
    assert [] + [a] == [a] && [a] + [b] == [a, b];
    Alone([], a);
    Alone([a], b);
    ReleasedSnoc([], a);
    ReleasedSnoc([a], b);
    SessionBytesSnoc([], a, KeyOf(a));
    SessionBytesSnoc([a], b, KeyOf(a));
    SessionBytesSnoc([], a, KeyOf(b));
    SessionBytesSnoc([a], b, KeyOf(b));
  }

  /** The first packet of a session, with data, comes out whole. */
  lemma {:induction false} Alone(past: seq<TcpPacket>, p: TcpPacket)
    requires KeyOf(p) !in RunAll(map[], past).sessions && p.payload != []
    ensures ReleasedNext(past, p) == p.payload
    ensures RunAll(map[], past + [p]).sessions.Keys == RunAll(map[], past).sessions.Keys + {KeyOf(p)}
  {
    assert (past + [p])[..|past|] == past;
    ReleasesWhole(NEW_SESSION, p);
  }

  lemma {:induction false} OneMessage(d: seq<byte>, b: nat)
    requires |d| == b + 4 && TerminatorAt(d, b) && forall i :: 0 <= i < b ==> !TerminatorAt(d, i)
    ensures Frame(d) == Framed([d], [])
  {
    FrameCut(d, b);
    assert d[..b + 4] == d && d[b + 4..] == [];
    assert Frame([]) == Framed([], []);
  }
}
