/** The reassembler and its session tracker as mutable objects. */
module TcpReassemblers {
  import opened Prelude
  import opened Framing
  import opened TcpReassembly
  import opened Sessions

  class TCPSession {
    const startTimestamp: int
    var lastActivityTimestamp: int
    var endTimestamp: Option<int>
    var expectedSequence: nat
    var bufferedSegments: map<nat, Timestamped>

    constructor (timestamp: int)
      ensures State() == NEW_SESSION
      ensures startTimestamp == lastActivityTimestamp == timestamp && endTimestamp == None
    {
      startTimestamp := timestamp;
      lastActivityTimestamp := timestamp;
      endTimestamp := None;
      expectedSequence := 0;
      bufferedSegments := map[];
    }

    function State(): SessionState
      reads this
    {
      SessionState(expectedSequence, bufferedSegments)
    }

    method UpdateActivity(timestamp: int)
      modifies this`lastActivityTimestamp
      ensures lastActivityTimestamp == timestamp
    {
      lastActivityTimestamp := timestamp;
    }

    method Close(timestamp: int)
      modifies this`endTimestamp
      ensures endTimestamp == Some(timestamp)
    {
      endTimestamp := Some(timestamp);
    }
  }

  class SessionTracker {
    var sessions: map<SessionKey, TCPSession>
    /** The state of every session, by value, and the session objects. */
    ghost var states: SessionStates
    ghost var repr: set<TCPSession>

    ghost predicate Valid()
      reads this, repr
    {
      && (forall k :: k in sessions ==> sessions[k] in repr)
      && (forall j, k :: j in sessions && k in sessions && j != k ==> sessions[j] != sessions[k])
      && states.Keys == sessions.Keys
      && (forall k :: k in sessions ==> states[k] == sessions[k].State())
    }

    constructor ()
      ensures Valid() && states == map[] && repr == {}
    {
      sessions, states, repr := map[], map[], {};
    }

    method GetOrCreateSession(key: SessionKey, timestamp: int) returns (session: TCPSession)
      requires Valid()
      modifies this, repr
      ensures Valid() && key in sessions && sessions[key] == session && fresh(repr - old(repr))
      ensures key in old(sessions) ==> sessions == old(sessions)
      ensures key !in old(sessions) ==> fresh(session) && sessions == old(sessions)[key := session]
      ensures states == old(states)[key := StateIn(old(states), key)]
      ensures session.lastActivityTimestamp == timestamp
      ensures forall k :: k in old(sessions) && k != key ==>
        sessions[k].lastActivityTimestamp == old(sessions[k].lastActivityTimestamp)
    {
      if key !in sessions {
        session := new TCPSession(timestamp);
        sessions := sessions[key := session];
        states := states[key := NEW_SESSION];
        repr := repr + {session};
      } else {
        session := sessions[key];
        session.UpdateActivity(timestamp);
      }
    }

    method CloseSession(key: SessionKey, timestamp: int)
      requires Valid()
      modifies repr
      ensures Valid()
      ensures key in sessions ==> sessions[key].endTimestamp == Some(timestamp)
    {
      if key in sessions {
        sessions[key].Close(timestamp);
      }
    }
  }

  class TCPReassembler {
    const tracker: SessionTracker

    constructor ()
      ensures fresh(tracker) && tracker.Valid() && tracker.states == map[] && tracker.repr == {}
    {
      tracker := new SessionTracker();
    }

    method ProcessPacket(packet: TcpPacket) returns (chunks: seq<Timestamped>)
      requires tracker.Valid()
      modifies tracker, tracker.repr
      ensures tracker.Valid()
      ensures fresh(tracker.repr - old(tracker.repr))
      ensures Batch(chunks, tracker.states) == ProcessIn(old(tracker.states), packet)
      ensures packet.fin ==>
        && KeyOf(packet) in tracker.sessions
        && tracker.sessions[KeyOf(packet)].endTimestamp == Some(packet.timestamp)
    {
      ghost var ss := tracker.states;
      var key := KeyOf(packet);
      var _ := tracker.GetOrCreateSession(key, packet.timestamp);
      chunks := HandleIn(key, packet);
      UpdateTwice(ss, key, StateIn(ss, key), tracker.states[key]);
      if packet.fin {
        tracker.CloseSession(key, packet.timestamp);
      }
    }

    method HandleIn(key: SessionKey, packet: TcpPacket) returns (chunks: seq<Timestamped>)
      requires tracker.Valid() && key in tracker.sessions
      modifies tracker`states, tracker.repr
      ensures tracker.Valid()
      ensures var d := Handle(old(tracker.states)[key], packet);
        chunks == d.chunks && tracker.states == old(tracker.states)[key := d.state]
    {
      var session := tracker.sessions[key];
      chunks := HandlePacket(session, packet);
      tracker.states := tracker.states[key := session.State()];
    }

    static method HandlePacket(session: TCPSession, packet: TcpPacket) returns (chunks: seq<Timestamped>)
      modifies session`expectedSequence, session`bufferedSegments
      ensures Delivery(chunks, session.State()) == Handle(old(session.State()), packet)
    {
      var seqNo := packet.seqNo;
      if session.expectedSequence == 0 {
        session.expectedSequence := seqNo;
      }
      if seqNo < session.expectedSequence {
        return [];
      }
      if seqNo > session.expectedSequence {
        session.bufferedSegments := session.bufferedSegments[seqNo := packet.Chunk()];
        return [];
      }
      if packet.payload == [] {
        return [];
      }
      session.expectedSequence := session.expectedSequence + |packet.payload|;
      var released := FlushBuffer(session);
      chunks := [packet.Chunk()] + released;
    }

    static method FlushBuffer(session: TCPSession) returns (chunks: seq<Timestamped>)
      modifies session`expectedSequence, session`bufferedSegments
      ensures Delivery(chunks, session.State()) == Flush(old(session.State()))
    {
      chunks := [];
      while session.expectedSequence in session.bufferedSegments
        invariant Delivery(chunks + Flush(session.State()).chunks, Flush(session.State()).state)
          == Flush(old(session.State()))
        decreases |session.bufferedSegments|
      {
        PoppedShrinks(session.State());
        var chunk := session.bufferedSegments[session.expectedSequence];
        assert chunks + ([chunk] + Flush(Popped(session.State())).chunks)
          == (chunks + [chunk]) + Flush(Popped(session.State())).chunks;
        session.bufferedSegments := session.bufferedSegments - {session.expectedSequence};
        chunks := chunks + [chunk];
        session.expectedSequence := session.expectedSequence + |chunk.data|;
      }
      assert chunks + [] == chunks;
    }

    /** Drops what is still in the buffers and reports how many segments and bytes that was. */
    method DiscardIncomplete() returns (segments: nat, bytes: nat)
      requires tracker.Valid()
      modifies tracker`states, tracker.repr
      ensures tracker.Valid() && tracker.states == Cleared(old(tracker.states))
      ensures tracker.states.Keys == old(tracker.states).Keys
      ensures forall k :: k in tracker.states ==>
        tracker.states[k] == SessionState(old(tracker.states)[k].expected, map[])
      ensures IsHeld(old(tracker.states), segments, bytes)
    {
      ghost var ss := tracker.states;
      ghost var order: seq<SessionKey> := [];
      segments, bytes := 0, 0;
      var rest := tracker.sessions.Keys;
      TallyNone(ss);
      while rest != {}
        invariant tracker.Valid() && rest <= tracker.sessions.Keys
        invariant Tally(ss, tracker.states, rest, order, segments, bytes)
        decreases rest
      {
        var k :| k in rest;
        segments, bytes := AddDiscarded(k, segments, bytes, ss, rest, order);
        order := order + [k];
        rest := rest - {k};
      }
      TallyAll(ss, tracker.states, order, segments, bytes);
    }

    /** One round of the loop, with its place in the tally. */
    method AddDiscarded(key: SessionKey, segments: nat, bytes: nat, ghost ss: SessionStates,
                        ghost rest: set<SessionKey>, ghost order: seq<SessionKey>)
      returns (segments': nat, bytes': nat)
      requires tracker.Valid() && key in tracker.sessions && key in rest && key in ss
      requires Tally(ss, tracker.states, rest, order, segments, bytes)
      modifies tracker`states, tracker.repr
      ensures tracker.Valid()
      ensures Tally(ss, tracker.states, rest - {key}, order + [key], segments', bytes')
    {
      TallyOne(ss, tracker.states, rest, order, segments, bytes, key);
      var s, b := DiscardIn(key);
      segments', bytes' := segments + s, bytes + b;
    }

    method DiscardIn(key: SessionKey) returns (segments: nat, bytes: nat)
      requires tracker.Valid() && key in tracker.sessions
      modifies tracker`states, tracker.repr
      ensures tracker.Valid()
      ensures var st := old(tracker.states)[key];
        && tracker.states == old(tracker.states)[key := st.(buffered := map[])]
        && segments == |st.buffered| && bytes == Total(DataSizes(st.buffered))
    {
      var session := tracker.sessions[key];
      segments, bytes := DiscardSession(session);
      tracker.states := tracker.states[key := session.State()];
    }

    static method DiscardSession(session: TCPSession) returns (segments: nat, bytes: nat)
      modifies session`bufferedSegments
      ensures session.State() == old(session.State()).(buffered := map[])
      ensures segments == |old(session.bufferedSegments)|
      ensures bytes == Total(DataSizes(old(session.bufferedSegments)))
    {
      var buffered := session.bufferedSegments;
      ghost var left := DataSizes(buffered);
      segments, bytes := 0, 0;
      var rest := buffered.Keys;
      while rest != {}
        invariant rest <= buffered.Keys
        invariant segments + |rest| == |buffered|
        invariant left.Keys == rest && forall q :: q in rest ==> left[q] == |buffered[q].data|
        invariant bytes + Total(left) == Total(DataSizes(buffered))
        decreases rest
      {
        var q :| q in rest;
        TotalPick(left, q);
        left := left - {q};
        segments := segments + 1;
        bytes := bytes + |buffered[q].data|;
        rest := rest - {q};
      }
      session.bufferedSegments := map[];
    }
  }
}
