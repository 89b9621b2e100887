/** Session identity and the sessions of one reassembler, on values. */
module Sessions {
  import opened Prelude
  import opened Framing
  import opened TcpReassembly

  datatype SessionKey = SessionKey(ip1: string, port1: int, ip2: string, port2: int)

  predicate EndpointAtMost(ip1: string, port1: int, ip2: string, port2: int) {
    StringLess(ip1, ip2) || (ip1 == ip2 && port1 <= port2)
  }

  function NormaliseKey(srcIp: string, srcPort: int, dstIp: string, dstPort: int): SessionKey {
    if EndpointAtMost(srcIp, srcPort, dstIp, dstPort) then SessionKey(srcIp, srcPort, dstIp, dstPort)
    else SessionKey(dstIp, dstPort, srcIp, srcPort)
  }

  function KeyOf(p: TcpPacket): SessionKey {
    NormaliseKey(p.srcIp, p.srcPort, p.dstIp, p.dstPort)
  }

  /** Two packets share a session exactly when they have the same two endpoints, in either direction; the lesser
      endpoint comes first in the key. */
  lemma {:induction false} SessionIgnoresDirection(p: TcpPacket, q: TcpPacket)
    ensures KeyOf(p) == KeyOf(q) <==>
      || (p.srcIp == q.srcIp && p.srcPort == q.srcPort && p.dstIp == q.dstIp && p.dstPort == q.dstPort)
      || (p.srcIp == q.dstIp && p.srcPort == q.dstPort && p.dstIp == q.srcIp && p.dstPort == q.srcPort)
    ensures KeyOf(p).ip1 != KeyOf(p).ip2 ==> StringLess(KeyOf(p).ip1, KeyOf(p).ip2)
    ensures KeyOf(p).ip1 == KeyOf(p).ip2 ==> KeyOf(p).port1 <= KeyOf(p).port2
  {
    StringTrichotomy(p.srcIp, p.dstIp);
    StringTrichotomy(q.srcIp, q.dstIp);
  }

  type SessionStates = map<SessionKey, SessionState>

  function StateIn(ss: SessionStates, k: SessionKey): SessionState {
    if k in ss then ss[k] else NEW_SESSION
  }

  datatype Batch = Batch(chunks: seq<Timestamped>, sessions: SessionStates)

  function ProcessIn(ss: SessionStates, p: TcpPacket): Batch {
    var d := Handle(StateIn(ss, KeyOf(p)), p);
    Batch(d.chunks, ss[KeyOf(p) := d.state])
  }

  function RunAll(ss: SessionStates, ps: seq<TcpPacket>): Batch {
    if ps == [] then Batch([], ss)
    else
      var before := RunAll(ss, ps[..|ps| - 1]);
      var step := ProcessIn(before.sessions, ps[|ps| - 1]);
      Batch(before.chunks + step.chunks, step.sessions)
  }

  lemma {:induction false} RunAllNext(ss: SessionStates, ps: seq<TcpPacket>, i: nat)
    requires i < |ps|
    ensures var before := RunAll(ss, ps[..i]);
      var step := ProcessIn(before.sessions, ps[i]);
      RunAll(ss, ps[..i + 1]) == Batch(before.chunks + step.chunks, step.sessions)
  {
    assert ps[..i + 1][..i] == ps[..i];
  }

  function PacketsOf(ps: seq<TcpPacket>, k: SessionKey): seq<TcpPacket> {
    if ps == [] then []
    else
      var past := PacketsOf(ps[..|ps| - 1], k);
      if KeyOf(ps[|ps| - 1]) == k then past + [ps[|ps| - 1]] else past
  }

  /** Interleaved sessions do not disturb each other: each is in the state its own packets lead to. */
  lemma {:induction false} SessionIsolation(ss: SessionStates, ps: seq<TcpPacket>, k: SessionKey)
    ensures StateIn(RunAll(ss, ps).sessions, k) == RunFrom(StateIn(ss, k), PacketsOf(ps, k)).state
  {
    if ps != [] {
      var past, p := ps[..|ps| - 1], ps[|ps| - 1];
      SessionIsolation(ss, past, k);
      if KeyOf(p) == k {
        assert PacketsOf(ps, k)[..|PacketsOf(ps, k)| - 1] == PacketsOf(past, k);
      }
    }
  }

  /** While only one session is active, the reassembler releases what that session releases. */
  lemma {:induction false} SingleSession(ss: SessionStates, ps: seq<TcpPacket>, k: SessionKey)
    requires forall i :: 0 <= i < |ps| ==> KeyOf(ps[i]) == k
    ensures RunAll(ss, ps).chunks == RunFrom(StateIn(ss, k), ps).chunks
    ensures StateIn(RunAll(ss, ps).sessions, k) == RunFrom(StateIn(ss, k), ps).state
  {
    if ps != [] {
      SingleSession(ss, ps[..|ps| - 1], k);
    }
  }

  // What is left in the buffers at the end of a stream.

  function Cleared(ss: SessionStates): SessionStates {
    map k | k in ss :: ss[k].(buffered := map[])
  }

  /** Part way through: the sessions in `rest` still hold their segments. */
  function ClearedExcept(ss: SessionStates, rest: set<SessionKey>): SessionStates {
    map k | k in ss :: if k in rest then ss[k] else ss[k].(buffered := map[])
  }

  lemma {:induction false} ClearOne(ss: SessionStates, rest: set<SessionKey>, k: SessionKey)
    requires k in rest && k in ss
    ensures ClearedExcept(ss, rest)[k] == ss[k]
    ensures ClearedExcept(ss, rest)[k := ss[k].(buffered := map[])] == ClearedExcept(ss, rest - {k})
  {
  }

  lemma {:induction false} ClearEnds(ss: SessionStates)
    ensures ClearedExcept(ss, ss.Keys) == ss && ClearedExcept(ss, {}) == Cleared(ss)
  {
  }

  /** The sum of the values of a finite map. */
  ghost function Total<K(!new)>(w: map<K, nat>): nat {
    if w == map[] then 0
    else
      var k :| k in w;
      w[k] + Total(w - {k})
  }

  /** The sum does not depend on the order in which the entries are visited. */
  lemma {:induction false} TotalPick<K(!new)>(w: map<K, nat>, k: K)
    requires k in w
    ensures Total(w) == w[k] + Total(w - {k})
  {
    var j :| j in w && Total(w) == w[j] + Total(w - {j});
    if j != k {
      TotalPick(w - {j}, k);
      TotalPick(w - {k}, j);
      assert w - {j} - {k} == w - {k} - {j};
    }
  }

  /** The sum along a visiting order. */
  function SumAlong<K>(w: map<K, nat>, order: seq<K>): nat
    requires forall k :: k in order ==> k in w
  {
    if order == [] then 0
    else
      assert forall k :: k in order[..|order| - 1] ==> k in order;
      SumAlong(w, order[..|order| - 1]) + w[order[|order| - 1]]
  }

  /** Every entry outside `rest` has been visited once. */
  ghost predicate Visited<K(!new)>(w: map<K, nat>, rest: set<K>, order: seq<K>) {
    NoDuplicates(order) && forall k :: k in order <==> k in w && k !in rest
  }

  lemma {:induction false} VisitOne<K(!new)>(w: map<K, nat>, rest: set<K>, order: seq<K>, k: K)
    requires Visited(w, rest, order) && k in w && k in rest
    ensures Visited(w, rest - {k}, order + [k])
    ensures SumAlong(w, order + [k]) == SumAlong(w, order) + w[k]
  {
    assert (order + [k])[..|order|] == order;
  }

  lemma {:induction false} VisitAll<K(!new)>(w: map<K, nat>, order: seq<K>)
    requires Visited(w, {}, order)
    ensures SumAlong(w, order) == Total(w)
    decreases |order|
  {
    if order == [] {
      assert w == map[];
    } else {
      var past, k := order[..|order| - 1], order[|order| - 1];
      assert order == past + [k];
      var w' := w - {k};
      VisitAll(w', past);
      SameAlong(w, w', past);
      TotalPick(w, k);
    }
  }

  lemma {:induction false} SameAlong<K(!new)>(w: map<K, nat>, w': map<K, nat>, order: seq<K>)
    requires forall k :: k in order ==> k in w && k in w' && w[k] == w'[k]
    ensures SumAlong(w, order) == SumAlong(w', order)
  {
    if order != [] {
      assert order == order[..|order| - 1] + [order[|order| - 1]];
      SameAlong(w, w', order[..|order| - 1]);
    }
  }

  function DataSizes(buffered: map<nat, Timestamped>): map<nat, nat> {
    map q | q in buffered :: |buffered[q].data|
  }

  ghost function HeldBytes(ss: SessionStates): map<SessionKey, nat> {
    map k | k in ss :: Total(DataSizes(ss[k].buffered))
  }

  function HeldSegments(ss: SessionStates): map<SessionKey, nat> {
    map k | k in ss :: |ss[k].buffered|
  }

  /** The numbers of segments and bytes held in the buffers, over all sessions. */
  ghost predicate IsHeld(ss: SessionStates, segments: nat, bytes: nat) {
    segments == Total(HeldSegments(ss)) && bytes == Total(HeldBytes(ss))
  }

  /** Part way through the discard: the sessions outside `rest` are cleared, and what they held is counted. */
  ghost predicate Tally(ss: SessionStates, now: SessionStates, rest: set<SessionKey>, order: seq<SessionKey>,
                        segments: nat, bytes: nat)
  {
    && now == ClearedExcept(ss, rest)
    && Visited(HeldSegments(ss), rest, order) && segments == SumAlong(HeldSegments(ss), order)
    && Visited(HeldBytes(ss), rest, order) && bytes == SumAlong(HeldBytes(ss), order)
  }

  lemma {:induction false} TallyNone(ss: SessionStates)
    ensures Tally(ss, ss, ss.Keys, [], 0, 0)
  {
    ClearEnds(ss);
  }

  lemma {:induction false} TallyOne(ss: SessionStates, now: SessionStates, rest: set<SessionKey>,
                                    order: seq<SessionKey>, segments: nat, bytes: nat, k: SessionKey)
    requires Tally(ss, now, rest, order, segments, bytes) && k in rest && k in ss
    ensures k in now && now[k] == ss[k]
    ensures Tally(ss, now[k := now[k].(buffered := map[])], rest - {k}, order + [k],
                  segments + |now[k].buffered|, bytes + Total(DataSizes(now[k].buffered)))
  {
    ClearOne(ss, rest, k);
    VisitOne(HeldSegments(ss), rest, order, k);
    VisitOne(HeldBytes(ss), rest, order, k);
  }

  lemma {:induction false} TallyAll(ss: SessionStates, now: SessionStates, order: seq<SessionKey>, segments: nat,
                                    bytes: nat)
    requires Tally(ss, now, {}, order, segments, bytes)
    ensures now == Cleared(ss) && IsHeld(ss, segments, bytes)
  {
    ClearEnds(ss);
    VisitAll(HeldSegments(ss), order);
    VisitAll(HeldBytes(ss), order);
  }
}
