/** Cutting a byte stream into header blocks at the empty line (section 7 of RFC 3261). */
module Framing {
  import opened Prelude

  newtype byte = x: int | 0 <= x < 256

  const CR: byte := 13
  const LF: byte := 10

  /** Stream bytes, or a framed message, with the observation time of the first of them. */
  datatype Timestamped = Timestamped(timestamp: int, data: seq<byte>)

  datatype Framed = Framed(messages: seq<seq<byte>>, rest: seq<byte>)

  predicate TerminatorAt(d: seq<byte>, i: int) {
    0 <= i && i + 4 <= |d| && d[i] == CR && d[i + 1] == LF && d[i + 2] == CR && d[i + 3] == LF
  }

  /** The first occurrence of the terminator at or after `from`. */
  function FindFrom(d: seq<byte>, from: nat): (r: Option<nat>)
    ensures r.Some? ==>
      && from <= r.value && TerminatorAt(d, r.value)
      && forall i :: from <= i < r.value ==> !TerminatorAt(d, i)
    ensures r.None? ==> forall i :: from <= i ==> !TerminatorAt(d, i)
    decreases |d| - from
  {
    if |d| < from + 4 then None
    else if TerminatorAt(d, from) then Some(from)
    else FindFrom(d, from + 1)
  }

  function FindTerminator(d: seq<byte>): (r: Option<nat>)
    ensures r.Some? ==> TerminatorAt(d, r.value) && forall i :: 0 <= i < r.value ==> !TerminatorAt(d, i)
    ensures r.None? ==> forall i :: !TerminatorAt(d, i)
  {
    FindFrom(d, 0)
  }

  /** In plain bytes: the position found is the first of the four bytes 13, 10, 13, 10. */
  lemma {:induction false} TerminatorInBytes(d: seq<byte>, r: nat)
    ensures FindTerminator(d) == Some(r) <==>
      && r + 4 <= |d| && d[r..][..4] == [13, 10, 13, 10]
      && forall i :: 0 <= i < r ==> d[i..][..4] != [13, 10, 13, 10]
    ensures FindTerminator(d) == None <==> forall i :: 0 <= i <= |d| - 4 ==> d[i..][..4] != [13, 10, 13, 10]
  {
    forall i | 0 <= i <= |d| - 4 ensures TerminatorAt(d, i) <==> d[i..][..4] == [13, 10, 13, 10] {
      FourBytes(d, i);
    }
    assert forall i :: TerminatorAt(d, i) ==> 0 <= i <= |d| - 4;
  }

  lemma {:induction false} FourBytes(d: seq<byte>, i: nat)
    requires i + 4 <= |d|
    ensures TerminatorAt(d, i) <==> d[i..][..4] == [13, 10, 13, 10]
  {
    assert d[i..][..4] == [d[i], d[i + 1], d[i + 2], d[i + 3]];
  }

  /** Framing the whole stream at once: the reference for the incremental decoder. */
  function Frame(d: seq<byte>): Framed
    decreases |d|
  {
    match FindTerminator(d)
    case None => Framed([], d)
    case Some(b) =>
      var later := Frame(d[b + 4..]);
      Framed([d[..b + 4]] + later.messages, later.rest)
  }

  function Concat(ms: seq<seq<byte>>): seq<byte> {
    if ms == [] then [] else ms[0] + Concat(ms[1..])
  }

  /** A complete message: its first terminator is its last four bytes. */
  predicate IsMessage(m: seq<byte>) {
    4 <= |m| && FindTerminator(m) == Some(|m| - 4)
  }

  predicate IsFraming(d: seq<byte>, f: Framed) {
    && Concat(f.messages) + f.rest == d
    && (forall i :: 0 <= i < |f.messages| ==> IsMessage(f.messages[i]))
    && FindTerminator(f.rest) == None
  }

  lemma {:induction false} FirstTerminator(d: seq<byte>, b: nat)
    requires TerminatorAt(d, b) && forall i :: 0 <= i < b ==> !TerminatorAt(d, i)
    ensures FindTerminator(d) == Some(b)
  {
  }

  lemma {:induction false} CutMessage(d: seq<byte>, n: nat)
    requires 4 <= n <= |d|
    ensures IsMessage(d[..n]) <==> FindTerminator(d) == Some(n - 4)
  {
    assert forall i :: TerminatorAt(d[..n], i) <==> TerminatorAt(d, i) && i + 4 <= n;
  }

  lemma {:induction false} FrameCut(d: seq<byte>, b: nat)
    requires TerminatorAt(d, b) && forall i :: 0 <= i < b ==> !TerminatorAt(d, i)
    ensures Frame(d) == Framed([d[..b + 4]] + Frame(d[b + 4..]).messages, Frame(d[b + 4..]).rest)
  {
    FirstTerminator(d, b);
  }

  /** Messages followed by the remainder rebuild the stream; every message ends at its first terminator; the remainder
      has none. */
  lemma {:induction false} FrameIsFraming(d: seq<byte>)
    ensures IsFraming(d, Frame(d))
    decreases |d|
  {
    match FindTerminator(d)
    case None =>
    case Some(b) =>
      FrameIsFraming(d[b + 4..]);
      CutMessage(d, b + 4);
      FrameCut(d, b);
      PrependFraming(d[..b + 4], d[b + 4..], Frame(d[b + 4..]));
      assert d == d[..b + 4] + d[b + 4..];
  }

  /** In plain bytes: every message ends with 13, 10, 13, 10 and has them nowhere earlier, the remainder has them
      nowhere. */
  lemma {:induction false} FramesInBytes(d: seq<byte>)
    ensures forall m: seq<byte> :: m in Frame(d).messages ==>
      && 4 <= |m| && m[|m| - 4..] == [13, 10, 13, 10]
      && forall i :: 0 <= i < |m| - 4 ==> m[i..][..4] != [13, 10, 13, 10]
    ensures var rest := Frame(d).rest;
      forall i :: 0 <= i <= |rest| - 4 ==> rest[i..][..4] != [13, 10, 13, 10]
    ensures Concat(Frame(d).messages) + Frame(d).rest == d
  {
    FrameIsFraming(d);
    TerminatorInBytes(Frame(d).rest, 0);
    forall m: seq<byte> | m in Frame(d).messages
      ensures 4 <= |m| && m[|m| - 4..] == [13, 10, 13, 10]
      ensures forall i :: 0 <= i < |m| - 4 ==> m[i..][..4] != [13, 10, 13, 10]
    {
      assert IsMessage(m);
      TerminatorInBytes(m, |m| - 4);
      WholePrefix(m[|m| - 4..]);
    }
  }

  lemma {:induction false} PrependFraming(m: seq<byte>, tail: seq<byte>, f: Framed)
    requires IsMessage(m) && IsFraming(tail, f)
    ensures IsFraming(m + tail, Framed([m] + f.messages, f.rest))
  {
    var ms := [m] + f.messages;
    assert ms[1..] == f.messages;
    assert m + Concat(f.messages) + f.rest == m + (Concat(f.messages) + f.rest);
  }

  /** These three facts leave no freedom: `Frame` is the only framing of a stream. */
  lemma {:induction false} FramingIsUnique(d: seq<byte>, f: Framed)
    requires IsFraming(d, f)
    ensures f == Frame(d)
    decreases |f.messages|
  {
    if f.messages == [] {
      assert d == f.rest;
    } else {
      var m := f.messages[0];
      var later := Framed(f.messages[1..], f.rest);
      var tail := Concat(later.messages) + later.rest;
      assert d == m + tail;
      assert d[..|m|] == m && d[|m|..] == tail;
      CutMessage(d, |m|);
      FramingIsUnique(tail, later);
      assert f.messages == [m] + later.messages;
    }
  }

  /** Framing taken up again after `f` when the bytes `b` arrive: messages already cut off stay as they are. */
  function Resume(f: Framed, b: seq<byte>): Framed {
    var later := Frame(f.rest + b);
    Framed(f.messages + later.messages, later.rest)
  }

  lemma {:induction false} ResumeLater(m: seq<byte>, f: Framed, b: seq<byte>)
    ensures Resume(Framed([m] + f.messages, f.rest), b) ==
      Framed([m] + Resume(f, b).messages, Resume(f, b).rest)
  {
    var later := Frame(f.rest + b);
    assert [m] + (f.messages + later.messages) == ([m] + f.messages) + later.messages;
  }

  lemma {:induction false} FirstStaysFirst(a: seq<byte>, b: seq<byte>, i: nat)
    requires FindTerminator(a) == Some(i)
    ensures TerminatorAt(a + b, i) && forall j :: 0 <= j < i ==> !TerminatorAt(a + b, j)
    ensures (a + b)[..i + 4] == a[..i + 4] && (a + b)[i + 4..] == a[i + 4..] + b
  {
    forall j | 0 <= j <= i ensures TerminatorAt(a + b, j) <==> TerminatorAt(a, j) {
    }
  }

  lemma {:induction false} FrameAppend(a: seq<byte>, b: seq<byte>)
    ensures Frame(a + b) == Resume(Frame(a), b)
    decreases |a|
  {
    match FindTerminator(a)
    case None =>
      NothingFramed(a, b);
    case Some(i) =>
      FrameCut(a, i);
      FirstStaysFirst(a, b, i);
      FrameCut(a + b, i);
      FrameAppend(a[i + 4..], b);
      ResumeLater(a[..i + 4], Frame(a[i + 4..]), b);
  }

  lemma {:induction false} NothingFramed(a: seq<byte>, b: seq<byte>)
    requires FindTerminator(a) == None
    ensures Resume(Frame(a), b) == Frame(a + b)
  {
    assert [] + Frame(a + b).messages == Frame(a + b).messages;
  }

  /** Framing a prefix of a stream yields a prefix of the messages of the whole stream. */
  lemma {:induction false} FramePrefix(a: seq<byte>, d: seq<byte>)
    requires a <= d
    ensures Frame(a).messages <= Frame(d).messages
  {
    FrameAppend(a, d[|a|..]);
    assert a + d[|a|..] == d;
  }
}
