/** Incremental framing of reassembled chunks, with the observation time of each message's first byte. */
module MessageDecoders {
  import opened Prelude
  import opened Framing

  /** Offset into the buffer at which a chunk's bytes begin, with that chunk's observation time. */
  datatype Mark = Mark(offset: int, timestamp: int)

  function DataOf(ms: seq<Timestamped>): seq<seq<byte>> {
    seq(|ms|, i requires 0 <= i < |ms| => ms[i].data)
  }

  /** Position in the stream of the first byte after the messages. */
  function LengthOf(ms: seq<Timestamped>): nat {
    if ms == [] then 0 else LengthOf(ms[..|ms| - 1]) + |ms[|ms| - 1].data|
  }

  function Repeat(t: int, n: nat): seq<int> {
    seq(n, i => t)
  }

  /** The compact marks stand for one observation time per buffered byte: the bytes from the last mark on were observed
      at its time, and the earlier marks stand for the bytes before it. */
  ghost predicate Represents(marks: seq<Mark>, times: seq<int>) {
    if marks == [] then times == []
    else
      var last := marks[|marks| - 1];
      && 0 <= last.offset < |times|
      && times[last.offset..] == Repeat(last.timestamp, |times| - last.offset)
      && Represents(marks[..|marks| - 1], times[..last.offset])
  }

  /** Byte `i` of `n` lies at or after mark `m` and before the next mark. */
  predicate Covers(marks: seq<Mark>, m: nat, i: int, n: nat)
    requires m < |marks|
  {
    marks[m].offset <= i < n && (m + 1 == |marks| || i < marks[m + 1].offset)
  }

  /** What representing means mark by mark: the first mark is at offset zero, offsets ascend, and each byte has the
      time of the mark that covers it. */
  lemma {:induction false} MarksCoverBytes(marks: seq<Mark>, times: seq<int>)
    requires Represents(marks, times)
    ensures marks == [] <==> times == []
    ensures marks != [] ==> marks[0].offset == 0 && marks[0].timestamp == times[0]
    ensures forall m :: 0 <= m < |marks| ==> 0 <= marks[m].offset < |times|
    ensures forall m, n :: 0 <= m < n < |marks| ==> marks[m].offset < marks[n].offset
    ensures forall m, i :: 0 <= m < |marks| && Covers(marks, m, i, |times|) ==> times[i] == marks[m].timestamp
  {
    if marks != [] {
      var n := |marks| - 1;
      var last := marks[n];
      MarksCoverBytes(marks[..n], times[..last.offset]);
      forall m, i | 0 <= m < |marks| && Covers(marks, m, i, |times|)
        ensures times[i] == marks[m].timestamp
      {
        if m == n {
          assert times[i] == times[last.offset..][i - last.offset];
        } else {
          assert marks[..n][m] == marks[m];
          assert times[i] == times[..last.offset][i];
        }
      }
      if n == 0 {
        assert times[0] == times[last.offset..][0];
      } else {
        assert marks[0] == marks[..n][0];
        assert times[0] == times[..last.offset][0];
      }
    }
  }

  /** Every message carries the time at which its own first byte was observed. */
  ghost predicate FirstByteTimes(ms: seq<Timestamped>, times: seq<int>) {
    ms == [] ||
    (var past, last := ms[..|ms| - 1], ms[|ms| - 1];
     && FirstByteTimes(past, times)
     && LengthOf(past) < |times|
     && last.timestamp == times[LengthOf(past)])
  }

  lemma {:induction false} FirstByteTimesAt(ms: seq<Timestamped>, times: seq<int>, i: nat)
    requires FirstByteTimes(ms, times) && i < |ms|
    ensures LengthOf(ms[..i]) < |times| && ms[i].timestamp == times[LengthOf(ms[..i])]
  {
    if i < |ms| - 1 {
      FirstByteTimesAt(ms[..|ms| - 1], times, i);
      assert ms[..|ms| - 1][..i] == ms[..i];
    }
  }

  /** The messages `ms` have been cut off the stream; framing what is left gives the others. */
  ghost predicate Pending(fed: seq<byte>, ms: seq<seq<byte>>, left: seq<byte>) {
    Frame(fed) == Framed(ms + Frame(left).messages, Frame(left).rest)
  }

  lemma {:induction false} ExtendPending(fed: seq<byte>, ms: seq<seq<byte>>, left: seq<byte>, data: seq<byte>)
    requires Frame(fed) == Framed(ms, left)
    ensures Pending(fed + data, ms, left + data)
  {
    FrameAppend(fed, data);
  }

  lemma {:induction false} CutPending(fed: seq<byte>, ms: seq<seq<byte>>, left: seq<byte>, messageEnd: nat)
    requires Pending(fed, ms, left) && 4 <= messageEnd && FindTerminator(left) == Some(messageEnd - 4)
    ensures Pending(fed, ms + [left[..messageEnd]], left[messageEnd..])
  {
    FrameCut(left, messageEnd - 4);
    var later := Frame(left[messageEnd..]).messages;
    assert ms + ([left[..messageEnd]] + later) == (ms + [left[..messageEnd]]) + later;
  }

  lemma {:induction false} PendingDone(fed: seq<byte>, ms: seq<seq<byte>>, left: seq<byte>)
    requires Pending(fed, ms, left) && FindTerminator(left) == None
    ensures Frame(fed) == Framed(ms, left)
  {
  }

  ghost predicate Decoding(fed: seq<byte>, times: seq<int>, framed: seq<Timestamped>, buffer: seq<byte>,
                           marks: seq<Mark>)
  {
    && |times| == |fed|
    && LengthOf(framed) + |buffer| == |fed|
    && Pending(fed, DataOf(framed), buffer)
    && Represents(marks, times[|fed| - |buffer|..])
    && FirstByteTimes(framed, times)
  }

  lemma {:induction false} ExtendDecoding(fed: seq<byte>, times: seq<int>, framed: seq<Timestamped>, buffer: seq<byte>,
                                          marks: seq<Mark>, chunk: Timestamped)
    requires Decoding(fed, times, framed, buffer, marks) && Frame(fed) == Framed(DataOf(framed), buffer)
    ensures Decoding(fed + chunk.data, times + Repeat(chunk.timestamp, |chunk.data|), framed, buffer + chunk.data,
                     if chunk.data == [] then marks else marks + [Mark(|buffer|, chunk.timestamp)])
  {
    var n := |chunk.data|;
    ExtendPending(fed, DataOf(framed), buffer, chunk.data);
    AppendMark(marks, times[|fed| - |buffer|..], chunk.timestamp, n);
    TailAppend(times, |buffer|, Repeat(chunk.timestamp, n));
    EarlierTimes(framed, times, Repeat(chunk.timestamp, n));
  }

  lemma {:induction false} CutDecoding(fed: seq<byte>, times: seq<int>, framed: seq<Timestamped>, buffer: seq<byte>,
                                       marks: seq<Mark>, messageEnd: nat, marks': seq<Mark>)
    requires Decoding(fed, times, framed, buffer, marks)
    requires 4 <= messageEnd <= |buffer| && FindTerminator(buffer) == Some(messageEnd - 4)
    requires Represents(marks', times[|fed| - |buffer|..][messageEnd..])
    ensures marks != []
    ensures Decoding(fed, times, framed + [Timestamped(marks[0].timestamp, buffer[..messageEnd])],
                     buffer[messageEnd..], marks')
  {
    var held := times[|fed| - |buffer|..];
    MarksCoverBytes(marks, held);
    LogOne(framed, Timestamped(marks[0].timestamp, buffer[..messageEnd]), times);
    CutPending(fed, DataOf(framed), buffer, messageEnd);
    assert times[|fed| - |buffer[messageEnd..]|..] == held[messageEnd..];
  }

  /** The unframed end of a stream, with the observation time of its first byte. */
  ghost predicate IsRemainder(fed: seq<byte>, times: seq<int>, r: Option<Timestamped>) {
    var rest := Frame(fed).rest;
    if rest == [] then r == None
    else |rest| <= |fed| == |times| && r == Some(Timestamped(times[|fed| - |rest|], rest))
  }

  class MessageDecoder {
    var buffer: seq<byte>
    var marks: seq<Mark>
    /** Since the last flush: the bytes fed, one observation time for each of them, and the messages returned. */
    ghost var fed: seq<byte>
    ghost var times: seq<int>
    ghost var framed: seq<Timestamped>

    /** Between calls: everything that can be framed has been. */
    ghost predicate Valid()
      reads this
    {
      && Partial()
      && Frame(fed) == Framed(DataOf(framed), buffer)
    }

    /** While a chunk is being framed: the messages still to come are those of the buffer. */
    ghost predicate Partial()
      reads this
    {
      Decoding(fed, times, framed, buffer, marks)
    }

    constructor ()
      ensures Valid() && fed == [] && framed == []
    {
      buffer, marks := [], [];
      fed, times, framed := [], [], [];
    }

    method Feed(chunk: Timestamped) returns (out: seq<Timestamped>)
      requires Valid()
      modifies this
      ensures Valid()
      ensures fed == old(fed) + chunk.data
      ensures times == old(times) + Repeat(chunk.timestamp, |chunk.data|)
      ensures framed == old(framed) + out
    {
      Extend(chunk);
      out := [];
      while true
        invariant Partial()
        invariant fed == old(fed) + chunk.data
        invariant times == old(times) + Repeat(chunk.timestamp, |chunk.data|)
        invariant framed == old(framed) + out
        decreases |buffer|
      {
        var boundary := FindTerminator(buffer);
        if boundary.None? {
          PendingDone(fed, DataOf(framed), buffer);
          return;
        }
        var message := TakeMessage(boundary.value + 4);
        out := out + [message];
      }
    }

    /** Buffers a chunk and marks where its bytes begin; an empty chunk leaves no mark. */
    method Extend(chunk: Timestamped)
      requires Valid()
      modifies this
      ensures Partial()
      ensures fed == old(fed) + chunk.data && framed == old(framed)
      ensures times == old(times) + Repeat(chunk.timestamp, |chunk.data|)
    {
      ExtendDecoding(fed, times, framed, buffer, marks, chunk);
      fed := fed + chunk.data;
      times := times + Repeat(chunk.timestamp, |chunk.data|);
      if chunk.data != [] {
        marks := marks + [Mark(|buffer|, chunk.timestamp)];
        buffer := buffer + chunk.data;
      } else {
        assert buffer + chunk.data == buffer;
      }
    }

    /** Cuts the first message off the buffer. */
    method TakeMessage(messageEnd: nat) returns (message: Timestamped)
      requires Partial() && 4 <= messageEnd && FindTerminator(buffer) == Some(messageEnd - 4)
      modifies this
      ensures Partial()
      ensures fed == old(fed) && times == old(times) && framed == old(framed) + [message]
      ensures |buffer| < old(|buffer|)
    {
      ghost var held := times[|fed| - |buffer|..];
      MarksCoverBytes(marks, held);
      message := Timestamped(FirstByteTimestamp(), buffer[..messageEnd]);
      buffer := buffer[messageEnd..];
      AdvanceMarks(messageEnd, held);
      CutDecoding(fed, times, framed, old(buffer), old(marks), messageEnd, marks);
      framed := framed + [message];
    }

    /** Gives up the incomplete remainder, if there is one, and starts over. */
    method Flush() returns (remainder: Option<Timestamped>)
      requires Valid()
      modifies this
      ensures Valid() && fed == [] && framed == []
      ensures IsRemainder(old(fed), old(times), remainder)
    {
      if buffer == [] {
        remainder := None;
      } else {
        MarksCoverBytes(marks, times[|fed| - |buffer|..]);
        remainder := Some(Timestamped(FirstByteTimestamp(), buffer));
        buffer, marks := [], [];
      }
      fed, times, framed := [], [], [];
    }

    function FirstByteTimestamp(): int
      requires marks != []
      reads this
    {
      marks[0].timestamp
    }

    /** Rebases the marks after `consumed` bytes have left the front of the buffer. */
    method AdvanceMarks(consumed: nat, ghost before: seq<int>)
      requires consumed <= |before| && |buffer| == |before| - consumed
      requires Represents(marks, before)
      modifies this`marks
      ensures Represents(marks, before[consumed..])
    {
      if buffer == [] {
        marks := [];
        return;
      }
      var current := marks;
      var rebased: seq<Mark> := [];
      for i := 0 to |current|
        invariant rebased == Rebased(current[..i], consumed)
      {
        assert current[..i + 1][..i] == current[..i];
        var moved := current[i].offset - consumed;
        if moved <= 0 {
          rebased := [Mark(0, current[i].timestamp)];
        } else {
          rebased := rebased + [Mark(moved, current[i].timestamp)];
        }
      }
      assert current[..|current|] == current;
      RebasedRepresents(current, before, consumed);
      marks := rebased;
    }
  }

  /** The marks after `consumed` bytes left: those at or before the cut collapse into the last of them, at zero. */
  function Rebased(marks: seq<Mark>, consumed: nat): seq<Mark> {
    if marks == [] then []
    else
      var last := marks[|marks| - 1];
      if last.offset <= consumed then [Mark(0, last.timestamp)]
      else Rebased(marks[..|marks| - 1], consumed) + [Mark(last.offset - consumed, last.timestamp)]
  }

  lemma {:induction false} RebasedRepresents(marks: seq<Mark>, times: seq<int>, consumed: nat)
    requires Represents(marks, times) && consumed < |times|
    ensures Represents(Rebased(marks, consumed), times[consumed..])
  {
    var n := |marks| - 1;
    var last := marks[n];
    var later := times[consumed..];
    if last.offset <= consumed {
      assert later == times[last.offset..][consumed - last.offset..];
      assert later == Repeat(last.timestamp, |later|);
      assert later[0..] == later && later[..0] == [];
      var one := [Mark(0, last.timestamp)];
      assert one[..|one| - 1] == [];
    } else {
      RebasedRepresents(marks[..n], times[..last.offset], consumed);
      var rebased := Rebased(marks, consumed);
      assert rebased[..|rebased| - 1] == Rebased(marks[..n], consumed);
      assert later[last.offset - consumed..] == times[last.offset..];
      assert later[..last.offset - consumed] == times[..last.offset][consumed..];
    }
  }

  lemma {:induction false} AppendMark(marks: seq<Mark>, times: seq<int>, t: int, n: nat)
    requires Represents(marks, times)
    ensures Represents(if n == 0 then marks else marks + [Mark(|times|, t)], times + Repeat(t, n))
  {
    if n == 0 {
      assert times + Repeat(t, n) == times;
      return;
    }
    var marks', times' := marks + [Mark(|times|, t)], times + Repeat(t, n);
    assert marks'[..|marks|] == marks;
    assert times'[..|times|] == times && times'[|times|..] == Repeat(t, n);
  }

  lemma {:induction false} TailAppend(times: seq<int>, held: nat, more: seq<int>)
    requires held <= |times|
    ensures (times + more)[|times + more| - (held + |more|)..] == times[|times| - held..] + more
  {
  }

  lemma {:induction false} EarlierTimes(ms: seq<Timestamped>, times: seq<int>, more: seq<int>)
    requires FirstByteTimes(ms, times)
    ensures FirstByteTimes(ms, times + more)
  {
    if ms != [] {
      EarlierTimes(ms[..|ms| - 1], times, more);
    }
  }

  lemma {:induction false} LogOne(ms: seq<Timestamped>, m: Timestamped, times: seq<int>)
    requires FirstByteTimes(ms, times) && LengthOf(ms) < |times| && m.timestamp == times[LengthOf(ms)]
    ensures FirstByteTimes(ms + [m], times)
    ensures LengthOf(ms + [m]) == LengthOf(ms) + |m.data|
    ensures DataOf(ms + [m]) == DataOf(ms) + [m.data]
  {
    assert (ms + [m])[..|ms|] == ms;
  }

  /** Chunking invariance: decoders fed the same bytes in different chunks returned the same messages and hold the same
      remainder; where the bytes also carry the same times, the timestamps agree too. */
  lemma {:induction false} ChunkingInvariance(a: MessageDecoder, b: MessageDecoder)
    requires a.Valid() && b.Valid() && a.fed == b.fed
    ensures DataOf(a.framed) == DataOf(b.framed) && a.buffer == b.buffer
    ensures IsFraming(a.fed, Framed(DataOf(a.framed), a.buffer))
    ensures a.times == b.times ==> a.framed == b.framed
  {
    FrameIsFraming(a.fed);
    if a.times == b.times {
      SameFirstBytes(a.framed, b.framed, a.times);
    }
  }

  lemma {:induction false} SameFirstBytes(a: seq<Timestamped>, b: seq<Timestamped>, times: seq<int>)
    requires DataOf(a) == DataOf(b) && FirstByteTimes(a, times) && FirstByteTimes(b, times)
    ensures a == b && LengthOf(a) == LengthOf(b)
  {
    assert |a| == |DataOf(a)| == |b|;
    if a != [] {
      var n := |a| - 1;
      assert DataOf(a[..n]) == DataOf(a)[..n] == DataOf(b[..n]);
      SameFirstBytes(a[..n], b[..n], times);
      assert a[n].data == DataOf(a)[n] == DataOf(b)[n] == b[n].data;
      assert a == a[..n] + [a[n]] && b == b[..n] + [b[n]];
    }
  }
}
