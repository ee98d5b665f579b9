/**
 * Reads that are dropped while they wait. What has arrived by then decides what is lost: whatever the read took for
 * its stages and its message under way is gone, and the next read begins after it.
 */
module WebSocketDropped {
  import opened Options
  import opened Bytes
  import opened ByteStream
  import opened WebSocket
  import opened WebSocketMessages

  // ---------------------------------------------------------------- one frame

  /** The two first bytes and the length, without the key. */
  function LengthEnd(b1: Byte): nat { 2 + ExtendedBytes(b1) }

  function HeaderEnd(b1: Byte): nat { LengthEnd(b1) + if b1 >= 128 then 4 else 0 }

  function FrameSize(s: seq<Byte>): nat
    requires |s| >= 2 && |s| >= LengthEnd(s[1])
  {
    HeaderEnd(s[1]) + LengthValue(s[1], s[2..LengthEnd(s[1])])
  }

  /** A whole frame has arrived. */
  predicate WholeFrame(s: seq<Byte>) { |s| >= 2 && |s| >= LengthEnd(s[1]) && |s| >= FrameSize(s) }

  /** What a read that waits for the rest of a frame has taken of it: the stages that were complete. */
  function FrameTaken(s: seq<Byte>): nat {
    if |s| < 2 then 0
    else if |s| < LengthEnd(s[1]) then 2
    else if |s| < HeaderEnd(s[1]) then LengthEnd(s[1])
    else HeaderEnd(s[1])
  }

  lemma FrameCut(s: seq<Byte>, ending: Ending)
    ensures ParseFrame(s, ending).parsed.Got? <==> WholeFrame(s)
    ensures ParseFrame(s, ending).parsed.End? <==> |s| < 2
    ensures ParseFrame(s, ending).rest == if WholeFrame(s) then s[FrameSize(s)..] else s[FrameTaken(s)..]
  {
    if |s| >= 2 {
      AfterTwo(s, ending);
    }
  }

  lemma AfterTwo(s: seq<Byte>, ending: Ending)
    requires |s| >= 2
    ensures ParseFrame(s, ending).parsed.Got? <==> WholeFrame(s)
    ensures !ParseFrame(s, ending).parsed.End?
    ensures ParseFrame(s, ending).rest == if WholeFrame(s) then s[FrameSize(s)..] else s[FrameTaken(s)..]
  {
    var b1 := s[1];
    assert s[..2][1] == b1;
    LengthCut(s, ending);
    if |s| >= LengthEnd(b1) {
      KeyCut(s, ending);
      if |s| >= HeaderEnd(b1) {
        BodyCut(s, ending);
      }
    }
  }

  lemma LengthCut(s: seq<Byte>, ending: Ending)
    requires |s| >= 2
    ensures var p := ParseLength(s[1], s[2..], ending);
      if |s| < LengthEnd(s[1]) then p.parsed.Broken? && p.rest == s[2..]
      else p == Parse(Got(LengthValue(s[1], s[2..LengthEnd(s[1])])), s[LengthEnd(s[1])..])
  {
    if |s| >= LengthEnd(s[1]) {
      assert s[2..][..ExtendedBytes(s[1])] == s[2..LengthEnd(s[1])];
      assert s[2..][ExtendedBytes(s[1])..] == s[LengthEnd(s[1])..];
    }
  }

  lemma KeyCut(s: seq<Byte>, ending: Ending)
    requires |s| >= 2 && |s| >= LengthEnd(s[1])
    ensures var p := ParseKey(s[1] >= 128, s[LengthEnd(s[1])..], ending);
      if |s| < HeaderEnd(s[1]) then p.parsed.Broken? && p.rest == s[LengthEnd(s[1])..]
      else p.parsed.Got? && p.rest == s[HeaderEnd(s[1])..]
  {}

  lemma BodyCut(s: seq<Byte>, ending: Ending)
    requires |s| >= 2 && |s| >= HeaderEnd(s[1])
    ensures var n := LengthValue(s[1], s[2..LengthEnd(s[1])]);
      Exactly(s[HeaderEnd(s[1])..], n, ending).value.Ok? <==> WholeFrame(s)
    ensures var n := LengthValue(s[1], s[2..LengthEnd(s[1])]);
      Exactly(s[HeaderEnd(s[1])..], n, ending).rest == s[if WholeFrame(s) then FrameSize(s) else HeaderEnd(s[1])..]
  {}

  lemma TakeStays(s: seq<Byte>, t: seq<Byte>, n: nat, ending: Ending)
    requires n <= |s|
    ensures Exactly(s + t, n, ending) == Outcome(Ok(s[..n]), s[n..] + t)
  {
    assert (s + t)[..n] == s[..n] && (s + t)[n..] == s[n..] + t;
  }

  lemma LengthStays(b: Byte, s: seq<Byte>, t: seq<Byte>, ending: Ending)
    requires ParseLength(b, s, ending).parsed.Got?
    ensures ParseLength(b, s + t, ending) ==
            Parse(ParseLength(b, s, ending).parsed, ParseLength(b, s, ending).rest + t)
  {
    TakeStays(s, t, ExtendedBytes(b), ending);
  }

  lemma KeyStays(masked: bool, s: seq<Byte>, t: seq<Byte>, ending: Ending)
    requires ParseKey(masked, s, ending).parsed.Got?
    ensures ParseKey(masked, s + t, ending) ==
            Parse(ParseKey(masked, s, ending).parsed, ParseKey(masked, s, ending).rest + t)
  {
    if masked {
      TakeStays(s, t, 4, ending);
    }
  }

  /** A frame that has been read reads the same whatever follows it. */
  lemma FrameStays(s: seq<Byte>, t: seq<Byte>, ending: Ending)
    requires ParseFrame(s, ending).parsed.Got?
    ensures ParseFrame(s + t, ending) == Parse(ParseFrame(s, ending).parsed, ParseFrame(s, ending).rest + t)
  {
    var b0, b1, r1 := s[0], s[1], s[2..];
    var len := ParseLength(b1, r1, ending);
    var key := ParseKey(b1 >= 128, len.rest, ending);
    var n := len.parsed.value;
    TakeStays(s, t, 2, ending);
    assert s[..2] == [b0, b1];
    LengthStays(b1, r1, t, ending);
    KeyStays(b1 >= 128, len.rest, t, ending);
    TakeStays(key.rest, t, n, ending);
    Stages(s + t, b0, b1, r1 + t, n, len.rest + t, key.parsed.value, key.rest + t, key.rest[..n], key.rest[n..] + t,
           ending);
  }

  // ---------------------------------------------------------------- a message

  predicate Waits(what: Received) { what.Gone? || what.Cut? }

  /** How many bytes the whole frames at the front have. */
  function WholeFrames(s: seq<Byte>): (n: nat)
    ensures n <= |s|
    decreases |s|
  {
    if WholeFrame(s) then FrameSize(s) + WholeFrames(s[FrameSize(s)..]) else 0
  }

  /** What a read leaves that was dropped when `arrived` was all there was. */
  function Left(arrived: seq<Byte>): seq<Byte> {
    var last := arrived[WholeFrames(arrived)..];
    last[FrameTaken(last)..]
  }

  /**
   * A read that waits has taken every whole frame into the message under way, and of the frame in hand the stages that
   * were complete.
   */
  lemma {:induction false} WaitingTook(s: seq<Byte>, part: Option<Part>, ending: Ending)
    requires Waits(ParseMessage(s, part, ending).what)
    ensures ParseMessage(s, part, ending).rest == Left(s)
    ensures ParseMessage(s, part, ending).what.Gone? <==> |s| - WholeFrames(s) < 2
    decreases |s|
  {
    FrameCut(s, ending);
    if WholeFrame(s) {
      var p := ParseFrame(s, ending);
      ParseStep(s, part, p.parsed.value, p.rest, ending);
      WaitingTook(p.rest, Step(part, p.parsed.value).value, ending);
      LeftNext(s);
    } else {
      assert s[0..] == s;
      assert ParseMessage(s, part, ending).rest == s[FrameTaken(s)..];
    }
  }

  /** Nothing is taken only while not even two bytes have arrived. */
  lemma LeftAll(s: seq<Byte>)
    ensures Left(s) == s <==> |s| < 2
  {
    assert s[0..][0..] == s;
  }

  lemma LeftNext(s: seq<Byte>)
    requires WholeFrame(s)
    ensures Left(s) == Left(s[FrameSize(s)..])
    ensures WholeFrames(s) == FrameSize(s) + WholeFrames(s[FrameSize(s)..])
  {
    AfterWhole(s);
  }

  lemma AfterWhole(s: seq<Byte>)
    requires WholeFrame(s)
    ensures s[WholeFrames(s)..] == s[FrameSize(s)..][WholeFrames(s[FrameSize(s)..])..]
    ensures WholeFrames(s) > 0
  {}

  /** Reading on where a read waits goes on with the message under way. */
  lemma {:induction false} ReadingOn(s: seq<Byte>, t: seq<Byte>, part: Option<Part>, ending: Ending)
    returns (under: Option<Part>)
    requires Waits(ParseMessage(s, part, ending).what)
    ensures ParseMessage(s + t, part, ending) == ParseMessage(s[WholeFrames(s)..] + t, under, ending)
    ensures if WholeFrames(s) == 0 then under == part else under.Some?
    decreases |s|
  {
    FrameCut(s, ending);
    if WholeFrame(s) {
      var p, rest := ParseFrame(s, ending), s[FrameSize(s)..];
      FrameStays(s, t, ending);
      var more := Step(part, p.parsed.value);
      ParseStep(s, part, p.parsed.value, rest, ending);
      ParseStep(s + t, part, p.parsed.value, rest + t, ending);
      under := ReadingOn(rest, t, more.value, ending);
      AfterWhole(s);
    } else {
      under := part;
      assert s[0..] == s;
    }
  }

  /** A frame that is no continuation does not look at the message under way. */
  lemma FreshFrame(s: seq<Byte>, part: Option<Part>, ending: Ending)
    requires s != [] && s[0] % 16 != 0
    ensures ParseMessage(s, part, ending) == ParseMessage(s, None, ending)
  {
    var p := ParseFrame(s, ending);
    if p.parsed.Got? {
      assert p.parsed.value.opcode == s[0] % 16;
      ParseStep(s, part, p.parsed.value, p.rest, ending);
      ParseStep(s, None, p.parsed.value, p.rest, ending);
    }
  }

  // ---------------------------------------------------------------- when dropping does no harm

  /** The message read next is the one that would have been read, if `t` arrives after the drop. */
  ghost predicate SameNext(arrived: seq<Byte>, t: seq<Byte>, ending: Ending) {
    ParseMessage(Left(arrived) + t, None, ending) == ParseMessage(arrived + t, None, ending)
  }

  ghost predicate Harmless(arrived: seq<Byte>, ending: Ending) { forall t :: SameNext(arrived, t, ending) }

  /** At most the first byte of a frame has arrived, and any whole frames before it do not matter to that frame. */
  predicate Between(arrived: seq<Byte>) {
    |arrived| < 2 || (WholeFrames(arrived) == |arrived| - 1 && arrived[|arrived| - 1] % 16 != 0)
  }

  /**
   * Dropping a read that waits changes nothing, whatever arrives later, exactly if nothing was taken or if the one byte
   * left after whole frames begins a frame that is no continuation: that frame would have put aside what was taken.
   */
  lemma DropHarmlessIff(arrived: seq<Byte>, ending: Ending)
    requires Waits(ParseMessage(arrived, None, ending).what)
    ensures Harmless(arrived, ending) <==> Between(arrived)
  {
    if Between(arrived) {
      forall t ensures SameNext(arrived, t, ending) { BetweenSame(arrived, t, ending); }
    } else {
      var t := HarmfulTail(arrived, ending);
      assert !SameNext(arrived, t, ending);
    }
  }

  lemma BetweenSame(arrived: seq<Byte>, t: seq<Byte>, ending: Ending)
    requires Waits(ParseMessage(arrived, None, ending).what) && Between(arrived)
    ensures SameNext(arrived, t, ending)
  {
    LeftAll(arrived);
    if |arrived| >= 2 {
      var under := ReadingOn(arrived, t, None, ending);
      var last := arrived[|arrived| - 1..];
      assert Left(arrived) == last;
      FreshFrame(last + t, under, ending);
    }
  }

  lemma HarmfulTail(arrived: seq<Byte>, ending: Ending) returns (t: seq<Byte>)
    requires Waits(ParseMessage(arrived, None, ending).what) && !Between(arrived)
    ensures !SameNext(arrived, t, ending)
  {
    WaitingTook(arrived, None, ending);
    var left := Left(arrived);
    if ParseMessage(arrived, None, ending).what.Cut? {
      t := [];
      assert arrived + t == arrived && left + t == left;
      StillDiffers(arrived, ending);
    } else {
      t := if left == [] then [128, 0] else [0];
      OneLeft(arrived, t);
      var under := ReadingOn(arrived, t, None, ending);
      ContinuationTells(left + t, under.value, ending);
    }
  }

  lemma OneLeft(arrived: seq<Byte>, t: seq<Byte>)
    requires |arrived| - WholeFrames(arrived) < 2 && !Between(arrived)
    requires t == if Left(arrived) == [] then [128, 0] else [0]
    ensures Left(arrived) == arrived[WholeFrames(arrived)..] && WholeFrames(arrived) > 0
    ensures |Left(arrived) + t| == 2 && (Left(arrived) + t)[0] % 16 == 0 && (Left(arrived) + t)[1] == 0
  {
  }

  /** Cut inside a frame and with nothing more to come, the next read does not report the cut at the same place. */
  lemma StillDiffers(arrived: seq<Byte>, ending: Ending)
    requires ParseMessage(arrived, None, ending).what.Cut?
    ensures ParseMessage(Left(arrived), None, ending) != ParseMessage(arrived, None, ending)
  {
    WaitingTook(arrived, None, ending);
    LeftAll(Left(arrived));
    var next := ParseMessage(Left(arrived), None, ending);
    if next == ParseMessage(arrived, None, ending) {
      WaitingTook(Left(arrived), None, ending);
      FrameCut(Left(arrived), ending);
    }
  }

  /** An empty continuation frame is an error exactly if no message is under way. */
  lemma ContinuationTells(s: seq<Byte>, under: Part, ending: Ending)
    requires |s| == 2 && s[0] % 16 == 0 && s[1] == 0
    ensures ParseMessage(s, None, ending).what == UnexpectedContinuation
    ensures ParseMessage(s, Some(under), ending).what != UnexpectedContinuation
  {
    var rest := s[2..];
    assert rest[..0] == [] && rest[0..] == rest && s[..2] == [s[0], s[1]];
    Stages(s, s[0], 0, rest, 0, rest, None, rest, [], rest, ending);
    FrameCut(rest, ending);
  }

  /** A text whose two header bytes were taken by a dropped read: its payload is read as a close. */
  lemma DroppedReadDesyncs(ending: Ending)
    ensures ParseMessage([129, 2] + [136, 0], None, ending).what == Delivered(Text([136, 0]))
    ensures Waits(ParseMessage([129, 2], None, ending).what)
    ensures ParseMessage(Left([129, 2]) + [136, 0], None, ending).what == Delivered(Close(CLOSE_NORMAL, []))
  {
    OneFrame([129, 2] + [136, 0], Frame(true, 1, [136, 0]), ending);
    HeaderOnly([129, 2], ending);
    assert [] + [136, 0] == [136, 0];
    OneFrame([136, 0], Frame(true, 8, []), ending);
  }

  lemma HeaderOnly(s: seq<Byte>, ending: Ending)
    requires |s| == 2 && 0 < s[1] < 126
    ensures Waits(ParseMessage(s, None, ending).what) && Left(s) == []
  {
    assert LengthEnd(s[1]) == 2 && s[2..2] == [];
    assert FrameSize(s) == 2 + s[1];
    FrameCut(s, ending);
  }

  lemma OneFrame(s: seq<Byte>, f: Frame, ending: Ending)
    requires f.opcode < 16 && |f.payload| < 126 && s == Encode(f, None)
    ensures Step(None, f).Err? ==> ParseMessage(s, None, ending) == Next(Step(None, f).error, [])
  {
    FrameRoundTrip(f, None, [], ending);
    assert s + [] == s;
    ParseStep(s, None, f, [], ending);
  }

  // ---------------------------------------------------------------- over a stream

  /**
   * Reads until there is a result or the read waits; then it is dropped, and `later` arrives. All that had arrived is
   * what the stream could still return.
   */
  method ReadOrDrop(stream: TlsStream, later: seq<Byte>) returns (r: Option<Received>)
    requires stream.Valid()
    modifies stream
    ensures stream.Valid()
    ensures var next := ParseMessage(old(stream.Rest()), None, stream.ending);
      if Waits(next.what) then r == None && stream.Rest() == Left(old(stream.Rest())) + later
      else r == Some(next.what) && stream.Rest() == next.rest + later
  {
    ghost var arrived := stream.Rest();
    var what := ReadMessage(stream);
    r := if what.Gone? || what.Cut? then None else Some(what);
    if r.None? {
      WaitingTook(arrived, None, stream.ending);
    }
    stream.Arrive(later);
  }
}
