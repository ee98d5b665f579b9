/** WebSocket messages: one or more frames read into one message, and the methods that do it over a stream. */
module WebSocketMessages {
  import opened Options
  import opened Bytes
  import opened Machine
  import opened ByteStream
  import opened WebSocket
  import opened Sequences

  /** Text is its UTF-8 bytes; a close carries its code as the number on the wire. */
  datatype Message =
    | Text(data: seq<Byte>)
    | Binary(data: seq<Byte>)
    | Ping(data: seq<Byte>)
    | Pong(data: seq<Byte>)
    | Close(code: nat, reason: seq<Byte>)

  const CLOSE_NORMAL := 1000

  datatype Received =
    | Delivered(message: Message)
    | Gone                        // the stream ended between frames
    | Cut(fault: Fault)           // the stream ended inside a frame
    | UnexpectedContinuation
    | UnknownOpcode

  datatype Next = Next(what: Received, rest: seq<Byte>)

  /** A message under way: the opcode it began with, and its payload so far. */
  datatype Part = Part(opcode: nat, payload: seq<Byte>)

  function DataMessage(opcode: nat, data: seq<Byte>): Message { if opcode == 1 then Text(data) else Binary(data) }

  function ParseClose(payload: seq<Byte>): Message {
    if |payload| >= 2 then Close(Fold(0, payload[..2]), payload[2..]) else Close(CLOSE_NORMAL, [])
  }

  /** What one frame makes of a message under way: a result, or the message so far. */
  function Step(part: Option<Part>, f: Frame): Result<Option<Part>, Received> {
    if f.opcode == 0 then
      if part.None? then Err(UnexpectedContinuation)
      else
        var payload := part.value.payload + f.payload;
        if f.fin then Err(Delivered(DataMessage(part.value.opcode, payload)))
            else Ok(Some(Part(part.value.opcode, payload)))
    else if f.opcode == 1 || f.opcode == 2 then
      if f.fin then Err(Delivered(DataMessage(f.opcode, f.payload))) else Ok(Some(Part(f.opcode, f.payload)))
    else if f.opcode == 8 then Err(Delivered(ParseClose(f.payload)))
    else if f.opcode == 9 then Err(Delivered(Ping(f.payload)))
    else if f.opcode == 10 then Err(Delivered(Pong(f.payload)))
    else Err(UnknownOpcode)
  }

  /** The next message of the bytes to come; the message under way does not outlive the call. */
  function ParseMessage(s: seq<Byte>, part: Option<Part>, ending: Ending): Next
    decreases |s|
  {
    var p := ParseFrame(s, ending);
    match p.parsed
    case End => Next(Gone, p.rest)
    case Broken(fault) => Next(Cut(fault), p.rest)
    case Got(f) =>
      match Step(part, f)
      case Err(what) => Next(what, p.rest)
      case Ok(more) => ParseMessage(p.rest, more, ending)
  }

  // ---------------------------------------------------------------- frames on the wire

  datatype Wire = Wire(frame: Frame, key: Option<seq<Byte>>)

  ghost predicate Sendable(w: Wire) {
    w.frame.opcode < 16 && |w.frame.payload| < USIZE_WRAP && (w.key.Some? ==> |w.key.value| == 4)
  }

  ghost predicate AllSendable(ws: seq<Wire>) { forall i | 0 <= i < |ws| :: Sendable(ws[i]) }

  function OnWire(ws: seq<Wire>): seq<Byte>
    requires forall i | 0 <= i < |ws| :: ws[i].frame.opcode < 16 && (ws[i].key.Some? ==> |ws[i].key.value| == 4)
  {
    if ws == [] then [] else Encode(ws[0].frame, ws[0].key) + OnWire(ws[1..])
  }

  lemma FrameFirst(ws: seq<Wire>, tail: seq<Byte>, ending: Ending)
    requires AllSendable(ws) && ws != []
    ensures ParseFrame(OnWire(ws) + tail, ending) == Parse(Got(ws[0].frame), OnWire(ws[1..]) + tail)
  {
    var rest := OnWire(ws[1..]);
    assert OnWire(ws) + tail == Encode(ws[0].frame, ws[0].key) + (rest + tail);
    FrameRoundTrip(ws[0].frame, ws[0].key, rest + tail, ending);
  }

  /** What a message is sent as. */
  function FrameOf(m: Message): Frame {
    match m
    case Text(data) => Frame(true, 1, data)
    case Binary(data) => Frame(true, 2, data)
    case Ping(data) => Frame(true, 9, data)
    case Pong(data) => Frame(true, 10, data)
    case Close(code, reason) => Frame(true, 8, BigEndian(code, 2) + reason)
  }

  lemma CloseBack(code: nat, reason: seq<Byte>)
    requires code < 65536
    ensures ParseClose(BigEndian(code, 2) + reason) == Close(code, reason)
  {
    var head := BigEndian(code, 2);
    assert (head + reason)[..2] == head && (head + reason)[2..] == reason;
    assert Pow256(2) == 65536;
    FoldBigEndian(0, code, 2);
  }

  /** The opcodes of section 11.8 of RFC 6455, sent and received. */
  lemma Opcodes(data: seq<Byte>, ending: Ending)
    requires |data| < USIZE_WRAP
    ensures FrameOf(Text(data)).opcode == 1 && FrameOf(Binary(data)).opcode == 2
    ensures FrameOf(Ping(data)).opcode == 9 && FrameOf(Pong(data)).opcode == 10
    ensures forall code: nat, reason :: FrameOf(Close(code, reason)).opcode == 8
    ensures ParseMessage(Encode(Frame(true, 2, data), None) + [], None, ending).what == Delivered(Binary(data))
    ensures |data| < 2 ==>
              ParseMessage(Encode(Frame(true, 8, data), None) + [], None, ending).what == Delivered(Close(1000, []))
  {
    FrameRoundTrip(Frame(true, 2, data), None, [], ending);
    if |data| < 2 {
      FrameRoundTrip(Frame(true, 8, data), None, [], ending);
    }
  }

  /** Every message that is sent is the message that is received, and nothing after it is touched. */
  lemma MessageRoundTrip(m: Message, key: seq<Byte>, tail: seq<Byte>, ending: Ending)
    requires |key| == 4 && |FrameOf(m).payload| < USIZE_WRAP && (m.Close? ==> m.code < 65536)
    ensures ParseMessage(Encode(FrameOf(m), Some(key)) + tail, None, ending) == Next(Delivered(m), tail)
  {
    FrameRoundTrip(FrameOf(m), Some(key), tail, ending);
    if m.Close? {
      CloseBack(m.code, m.reason);
    }
  }

  // ---------------------------------------------------------------- fragmented messages

  predicate Control(f: Frame) { f.opcode == 8 || f.opcode == 9 || f.opcode == 10 }

  /** The frames after the first: unfinished continuations and control frames, then the last continuation. */
  predicate Continues(ws: seq<Wire>) {
    && ws != [] && ws[|ws| - 1].frame.opcode == 0 && ws[|ws| - 1].frame.fin
    && forall i | 0 <= i < |ws| - 1 :: Control(ws[i].frame) || (ws[i].frame.opcode == 0 && !ws[i].frame.fin)
  }

  predicate Interleaved(ws: seq<Wire>) { exists i :: 0 <= i < |ws| && Control(ws[i].frame) }

  function Payloads(ws: seq<Wire>): seq<Byte> {
    if ws == [] then [] else (if Control(ws[0].frame) then [] else ws[0].frame.payload) + Payloads(ws[1..])
  }

  lemma ContinuesTail(ws: seq<Wire>)
    requires Continues(ws) && !Control(ws[0].frame)
    ensures ws[0].frame.opcode == 0
    ensures if ws[0].frame.fin then ws[1..] == [] && !Interleaved(ws)
            else Continues(ws[1..]) && (Interleaved(ws) <==> Interleaved(ws[1..]))
  {
    var rest := ws[1..];
    assert forall i | 0 <= i < |rest| :: rest[i] == ws[i + 1];
    if i :| 0 <= i < |ws| && Control(ws[i].frame) {
      assert Control(rest[i - 1].frame);
    }
  }

  lemma ParseStep(s: seq<Byte>, part: Option<Part>, f: Frame, rest: seq<Byte>, ending: Ending)
    requires ParseFrame(s, ending) == Parse(Got(f), rest)
    ensures Step(part, f).Err? ==> ParseMessage(s, part, ending) == Next(Step(part, f).error, rest)
    ensures Step(part, f).Ok? ==> ParseMessage(s, part, ending) == ParseMessage(rest, Step(part, f).value, ending)
  {}

  lemma {:induction false} ContinuationsRead(ws: seq<Wire>, part: Part, tail: seq<Byte>, ending: Ending)
    requires AllSendable(ws) && Continues(ws)
    ensures var next := ParseMessage(OnWire(ws) + tail, Some(part), ending);
      if Interleaved(ws) then next.what.Delivered? && !next.what.message.Text? && !next.what.message.Binary?
      else next == Next(Delivered(DataMessage(part.opcode, part.payload + Payloads(ws))), tail)
    decreases |ws|
  {
    FrameFirst(ws, tail, ending);
    var f, rest := ws[0].frame, ws[1..];
    ParseStep(OnWire(ws) + tail, Some(part), f, OnWire(rest) + tail, ending);
    if Control(f) {
      assert Interleaved(ws);
    } else {
      ContinuesTail(ws);
      PayloadsCons(ws, part.payload);
      if f.fin {
        assert OnWire(rest) + tail == tail;
      } else {
        ContinuationsRead(rest, Part(part.opcode, part.payload + f.payload), tail, ending);
      }
    }
  }

  lemma PayloadsCons(ws: seq<Wire>, acc: seq<Byte>)
    requires ws != [] && !Control(ws[0].frame)
    ensures (acc + ws[0].frame.payload) + Payloads(ws[1..]) == acc + Payloads(ws)
    ensures |ws| == 1 ==> acc + ws[0].frame.payload == acc + Payloads(ws)
  {
    Regroup(acc, ws[0].frame.payload, Payloads(ws[1..]));
    if |ws| == 1 {
      assert ws[1..] == [] && ws[0].frame.payload + [] == ws[0].frame.payload;
    }
  }

  /**
   * A fragmented message reads back as one message with all its payload exactly if no control frame comes between
   * its fragments.
   */
  lemma ReassemblesIff(first: Wire, ws: seq<Wire>, tail: seq<Byte>, ending: Ending)
    requires Sendable(first) && (first.frame.opcode == 1 || first.frame.opcode == 2) && !first.frame.fin
    requires AllSendable(ws) && Continues(ws)
    ensures ParseMessage(OnWire([first] + ws) + tail, None, ending) ==
              Next(Delivered(DataMessage(first.frame.opcode, first.frame.payload + Payloads(ws))), tail)
            <==> !Interleaved(ws)
  {
    var all := [first] + ws;
    assert all[1..] == ws;
    FrameFirst(all, tail, ending);
    ContinuationsRead(ws, Part(first.frame.opcode, first.frame.payload), tail, ending);
  }

  /** A frame with a reserved opcode is an error, whether or not a message is under way. */
  lemma ReservedIsError(ws: seq<Wire>, part: Option<Part>, tail: seq<Byte>, ending: Ending)
    requires AllSendable(ws) && ws != [] && (3 <= ws[0].frame.opcode <= 7 || ws[0].frame.opcode >= 11)
    ensures ParseMessage(OnWire(ws) + tail, part, ending) == Next(UnknownOpcode, OnWire(ws[1..]) + tail)
  {
    FrameFirst(ws, tail, ending);
  }

  /** After the control frame, what was left of the message is an error. */
  lemma RestIsUnexpected(ws: seq<Wire>, tail: seq<Byte>, ending: Ending)
    requires AllSendable(ws) && ws != [] && ws[0].frame.opcode == 0
    ensures ParseMessage(OnWire(ws) + tail, None, ending).what == UnexpectedContinuation
  {
    FrameFirst(ws, tail, ending);
  }

  // ---------------------------------------------------------------- over a stream

  /** Each payload byte, in place. */
  method MaskInPlace(payload: array<Byte>, key: seq<Byte>)
    requires |key| == 4
    modifies payload
    ensures payload[..] == Mask(old(payload[..]), key)
  {
    var i := 0;
    while i < payload.Length
      invariant i <= payload.Length
      invariant forall k | 0 <= k < i :: payload[k] == XorByte(old(payload[k]), key[k % 4])
      invariant forall k | i <= k < payload.Length :: payload[k] == old(payload[k])
    {
      payload[i] := XorByte(payload[i], key[i % 4]);
      i := i + 1;
    }
  }

  method Unmask(payload: seq<Byte>, key: Option<seq<Byte>>) returns (r: seq<Byte>)
    requires key.Some? ==> |key.value| == 4
    ensures r == Unmasked(payload, key)
  {
    if key.None? {
      return payload;
    }
    var a := new Byte[|payload|](i requires 0 <= i < |payload| => payload[i]);
    assert a[..] == payload;
    MaskInPlace(a, key.value);
    r := a[..];
  }

  method EncodeClientFrame(opcode: nat, payload: seq<Byte>, key: seq<Byte>) returns (frame: seq<Byte>)
    requires opcode < 16 && |key| == 4
    ensures frame == Encode(Frame(true, opcode, payload), Some(key))
  {
    frame := [128 + opcode];
    var len := |payload|;
    if len < 126 {
      frame := frame + [128 + len];
    } else if len <= 0xFFFF {
      frame := frame + [128 + 126] + BigEndian(len, 2);
    } else {
      frame := frame + [128 + 127] + BigEndian(len, 8);
    }
    assert frame == Header(true, opcode, true, len);
    frame := frame + key;
    ghost var head := frame;
    var i := 0;
    while i < |payload|
      invariant i <= |payload| && frame == head + Mask(payload, key)[..i]
    {
      frame := frame + [XorByte(payload[i], key[i % 4])];
      i := i + 1;
    }
    assert Mask(payload, key)[..i] == Mask(payload, key);
  }

  method ReadLength(stream: TlsStream, b: Byte) returns (r: Parsed<nat>)
    requires stream.Valid()
    modifies stream
    ensures stream.Valid() && Parse(r, stream.Rest()) == ParseLength(b, old(stream.Rest()), stream.ending)
  {
    var n := ExtendedBytes(b);
    if n == 0 {
      assert stream.Rest()[..0] == [] && stream.Rest()[0..] == stream.Rest();
      return Got(LengthValue(b, []));
    }
    var ext := stream.ReadExact(n);
    r := if ext.Err? then Broken(ext.error) else Got(LengthValue(b, ext.value));
  }

  method ReadKey(stream: TlsStream, masked: bool) returns (r: Parsed<Option<seq<Byte>>>)
    requires stream.Valid()
    modifies stream
    ensures stream.Valid() && Parse(r, stream.Rest()) == ParseKey(masked, old(stream.Rest()), stream.ending)
    ensures r.Got? && r.value.Some? ==> |r.value.value| == 4
  {
    if !masked {
      return Got(None);
    }
    var key := stream.ReadExact(4);
    r := if key.Err? then Broken(key.error) else Got(Some(key.value));
  }

  /** Reads one frame: what the bytes to come parse to, however they come. */
  method ReadFrame(stream: TlsStream) returns (r: Parsed<Frame>)
    requires stream.Valid()
    modifies stream
    ensures stream.Valid() && Parse(r, stream.Rest()) == ParseFrame(old(stream.Rest()), stream.ending)
  {
    var hdr := stream.ReadExact(2);
    if hdr.Err? {
      return End;
    }
    var len := ReadLength(stream, hdr.value[1]);
    if !len.Got? {
      return Stopped(len);
    }
    var key := ReadKey(stream, hdr.value[1] >= 128);
    if !key.Got? {
      return Stopped(key);
    }
    var body: Result<seq<Byte>, Fault> := Ok([]);
    if len.value > 0 {
      body := stream.ReadExact(len.value);
    } else {
      assert stream.Rest()[..0] == [] && stream.Rest()[0..] == stream.Rest();
    }
    if body.Err? {
      return Broken(body.error);
    }
    var payload := Unmask(body.value, key.value);
    r := Got(Frame(hdr.value[0] >= 128, hdr.value[0] % 16, payload));
  }

  /** Reads frames until they make a message, an error or the end. */
  method ReadMessage(stream: TlsStream) returns (r: Received)
    requires stream.Valid()
    modifies stream
    ensures stream.Valid() && Next(r, stream.Rest()) == ParseMessage(old(stream.Rest()), None, stream.ending)
  {
    var fragOpcode: Option<nat>, fragPayload: seq<Byte> := None, [];
    while true
      invariant stream.Valid()
      invariant ParseMessage(stream.Rest(), UnderWay(fragOpcode, fragPayload), stream.ending) ==
                ParseMessage(old(stream.Rest()), None, stream.ending)
      decreases |stream.Rest()|
    {
      var frame := ReadFrame(stream);
      match frame {
        case End => return Gone;
        case Broken(fault) => return Cut(fault);
        case Got(f) =>
          if f.opcode == 0 {
            if fragOpcode.None? {
              return UnexpectedContinuation;
            }
            fragPayload := fragPayload + f.payload;
            if f.fin {
              return Delivered(DataMessage(fragOpcode.value, fragPayload));
            }
          } else if f.opcode == 1 || f.opcode == 2 {
            if f.fin {
              return Delivered(DataMessage(f.opcode, f.payload));
            }
            fragOpcode, fragPayload := Some(f.opcode), f.payload;
          } else if f.opcode == 8 {
            return Delivered(ParseClose(f.payload));
          } else if f.opcode == 9 {
            return Delivered(Ping(f.payload));
          } else if f.opcode == 10 {
            return Delivered(Pong(f.payload));
          } else {
            return UnknownOpcode;
          }
      }
    }
  }

  function UnderWay(opcode: Option<nat>, payload: seq<Byte>): Option<Part> {
    if opcode.None? then None else Some(Part(opcode.value, payload))
  }
}
