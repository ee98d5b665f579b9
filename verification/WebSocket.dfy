/** WebSocket framing over the byte stream: section 5.2 of RFC 6455. */
module WebSocket {
  import opened Options
  import opened Bytes
  import opened Machine
  import opened ByteStream
  import opened Sequences

  datatype Frame = Frame(fin: bool, opcode: nat, payload: seq<Byte>)

  // ---------------------------------------------------------------- masking

  /** Bitwise exclusive or of the `bits` low bits. */
  function Xor(a: nat, b: nat, bits: nat): nat {
    if bits == 0 then 0 else (if a % 2 != b % 2 then 1 else 0) + 2 * Xor(a / 2, b / 2, bits - 1)
  }

  lemma {:induction false} XorBound(a: nat, b: nat, bits: nat)
    ensures Xor(a, b, bits) < Pow2(bits)
  {
    if bits > 0 {
      XorBound(a / 2, b / 2, bits - 1);
    }
  }

  lemma {:induction false} XorTwice(a: nat, b: nat, bits: nat)
    requires a < Pow2(bits)
    ensures Xor(Xor(a, b, bits), b, bits) == a
  {
    if bits > 0 {
      var x, h := Xor(a, b, bits), Xor(a / 2, b / 2, bits - 1);
      assert x / 2 == h && x % 2 == if a % 2 != b % 2 then 1 else 0;
      XorTwice(a / 2, b / 2, bits - 1);
    }
  }

  /** Bit `k` of `n`, the lowest being bit 0. */
  predicate Bit(n: nat, k: nat) { if k == 0 then n % 2 == 1 else Bit(n / 2, k - 1) }

  lemma {:induction false} XorBit(a: nat, b: nat, bits: nat, k: nat)
    requires k < bits
    ensures Bit(Xor(a, b, bits), k) <==> Bit(a, k) != Bit(b, k)
  {
    var x, h := Xor(a, b, bits), Xor(a / 2, b / 2, bits - 1);
    assert x / 2 == h && x % 2 == if a % 2 != b % 2 then 1 else 0;
    if k > 0 {
      XorBit(a / 2, b / 2, bits - 1, k - 1);
    }
  }

  const BYTE_BITS := 8

  lemma ByteBits()
    ensures Pow2(BYTE_BITS) == 256
  {
    assert Pow2(4) == 16;
    assert Pow2(8) == 256;
  }

  function XorByte(a: Byte, b: Byte): Byte {
    ByteBits();
    XorBound(a, b, BYTE_BITS);
    Xor(a, b, BYTE_BITS)
  }

  /** Byte `i` with key byte `i % 4`. */
  function Mask(payload: seq<Byte>, key: seq<Byte>): (r: seq<Byte>)
    requires |key| == 4
    ensures |r| == |payload|
  {
    seq(|payload|, i requires 0 <= i < |payload| => XorByte(payload[i], key[i % 4]))
  }

  /** Every bit of a masked byte is the payload's, flipped where the key's is set. */
  lemma MaskBits(payload: seq<Byte>, key: seq<Byte>, i: nat, k: nat)
    requires |key| == 4 && i < |payload| && k < BYTE_BITS
    ensures Bit(Mask(payload, key)[i], k) <==> Bit(payload[i], k) != Bit(key[i % 4], k)
  {
    XorBit(payload[i], key[i % 4], BYTE_BITS, k);
  }

  lemma MaskTwice(payload: seq<Byte>, key: seq<Byte>)
    requires |key| == 4
    ensures Mask(Mask(payload, key), key) == payload
  {
    forall i | 0 <= i < |payload| ensures Mask(Mask(payload, key), key)[i] == payload[i] {
      ByteBits();
      XorTwice(payload[i], key[i % 4], BYTE_BITS);
    }
  }

  // ---------------------------------------------------------------- a frame on the wire

  function Length7(n: nat): Byte { if n < 126 then n else if n <= 0xFFFF then 126 else 127 }

  function LengthBytes(n: nat): nat { if n < 126 then 0 else if n <= 0xFFFF then 2 else 8 }

  function Header(fin: bool, opcode: nat, masked: bool, n: nat): seq<Byte>
    requires opcode < 16
  {
    [FirstByte(fin, opcode), SecondByte(masked, n)] + BigEndian(n, LengthBytes(n))
  }

  /** A frame as RFC 6455 has it sent: shortest length form, and the payload masked if there is a key. */
  function Encode(f: Frame, key: Option<seq<Byte>>): seq<Byte>
    requires f.opcode < 16 && (key.Some? ==> |key.value| == 4)
  {
    Header(f.fin, f.opcode, key.Some?, |f.payload|) + (KeyBytes(key) + Sent(f.payload, key))
  }

  function KeyBytes(key: Option<seq<Byte>>): seq<Byte> { if key.Some? then key.value else [] }

  function Sent(payload: seq<Byte>, key: Option<seq<Byte>>): (r: seq<Byte>)
    requires key.Some? ==> |key.value| == 4
    ensures |r| == |payload|
  {
    if key.Some? then Mask(payload, key.value) else payload
  }

  function FirstByte(fin: bool, opcode: nat): Byte
    requires opcode < 16
  {
    (if fin then 128 else 0) + opcode
  }

  function SecondByte(masked: bool, n: nat): Byte { (if masked then 128 else 0) + Length7(n) }

  // ---------------------------------------------------------------- reading a frame

  datatype Parsed<T> = Got(value: T) | End | Broken(fault: Fault)

  /** What a parse of the bytes to come yields, and what it leaves. */
  datatype Parse<T> = Parse(parsed: Parsed<T>, rest: seq<Byte>)

  /** How many bytes of length follow the second byte. */
  function ExtendedBytes(b: Byte): nat { if b % 128 == 126 then 2 else if b % 128 == 127 then 8 else 0 }

  function LengthValue(b: Byte, ext: seq<Byte>): nat { (if ext == [] then b % 128 else Fold(0, ext)) % USIZE_WRAP }

  function ParseLength(b: Byte, s: seq<Byte>, ending: Ending): Parse<nat> {
    var ext := Exactly(s, ExtendedBytes(b), ending);
    if ext.value.Err? then Parse(Broken(ext.value.error), ext.rest)
    else Parse(Got(LengthValue(b, ext.value.value)), ext.rest)
  }

  function ParseKey(masked: bool, s: seq<Byte>, ending: Ending): Parse<Option<seq<Byte>>> {
    if !masked then Parse(Got(None), s)
    else
      var key := Exactly(s, 4, ending);
      if key.value.Err? then Parse(Broken(key.value.error), key.rest) else Parse(Got(Some(key.value.value)), key.rest)
  }

  function ParseFrame(s: seq<Byte>, ending: Ending): (r: Parse<Frame>)
    ensures r.parsed.Got? ==> |r.rest| < |s|
  {
    var hdr := Exactly(s, 2, ending);
    if hdr.value.Err? then Parse(End, hdr.rest) else
    var b0, b1 := hdr.value.value[0], hdr.value.value[1];
    var len := ParseLength(b1, hdr.rest, ending);
    if !len.parsed.Got? then Parse(Stopped(len.parsed), len.rest) else
    var key := ParseKey(b1 >= 128, len.rest, ending);
    if !key.parsed.Got? then Parse(Stopped(key.parsed), key.rest) else
    var body := Exactly(key.rest, len.parsed.value, ending);
    if body.value.Err? then Parse(Broken(body.value.error), body.rest) else
    Parse(Got(Frame(b0 >= 128, b0 % 16, Unmasked(body.value.value, key.parsed.value))), body.rest)
  }

  function Stopped<T, U>(p: Parsed<T>): Parsed<U>
    requires !p.Got?
  {
    match p case End => End case Broken(fault) => Broken(fault)
  }

  function Unmasked(payload: seq<Byte>, key: Option<seq<Byte>>): seq<Byte> {
    if key.Some? && |key.value| == 4 then Mask(payload, key.value) else payload
  }

  lemma LengthForm(n: nat, masked: bool)
    requires n < USIZE_WRAP
    ensures ExtendedBytes(SecondByte(masked, n)) == LengthBytes(n)
    ensures LengthBytes(n) == 0 ==> Length7(n) == n
    ensures LengthBytes(n) >= 2 ==> n >= 126
    ensures LengthBytes(n) > 2 ==> n >= Pow256(2)
    ensures LengthBytes(n) > 0 ==> n < Pow256(LengthBytes(n))
  {
    assert Pow256(2) == 65536;
    assert Pow256(8) == 0x1_0000_0000 * 0x1_0000_0000;
  }

  lemma ValueBack(b: Byte, n: nat, k: nat)
    requires n < USIZE_WRAP && if k == 0 then b % 128 == n else n < Pow256(k)
    ensures LengthValue(b, BigEndian(n, k)) == n
  {
    if k > 0 {
      FoldBigEndian(0, n, k);
      assert Fold(0, BigEndian(n, k)) == n;
      assert BigEndian(n, k) != [];
    }
  }

  lemma LengthBack(n: nat, s: seq<Byte>, masked: bool, ending: Ending)
    requires n < USIZE_WRAP
    ensures ParseLength(SecondByte(masked, n), BigEndian(n, LengthBytes(n)) + s, ending) == Parse(Got(n), s)
  {
    var b := SecondByte(masked, n);
    LengthForm(n, masked);
    TakeBack(BigEndian(n, LengthBytes(n)), s, ending);
    ValueBack(b, n, LengthBytes(n));
  }

  /**
   * Reading a frame undoes sending it, whatever follows it on the wire: every payload length and its length form,
   * masked with any key or not at all.
   */
  lemma FrameRoundTrip(f: Frame, key: Option<seq<Byte>>, tail: seq<Byte>, ending: Ending)
    requires f.opcode < 16 && |f.payload| < USIZE_WRAP && (key.Some? ==> |key.value| == 4)
    ensures ParseFrame(Encode(f, key) + tail, ending) == Parse(Got(f), tail)
  {
    var n, sent := |f.payload|, Sent(f.payload, key);
    var ext, keyed := BigEndian(n, LengthBytes(n)), KeyBytes(key) + (sent + tail);
    var b0, b1 := FirstByte(f.fin, f.opcode), SecondByte(key.Some?, n);
    RegroupFive([b0, b1], ext, KeyBytes(key), sent, tail);
    TakeBack([b0, b1], ext + keyed, ending);
    LengthBack(n, keyed, key.Some?, ending);
    KeyBack(key, sent + tail, ending);
    TakeBack(sent, tail, ending);
    HeaderBack(f.fin, f.opcode, key.Some?, n);
    Stages(Encode(f, key) + tail, b0, b1, ext + keyed, n, keyed, key, sent + tail, sent, tail, ending);
    UnmaskedBack(f.payload, key);
  }

  lemma HeaderBack(fin: bool, opcode: nat, masked: bool, n: nat)
    requires opcode < 16
    ensures FirstByte(fin, opcode) >= 128 <==> fin
    ensures FirstByte(fin, opcode) % 16 == opcode
    ensures SecondByte(masked, n) >= 128 <==> masked
  {}

  lemma UnmaskedBack(payload: seq<Byte>, key: Option<seq<Byte>>)
    requires key.Some? ==> |key.value| == 4
    ensures Unmasked(Sent(payload, key), key) == payload
  {
    if key.Some? {
      MaskTwice(payload, key.value);
    }
  }

  /** A frame is read in four stages: two bytes, the length, the key, the payload. */
  lemma Stages(s: seq<Byte>, b0: Byte, b1: Byte, r1: seq<Byte>, n: nat, r2: seq<Byte>, key: Option<seq<Byte>>,
               r3: seq<Byte>,
               body: seq<Byte>, r4: seq<Byte>, ending: Ending)
    requires Exactly(s, 2, ending) == Outcome(Ok([b0, b1]), r1) && ParseLength(b1, r1, ending) == Parse(Got(n), r2)
    requires ParseKey(b1 >= 128, r2, ending) == Parse(Got(key), r3) && Exactly(r3, n, ending) == Outcome(Ok(body), r4)
    ensures ParseFrame(s, ending) == Parse(Got(Frame(b0 >= 128, b0 % 16, Unmasked(body, key))), r4)
  {}

  lemma KeyBack(key: Option<seq<Byte>>, s: seq<Byte>, ending: Ending)
    requires key.Some? ==> |key.value| == 4
    ensures ParseKey(key.Some?, KeyBytes(key) + s, ending) == Parse(Got(key), s)
  {
    if key.Some? {
      TakeBack(key.value, s, ending);
    } else {
      assert [] + s == s;
    }
  }

  /** The examples of section 5.7 of RFC 6455: a text, the same masked, fragments, a ping, and two long payloads. */
  lemma RfcExamples(hello: seq<Byte>, key: seq<Byte>)
    requires hello == [0x48, 0x65, 0x6c, 0x6c, 0x6f] && key == [0x37, 0xfa, 0x21, 0x3d]
    ensures Encode(Frame(true, 1, hello), None) == [0x81, 0x05] + hello
    ensures Encode(Frame(true, 1, hello), Some(key)) == [0x81, 0x85] + key + [0x7f, 0x9f, 0x4d, 0x51, 0x58]
    ensures Encode(Frame(false, 1, hello[..3]), None) == [0x01, 0x03] + hello[..3]
    ensures Encode(Frame(true, 0, hello[3..]), None) == [0x80, 0x02] + hello[3..]
    ensures Encode(Frame(true, 9, hello), None) == [0x89, 0x05] + hello
    ensures Header(true, 2, false, 256) == [0x82, 0x7e, 0x01, 0x00]
    ensures Header(true, 2, false, 65536) == [0x82, 0x7f, 0, 0, 0, 0, 0, 1, 0, 0]
  {
    MaskedHello(hello, key);
    assert BigEndian(256, 2) == [1, 0];
    assert BigEndian(65536, 4) == [0, 1, 0, 0];
    assert BigEndian(65536, 8) == [0, 0, 0, 0, 0, 1, 0, 0];
  }

  lemma MaskedHello(hello: seq<Byte>, key: seq<Byte>)
    requires hello == [0x48, 0x65, 0x6c, 0x6c, 0x6f] && key == [0x37, 0xfa, 0x21, 0x3d]
    ensures Mask(hello, key) == [0x7f, 0x9f, 0x4d, 0x51, 0x58]
  {
    HighNibbles();
    XorIs(hello[0], key[0], 4, 3, 7, 15);
    XorIs(hello[1], key[1], 6, 15, 9, 15);
    XorIs(hello[2], key[2], 6, 2, 4, 13);
    XorIs(hello[3], key[3], 6, 3, 5, 1);
    XorIs(hello[4], key[0], 6, 3, 5, 8);
  }

  lemma HighNibbles()
    ensures Xor(4, 3, 4) == 7 && Xor(6, 15, 4) == 9 && Xor(6, 2, 4) == 4 && Xor(6, 3, 4) == 5
  {
    assert Xor(1, 0, 2) == 1 && Xor(1, 3, 2) == 2 && Xor(3, 7, 3) == 4 && Xor(3, 1, 3) == 2;
  }

  lemma XorIs(a: Byte, b: Byte, highA: nat, highB: nat, high: nat, low: nat)
    requires a / 16 == highA && b / 16 == highB && Xor(highA, highB, 4) == high
    requires low == Differ(a, b) + 2 * Differ(a / 2, b / 2) + 4 * Differ(a / 4, b / 4) + 8 * Differ(a / 8, b / 8)
    ensures XorByte(a, b) == 16 * high + low
  {
    XorNibbles(a, b);
  }

  function Differ(a: nat, b: nat): nat { if a % 2 != b % 2 then 1 else 0 }

  lemma XorNibbles(a: Byte, b: Byte)
    ensures XorByte(a, b) == Differ(a, b) + 2 * Differ(a / 2, b / 2) + 4 * Differ(a / 4, b / 4)
                             + 8 * Differ(a / 8, b / 8) + 16 * Xor(a / 16, b / 16, 4)
  {
    Doubled(a, b, 8);
    Doubled(a / 2, b / 2, 7);
    Doubled(a / 4, b / 4, 6);
    Doubled(a / 8, b / 8, 5);
    assert a / 2 / 2 == a / 4 && a / 4 / 2 == a / 8 && a / 8 / 2 == a / 16;
    assert b / 2 / 2 == b / 4 && b / 4 / 2 == b / 8 && b / 8 / 2 == b / 16;
  }

  lemma Doubled(a: nat, b: nat, bits: nat)
    requires bits > 0
    ensures Xor(a, b, bits) == Differ(a, b) + 2 * Xor(a / 2, b / 2, bits - 1)
  {}
}
