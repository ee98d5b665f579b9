/**
 * EBML variable-length integers and element headers (section 4 of RFC 8794).
 *
 * Integers of eight bytes are read as an optimised build reads them: the mask shift by 8 wraps around
 * to a shift by 0, so the length marker stays in the value.
 */
module Vint {
  import opened Options
  import opened Bytes
  import opened Machine

  /** `leading_zeros + 1` of a non-zero first byte. */
  function VintLen(first: Byte): (len: nat)
    requires first > 0
    ensures 1 <= len <= 8
  {
    if first >= 128 then 1 else if first >= 64 then 2 else if first >= 32 then 3 else if first >= 16 then 4
    else if first >= 8 then 5 else if first >= 4 then 6 else if first >= 2 then 7 else 8
  }

  /** The length marker of an integer of `len` bytes, as a value of its first byte. */
  function Marker(len: nat): (m: nat)
    requires 1 <= len <= 8
    ensures 1 <= m <= 128
  {
    if len == 1 then 128 else if len == 2 then 64 else if len == 3 then 32 else if len == 4 then 16
    else if len == 5 then 8 else if len == 6 then 4 else if len == 7 then 2 else 1
  }

  function FirstBits(first: Byte, len: nat, keepMarker: bool): nat
    requires 1 <= len <= 8
  {
    if keepMarker || len == 8 then first else first % Marker(len)
  }

  /** Value and byte length of the integer at `buf[pos..]`. */
  function VintAt(buf: seq<Byte>, pos: nat, keepMarker: bool): (r: Option<(nat, nat)>)
    ensures r.Some? ==> 1 <= r.value.1 <= 8 && pos + r.value.1 <= |buf|
  {
    if pos >= |buf| || buf[pos] == 0 then None
    else
      var len := VintLen(buf[pos]);
      if pos + len > |buf| then None
      else Some((Fold(FirstBits(buf[pos], len, keepMarker), buf[pos + 1..pos + len]), len))
  }

  method ReadVint(buf: seq<Byte>, pos: nat, keepMarker: bool) returns (r: Option<(nat, nat)>)
    ensures r == VintAt(buf, pos, keepMarker)
  {
    if pos >= |buf| || buf[pos] == 0 {
      return None;
    }
    var first := buf[pos];
    var len := VintLen(first);
    if pos + len > |buf| {
      return None;
    }
    var val: nat := if keepMarker || len == 8 then first else first % Marker(len);
    for k := 1 to len
      invariant val == Fold(FirstBits(first, len, keepMarker), buf[pos + 1..pos + k])
    {
      FoldSnoc(FirstBits(first, len, keepMarker), buf[pos + 1..pos + k], buf[pos + k]);
      assert buf[pos + 1..pos + k + 1] == buf[pos + 1..pos + k] + [buf[pos + k]];
      val := val * 256 + buf[pos + k];
    }
    r := Some((val, len));
  }

  /** `v` written as an EBML integer of `len` bytes. */
  function Encode(v: nat, len: nat): (bs: seq<Byte>)
    requires 1 <= len <= 8 && v < Marker(len) * Pow256(len - 1)
    ensures |bs| == len
  {
    HighPart(v, len);
    [Marker(len) + v / Pow256(len - 1)] + BigEndian(v % Pow256(len - 1), len - 1)
  }

  lemma HighPart(v: nat, len: nat)
    requires 1 <= len <= 8 && v < Marker(len) * Pow256(len - 1)
    ensures 0 <= v / Pow256(len - 1) < Marker(len)
    ensures Marker(len) + v / Pow256(len - 1) < 256
    ensures v == (v / Pow256(len - 1)) * Pow256(len - 1) + v % Pow256(len - 1)
  {
    DivBound(v, Pow256(len - 1), Marker(len));
    FirstByte(v / Pow256(len - 1), len);
  }

  lemma FirstByte(hi: nat, len: nat)
    requires 1 <= len <= 8 && hi < Marker(len)
    ensures Marker(len) + hi < 256 && VintLen(Marker(len) + hi) == len
    ensures FirstBits(Marker(len) + hi, len, false) == hi + if len == 8 then 1 else 0
  {
    if len < 8 {
      ModUnique(Marker(len) + hi, 1, hi, Marker(len));
    }
  }

  /** What is read is the first byte's share of the value followed by the rest of it. */
  lemma DecodeParts(v: nat, len: nat, rest: seq<Byte>, keepMarker: bool)
    requires 1 <= len <= 8 && v < Marker(len) * Pow256(len - 1)
    ensures var p := Pow256(len - 1);
            var first := FirstBits(Encode(v, len)[0], len, keepMarker);
            VintAt(Encode(v, len) + rest, 0, keepMarker) == Some((first * p + v % p, len))
  {
    HighPart(v, len);
    var p, hi, lo := Pow256(len - 1), v / Pow256(len - 1), v % Pow256(len - 1);
    FirstByte(hi, len);
    var buf := Encode(v, len) + rest;
    assert buf[0] == Marker(len) + hi && buf[1..len] == BigEndian(lo, len - 1);
    FoldBigEndian(FirstBits(buf[0], len, keepMarker), lo, len - 1);
  }

  /**
   * Reading undoes writing, whatever follows, with one exception: an eight-byte integer comes back with
   * its marker bit still in the value. So a size or track number is read right if and only if it is
   * written in fewer than eight bytes.
   */
  lemma DecodeEncode(v: nat, len: nat, rest: seq<Byte>)
    requires 1 <= len <= 8 && v < Marker(len) * Pow256(len - 1)
    ensures VintAt(Encode(v, len) + rest, 0, false) == Some((v + if len == 8 then Pow256(7) else 0, len))
    ensures VintAt(Encode(v, len) + rest, 0, true) == Some((v + Marker(len) * Pow256(len - 1), len))
    ensures VintAt(Encode(v, len) + rest, 0, false) == Some((v, len)) <==> len < 8
  {
    HighPart(v, len);
    var p, hi := Pow256(len - 1), v / Pow256(len - 1);
    FirstByte(hi, len);
    DecodeParts(v, len, rest, false);
    DecodeParts(v, len, rest, true);
    Distribute(Marker(len), hi, p);
    Distribute(1, hi, p);
  }

  lemma Distribute(a: nat, b: nat, p: nat)
    ensures (a + b) * p == a * p + b * p == (b + a) * p
  {
  }

  // ---------------------------------------------------------------- element headers

  datatype Header = Header(id: nat, headerLen: nat, size: Option<nat>)

  predicate UnknownSize(val: nat, len: nat) { val == Pow2(7 * len) - 1 }

  lemma PowSeven(n: nat)
    ensures Pow2(n + 7) == 128 * Pow2(n)
  {
    assert Pow2(n + 1) == 2 * Pow2(n) && Pow2(n + 2) == 2 * Pow2(n + 1) && Pow2(n + 3) == 2 * Pow2(n + 2);
    assert Pow2(n + 4) == 2 * Pow2(n + 3) && Pow2(n + 5) == 2 * Pow2(n + 4) && Pow2(n + 6) == 2 * Pow2(n + 5);
  }

  /** Seven bits a byte. */
  lemma {:induction false} SevenBits(len: nat)
    requires 1 <= len <= 8
    ensures Pow2(7 * len) == Marker(len) * Pow256(len - 1)
    decreases len
  {
    PowSeven(7 * (len - 1));
    if len > 1 {
      SevenBits(len - 1);
      assert Marker(len - 1) == 2 * Marker(len) && Pow256(len - 1) == 256 * Pow256(len - 2);
      assert 128 * ((2 * Marker(len)) * Pow256(len - 2)) == Marker(len) * (256 * Pow256(len - 2));
    }
  }

  /**
   * A size field is read as "unknown" if and only if all its bits are set and it has fewer than eight bytes: in eight
   * the marker stays in the value, and the field is read as a size.
   */
  lemma UnknownSizeIff(v: nat, len: nat)
    requires 1 <= len <= 8 && v < Marker(len) * Pow256(len - 1)
    ensures UnknownSize(v + (if len == 8 then Pow256(7) else 0), len) <==>
            len < 8 && v + 1 == Marker(len) * Pow256(len - 1)
  {
    SevenBits(len);
  }

  /** A header from its two integers. */
  function HeaderOf(id: (nat, nat), size: Option<(nat, nat)>): Option<Header> {
    match size
    case None => None
    case Some((sz, szLen)) => Some(Header(id.0, id.1 + szLen, if UnknownSize(sz, szLen) then None else Some(sz)))
  }

  lemma HeaderParts(buf: seq<Byte>, pos: nat, id: Option<(nat, nat)>)
    requires id == VintAt(buf, pos, true)
    ensures HeaderAt(buf, pos) == if id.None? then None else HeaderOf(id.value, VintAt(buf, pos + id.value.1, false))
  {
  }

  function HeaderAt(buf: seq<Byte>, pos: nat): (r: Option<Header>)
    ensures r.Some? ==> r.value.headerLen >= 2 && pos + r.value.headerLen <= |buf|
  {
    match VintAt(buf, pos, true)
    case None => None
    case Some((id, idLen)) => HeaderOf((id, idLen), VintAt(buf, pos + idLen, false))
  }

  method ReadHeader(buf: seq<Byte>, pos: nat) returns (r: Option<Header>)
    ensures r == HeaderAt(buf, pos)
  {
    var id := ReadVint(buf, pos, true);
    if id.None? {
      return None;
    }
    var sz := ReadVint(buf, pos + id.value.1, false);
    if sz.None? {
      return None;
    }
    var size := if UnknownSize(sz.value.0, sz.value.1) then None else Some(sz.value.0);
    r := Some(Header(id.value.0, id.value.1 + sz.value.1, size));
  }
}
