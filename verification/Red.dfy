/** RED payloads (section 3 of RFC 2198): finding the primary block behind the redundant ones. */
module Red {
  import opened Options
  import opened Bytes

  /** The 10-bit length that ends a redundant block header. */
  function BlockLen(high: nat, low: nat): nat { high % 4 * 256 + low }

  /** The header walk from `idx`, with `redLen` bytes of redundant data announced so far. */
  function Walk(payload: seq<Byte>, idx: nat, redLen: nat): (r: Option<(Byte, nat)>)
    ensures r.Some? ==> r.value.0 < 128 && idx < r.value.1 <= |payload|
    decreases |payload| - idx
  {
    if idx >= |payload| then None
    else if payload[idx] < 128 then
      if idx + 1 + redLen <= |payload| then Some((payload[idx], idx + 1 + redLen)) else None
    else if idx + 3 >= |payload| then None
    else Walk(payload, idx + 4, redLen + BlockLen(payload[idx + 2], payload[idx + 3]))
  }

  /** Primary payload type and where the primary payload starts. */
  method RedPrimary(payload: seq<Byte>) returns (r: Option<(Byte, nat)>)
    ensures r == Walk(payload, 0, 0)
  {
    var idx, redLen: nat := 0, 0;
    while true
      invariant Walk(payload, idx, redLen) == Walk(payload, 0, 0)
      decreases |payload| - idx
    {
      if idx >= |payload| {
        return None;
      }
      if payload[idx] < 128 {
        var start := idx + 1 + redLen;
        return if start <= |payload| then Some((payload[idx], start)) else None;
      }
      if idx + 3 >= |payload| {
        return None;
      }
      redLen := redLen + BlockLen(payload[idx + 2], payload[idx + 3]);
      idx := idx + 4;
    }
  }

  // ---------------------------------------------------------------- what a sender writes

  /** A redundant block: payload type, 14-bit timestamp offset, at most 1023 bytes. */
  datatype RedBlock = RedBlock(pt: nat, tsOffset: nat, data: seq<Byte>) {
    predicate Valid() { pt < 128 && tsOffset < 0x4000 && |data| < 0x400 }

    function Header(): (h: seq<Byte>)
      requires Valid()
      ensures |h| == 4
    {
      [128 + pt, tsOffset / 64, tsOffset % 64 * 4 + |data| / 256, |data| % 256]
    }
  }

  function Headers(blocks: seq<RedBlock>): (h: seq<Byte>)
    requires forall b | b in blocks :: b.Valid()
    ensures |h| == 4 * |blocks|
  {
    if blocks == [] then [] else blocks[0].Header() + Headers(blocks[1..])
  }

  function Datas(blocks: seq<RedBlock>): seq<Byte> {
    if blocks == [] then [] else blocks[0].data + Datas(blocks[1..])
  }

  /** Redundant block headers, primary header, redundant data, primary payload. */
  function Wrap(blocks: seq<RedBlock>, pt: Byte, payload: seq<Byte>): seq<Byte>
    requires forall b | b in blocks :: b.Valid()
  {
    Headers(blocks) + [pt] + Datas(blocks) + payload
  }

  lemma {:induction false} WalkHeaders(before: seq<Byte>, blocks: seq<RedBlock>, pt: Byte, rest: seq<Byte>, redLen: nat)
    requires (forall b | b in blocks :: b.Valid()) && pt < 128
    ensures var start := |before| + 4 * |blocks| + 1 + redLen + |Datas(blocks)|;
            var whole := before + (Headers(blocks) + [pt] + rest);
            Walk(whole, |before|, redLen) == if start <= |whole| then Some((pt, start)) else None
    decreases blocks
  {
    var whole := before + (Headers(blocks) + [pt] + rest);
    if blocks == [] {
      assert whole[|before|] == pt;
    } else {
      var b, more := blocks[0], blocks[1..];
      var h := b.Header();
      assert whole == (before + h) + (Headers(more) + [pt] + rest);
      assert whole[|before|..|before| + 4] == h;
      assert whole[|before|] == h[0] && whole[|before| + 2] == h[2] && whole[|before| + 3] == h[3];
      assert BlockLen(h[2], h[3]) == |b.data|;
      WalkHeaders(before + h, more, pt, rest, redLen + |b.data|);
    }
  }

  /** Unwrapping finds the primary payload, whatever redundancy the sender put before it. */
  lemma PrimaryOfWrap(blocks: seq<RedBlock>, pt: Byte, payload: seq<Byte>)
    requires (forall b | b in blocks :: b.Valid()) && pt < 128
    ensures var w := Wrap(blocks, pt, payload);
            var r := Walk(w, 0, 0);
            r.Some? && r.value.0 == pt && w[r.value.1..] == payload
  {
    var rest := Datas(blocks) + payload;
    WalkHeaders([], blocks, pt, rest, 0);
    assert Wrap(blocks, pt, payload) == [] + (Headers(blocks) + [pt] + rest);
  }
}
