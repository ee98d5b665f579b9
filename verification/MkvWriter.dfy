/**
 * What a Matroska file says, and that the demuxer reads just that: elements written one after the other come out as
 * the blocks that were written, with their tracks, times, flags and data.
 */
module MkvWriter {
  import opened Options
  import opened Bytes
  import opened Machine
  import opened Rolling
  import opened Vint
  import opened Mkv
  import opened Sequences

  /** An element as it is written: its id in `idLen` bytes, its size in `sizeLen`, and what it holds. */
  datatype Piece =
    | Container(id: nat, size: nat, sizeLen: nat)                       // its header; what is in it follows
    | Stamp(ticks: nat, width: nat, sizeLen: nat)                       // the cluster's timestamp, in `width` bytes
    | Coded(simple: bool, track: nat, trackLen: nat, rel: int, flags: Byte, data: seq<Byte>, sizeLen: nat)
    | Passed(id: nat, idLen: nat, payload: seq<Byte>, sizeLen: nat)     // anything else

  function IdOf(p: Piece): nat {
    match p
    case Container(id, _, _) => id
    case Stamp(_, _, _) => ID_CLUSTER_TS
    case Coded(simple, _, _, _, _, _, _) => if simple then ID_SIMPLE_BLOCK else ID_BLOCK
    case Passed(id, _, _, _) => id
  }

  function IdLen(p: Piece): nat {
    match p
    case Container(id, _, _) => if id == ID_BLOCK_GROUP then 1 else 4
    case Passed(_, idLen, _, _) => idLen
    case _ => 1
  }

  /** A 16-bit time relative to the cluster, in two's complement. */
  function RelBytes(rel: int): seq<Byte>
    requires -0x8000 <= rel < 0x8000
  {
    BigEndian(if rel < 0 then rel + 0x1_0000 else rel, 2)
  }

  /** The value fits a size or track field of `len` bytes, fewer than eight. */
  predicate Fits(v: nat, len: nat) { 1 <= len < 8 && v < Marker(len) * Pow256(len - 1) }

  function Payload(p: Piece): seq<Byte>
    requires p.Coded? ==> Fits(p.track, p.trackLen) && -0x8000 <= p.rel < 0x8000
  {
    match p
    case Container(_, _, _) => []
    case Stamp(ticks, width, _) => BigEndian(ticks, width)
    case Coded(_, track, trackLen, rel, flags, data, _) =>
      Vint.Encode(track, trackLen) + (RelBytes(rel) + ([flags] + data))
    case Passed(_, _, payload, _) => payload
  }

  /** An id has its length in its first bits: it is written as it is. */
  predicate IdFits(id: nat, len: nat) {
    1 <= len <= 4 && Marker(len) * Pow256(len - 1) <= id < 2 * Marker(len) * Pow256(len - 1)
  }

  predicate Known(id: nat) {
    id in {ID_SEGMENT, ID_CLUSTER, ID_BLOCK_GROUP, ID_CLUSTER_TS, ID_SIMPLE_BLOCK, ID_BLOCK}
  }

  /** A payload of `n` bytes can be given a size field of `len` bytes, and be asked for. */
  predicate SizeFits(n: nat, len: nat) { n < TWO_32 && Fits(n, len) && !UnknownSize(n, len) }

  /** What the piece says can be written so: the fields fit, and no size is the one that means unknown. */
  ghost predicate Fine(p: Piece) {
    && (p.Container? ==> p.id in {ID_SEGMENT, ID_CLUSTER, ID_BLOCK_GROUP} && Fits(p.size, p.sizeLen))
    && (p.Stamp? ==> p.width <= 8 && p.ticks < Pow256(p.width))
    && (p.Coded? ==> Fits(p.track, p.trackLen) && -0x8000 <= p.rel < 0x8000)
    && (p.Passed? ==> IdFits(p.id, p.idLen) && !Known(p.id))
    && (!p.Container? ==> SizeFits(|Payload(p)|, p.sizeLen))
  }

  ghost predicate AllFine(ps: seq<Piece>) { forall p | p in ps :: Fine(p) }

  function SizeOf(p: Piece): nat
    requires p.Coded? ==> Fits(p.track, p.trackLen) && -0x8000 <= p.rel < 0x8000
  {
    if p.Container? then p.size else |Payload(p)|
  }

  function IdBytes(id: nat, len: nat): seq<Byte>
    requires IdFits(id, len)
  {
    Vint.Encode(id - Marker(len) * Pow256(len - 1), len)
  }

  lemma IdsFit(p: Piece)
    requires Fine(p)
    ensures IdFits(IdOf(p), IdLen(p))
  {
    assert Pow256(3) == 0x100_0000;
  }

  ghost function Head(p: Piece): (bs: seq<Byte>)
    requires Fine(p)
    ensures |bs| == IdLen(p) + p.sizeLen
  {
    IdsFit(p);
    IdBytes(IdOf(p), IdLen(p)) + Vint.Encode(SizeOf(p), p.sizeLen)
  }

  ghost function Written(ps: seq<Piece>): seq<Byte>
    requires AllFine(ps)
  {
    if ps == [] then [] else Head(ps[0]) + (Payload(ps[0]) + Written(ps[1..]))
  }

  // ---------------------------------------------------------------- what should come out

  /** The cluster's time after the pieces. */
  function TimeAfter(ps: seq<Piece>, ticks: nat): nat {
    if ps == [] then ticks else TimeAfter(ps[1..], TicksAfter(ps[0], ticks))
  }

  predicate Laced(flags: Byte) { flags / 2 % 4 != 0 }

  /** A laced block gives up its first byte, the number of frames; one that has not even that is no block. */
  function FrameOf(p: Piece): Option<seq<Byte>>
    requires p.Coded?
  {
    if !Laced(p.flags) then Some(p.data) else if p.data == [] then None else Some(p.data[1..])
  }

  function Expected(cfg: Config, p: Piece, ticks: nat): seq<Block>
    requires p.Coded?
  {
    if (p.track != cfg.videoTrack && p.track != cfg.audioTrack) || FrameOf(p).None? then []
    else [Block(p.track, TruncDiv((ticks + p.rel) * cfg.timestampScaleNs, 1000), p.simple && p.flags >= 128,
                FrameOf(p).value)]
  }

  /** What a piece yields, while the cluster's time is `ticks`, and what that time is after it. */
  function Yield(cfg: Config, p: Piece, ticks: nat): seq<Block> { if p.Coded? then Expected(cfg, p, ticks) else [] }

  function TicksAfter(p: Piece, ticks: nat): nat { if p.Stamp? then p.ticks else ticks }

  function AllExpected(cfg: Config, ps: seq<Piece>, ticks: nat): seq<Block> {
    if ps == [] then []
    else Yield(cfg, ps[0], ticks) + AllExpected(cfg, ps[1..], TicksAfter(ps[0], ticks))
  }

  /** A block's time and its product with the scale are signed 64-bit numbers. */
  predicate TimeFits(cfg: Config, p: Piece, ticks: nat)
    requires p.Coded?
  {
    && ticks < TWO_63 && cfg.timestampScaleNs < TWO_63 && ticks + p.rel < TWO_63
    && -TWO_63 <= (ticks + p.rel) * cfg.timestampScaleNs < TWO_63
  }

  predicate AllTimesFit(cfg: Config, ps: seq<Piece>, ticks: nat) {
    ps == [] ||
    ((ps[0].Coded? ==> TimeFits(cfg, ps[0], ticks)) &&
     AllTimesFit(cfg, ps[1..], TicksAfter(ps[0], ticks)))
  }

  /** No header stands where the distance to the end of the file, cut to 32 bits, is shorter than it. */
  ghost predicate Uncut(ps: seq<Piece>, after: nat)
    requires AllFine(ps)
  {
    ps == [] || (AsU32(|Written(ps)| + after) >= |Head(ps[0])| && Uncut(ps[1..], after))
  }

  /** In a file below 4 GiB none does. */
  lemma {:induction false} SmallIsUncut(ps: seq<Piece>, after: nat)
    requires AllFine(ps) && |Written(ps)| + after < TWO_32
    ensures Uncut(ps, after)
  {
    if ps != [] {
      var n := |Written(ps)| + after;
      SmallU32(n);
      assert n >= |Head(ps[0])| + |Written(ps[1..])| + after;
      SmallIsUncut(ps[1..], after);
    }
  }

  // ---------------------------------------------------------------- fields

  lemma {:induction false} PowFits(n: nat)
    requires n <= 8
    ensures Pow256(n) <= TWO_64
    decreases 8 - n
  {
    if n == 8 {
      assert Pow256(4) == TWO_32;
      assert Pow256(8) == TWO_64;
    } else {
      PowFits(n + 1);
    }
  }

  lemma {:induction false} UintBack(v: nat, n: nat)
    requires n <= 8 && v < Pow256(n)
    ensures UintOf(BigEndian(v, n)) == v
  {
    if n > 0 {
      UintBack(v / 256, n - 1);
      var bs := BigEndian(v, n);
      assert bs[..|bs| - 1] == BigEndian(v / 256, n - 1);
      PowFits(n);
    }
  }

  lemma VintAtEnd(file: seq<Byte>, a: nat, keepMarker: bool)
    requires a <= |file|
    ensures VintAt(file[a..], 0, keepMarker) == VintAt(file, a, keepMarker)
  {
    VintInSlice(file, a, |file|, 0, keepMarker);
    assert file[a..|file|] == file[a..];
  }

  lemma IdRead(file: seq<Byte>, a: nat, id: nat, len: nat, rest: seq<Byte>)
    requires IdFits(id, len) && a <= |file| && file[a..] == IdBytes(id, len) + rest
    ensures VintAt(file, a, true) == Some((id, len)) && file[a + len..] == rest
  {
    DecodeEncode(id - Marker(len) * Pow256(len - 1), len, rest);
    VintAtEnd(file, a, true);
    assert file[a + len..] == file[a..][len..];
  }

  lemma SizeRead(file: seq<Byte>, a: nat, size: nat, len: nat, rest: seq<Byte>)
    requires Fits(size, len) && a <= |file| && file[a..] == Vint.Encode(size, len) + rest
    ensures VintAt(file, a, false) == Some((size, len)) && file[a + len..] == rest
  {
    DecodeEncode(size, len, rest);
    VintAtEnd(file, a, false);
    assert file[a + len..] == file[a..][len..];
  }

  lemma FieldsRead(file: seq<Byte>, a: nat, id: nat, idLen: nat, size: nat, sizeLen: nat, rest: seq<Byte>)
    requires IdFits(id, idLen) && Fits(size, sizeLen) && a <= |file|
    requires file[a..] == IdBytes(id, idLen) + Vint.Encode(size, sizeLen) + rest
    ensures HeaderAt(file, a) == HeaderOf((id, idLen), Some((size, sizeLen))) && file[a + idLen + sizeLen..] == rest
  {
    Regroup(IdBytes(id, idLen), Vint.Encode(size, sizeLen), rest);
    IdRead(file, a, id, idLen, Vint.Encode(size, sizeLen) + rest);
    SizeRead(file, a + idLen, size, sizeLen, rest);
    HeaderParts(file, a, Some((id, idLen)));
  }

  lemma HeadFits(p: Piece)
    requires Fine(p)
    ensures IdFits(IdOf(p), IdLen(p)) && Fits(SizeOf(p), p.sizeLen) && 2 <= |Head(p)| <= 11
    ensures !p.Container? ==> SizeOf(p) == |Payload(p)| && !UnknownSize(SizeOf(p), p.sizeLen)
  {
    IdsFit(p);
  }

  lemma HeadRead(file: seq<Byte>, a: nat, p: Piece, rest: seq<Byte>) returns (h: Header)
    requires Fine(p) && a <= |file| && file[a..] == Head(p) + rest
    ensures HeaderAt(file, a) == Some(h) && h.headerLen == |Head(p)| <= 11 && Heads(h, p, Payload(p))
    ensures a + h.headerLen <= |file| && file[a + h.headerLen..] == rest
  {
    HeadFits(p);
    FieldsRead(file, a, IdOf(p), IdLen(p), SizeOf(p), p.sizeLen, rest);
    h := HeaderAt(file, a).value;
  }

  lemma BodyRead(cfg: Config, p: Piece, ticks: nat)
    requires Fine(p) && p.Coded? && TimeFits(cfg, p, ticks)
    ensures BlockOf(cfg, ticks, Payload(p), p.simple) ==
            FirstOf(Expected(cfg, p, ticks))
  {
    var body, n := Payload(p), p.trackLen;
    var tail := RelBytes(p.rel) + ([p.flags] + p.data);
    DecodeEncode(p.track, n, tail);
    assert body[n..] == tail && body[n] == tail[0] && body[n + 1] == tail[1] && body[n + 2] == p.flags;
    assert body[n + 3..] == p.data && (p.data != [] ==> body[n + 4..] == p.data[1..]);
    RelBack(p.rel);
    WrapsNot(ticks);
    WrapsNot(ticks + p.rel);
    WrapsNot(cfg.timestampScaleNs);
    WrapsNot((ticks + p.rel) * cfg.timestampScaleNs);
  }

  lemma RelBack(rel: int)
    requires -0x8000 <= rel < 0x8000
    ensures |RelBytes(rel)| == 2
    ensures var raw := (RelBytes(rel)[0] as int) * 256 + (RelBytes(rel)[1] as int);
      rel == if raw < 0x8000 then raw else raw - 0x1_0000
  {
    var u := if rel < 0 then rel + 0x1_0000 else rel;
    assert BigEndian(u, 2) == BigEndian(u / 256, 1) + [u % 256];
    assert BigEndian(u / 256, 1) == BigEndian(u / 65536, 0) + [u / 256 % 256];
  }

  // ---------------------------------------------------------------- the file read back

  /** What a turn does at a piece. */
  function TurnFor(cfg: Config, p: Piece, st: State, end: nat): Turn {
    var now, st' := Yield(cfg, p, st.clusterTs), State(end, TicksAfter(p, st.clusterTs));
    if now == [] then Advance(st') else Emit(st', now[0])
  }

  lemma Ahead(file: seq<Byte>, at: nat, payload: seq<Byte>, rest: seq<Byte>)
    requires at <= |file| && file[at..] == payload + rest
    ensures at + |payload| <= |file| && Window(0, file).Slice(at, |payload|) == Some(payload)
    ensures file[at + |payload|..] == rest
  {
    assert file[at..][..|payload|] == payload && file[at..][|payload|..] == rest;
    assert file[at..at + |payload|] == file[at..][..|payload|];
  }

  lemma StampHandled(cfg: Config, st: State, file: seq<Byte>, h: Header, bytes: seq<Byte>)
    requires h.headerLen > 0 && h.id == ID_CLUSTER_TS && h.size == Some(|bytes|) && AsU32(|bytes|) == |bytes|
    requires Window(0, file).Slice(st.pos + h.headerLen, |bytes|) == Some(bytes)
    ensures Handle(cfg, st, Window(0, file), h) == Advance(State(st.pos + h.headerLen + |bytes|, UintOf(bytes)))
  {}

  lemma CodedHandled(cfg: Config, st: State, file: seq<Byte>, h: Header, body: seq<Byte>, simple: bool)
    requires h.headerLen > 0 && h.id == (if simple then ID_SIMPLE_BLOCK else ID_BLOCK)
    requires h.size == Some(|body|) && AsU32(|body|) == |body|
    requires Window(0, file).Slice(st.pos + h.headerLen, |body|) == Some(body)
    ensures var st', b := st.(pos := st.pos + h.headerLen + |body|), BlockOf(cfg, st.clusterTs, body, simple);
      Handle(cfg, st, Window(0, file), h) == if b.Some? then Emit(st', b.value) else Advance(st')
  {}

  lemma PassedHandled(cfg: Config, st: State, file: seq<Byte>, h: Header, n: nat)
    requires h.headerLen > 0 && !Known(h.id) && h.size == Some(n)
    ensures Handle(cfg, st, Window(0, file), h) == Advance(st.(pos := st.pos + h.headerLen + n))
  {}

  /** What the demuxer makes of the payload `bytes` of piece `p`. */
  ghost predicate Means(cfg: Config, p: Piece, ticks: nat, bytes: seq<Byte>) {
    && AsU32(|bytes|) == |bytes| && (p.Container? ==> bytes == [])
    && (p.Stamp? ==> UintOf(bytes) == p.ticks)
    && (p.Coded? ==> BlockOf(cfg, ticks, bytes, p.simple) == FirstOf(Expected(cfg, p, ticks)))
  }

  function FirstOf(bs: seq<Block>): Option<Block> { if bs == [] then None else Some(bs[0]) }

  lemma PayloadMeans(cfg: Config, p: Piece, ticks: nat)
    requires Fine(p) && (p.Coded? ==> TimeFits(cfg, p, ticks))
    ensures Means(cfg, p, ticks, Payload(p))
  {
    SmallU32(|Payload(p)|);
    match p
    case Stamp(ticks, width, _) => UintBack(ticks, width);
    case Coded(_, _, _, _, _, _, _) => BodyRead(cfg, p, ticks);
    case _ =>
  }

  /** The header is the piece's, with the size of `bytes`. */
  predicate Heads(h: Header, p: Piece, bytes: seq<Byte>) {
    && h.headerLen > 0 && h.id == IdOf(p) && (!p.Container? ==> h.size == Some(|bytes|))
    && (p.Container? ==> p.id in {ID_SEGMENT, ID_CLUSTER, ID_BLOCK_GROUP}) && (p.Passed? ==> !Known(p.id))
  }

  lemma PieceHandled(cfg: Config, p: Piece, st: State, file: seq<Byte>, h: Header, bytes: seq<Byte>, rest: seq<Byte>)
    requires Means(cfg, p, st.clusterTs, bytes) && Heads(h, p, bytes)
    requires st.pos + h.headerLen <= |file| && file[st.pos + h.headerLen..] == bytes + rest
    ensures Handle(cfg, st, Window(0, file), h) == TurnFor(cfg, p, st, st.pos + h.headerLen + |bytes|)
  {
    Ahead(file, st.pos + h.headerLen, bytes, rest);
    match p
    case Container(_, _, _) =>
    case Stamp(_, _, _) => StampHandled(cfg, st, file, h, bytes);
    case Coded(simple, _, _, _, _, _, _) => CodedHandled(cfg, st, file, h, bytes, simple);
    case Passed(_, _, _, _) => PassedHandled(cfg, st, file, h, |bytes|);
  }

  /** A header that is there is read, if the cut distance to the end does not fall short of it. */
  lemma Asked(cfg: Config, st: State, file: seq<Byte>, h: Header)
    requires |file| == cfg.totalLen && st.pos < |file| && HeaderAt(file, st.pos) == Some(h)
    requires h.headerLen <= 12 && AsU32(|file| - st.pos) >= h.headerLen
    ensures StepIn(cfg, st, Window(0, file)) == Handle(cfg, st, Window(0, file), h)
  {
    Wanted(cfg, st, h.headerLen);
    StepOnFile(cfg, st, file);
  }

  lemma Wanted(cfg: Config, st: State, n: nat)
    requires st.pos < cfg.totalLen && AsU32(cfg.totalLen - st.pos) >= n && n <= 12
    ensures HeaderWant(cfg, st) >= n
  {}

  /** A turn at a piece, given its header and payload in bytes. */
  lemma TurnRead(cfg: Config, p: Piece, st: State, file: seq<Byte>, h: Header, bytes: seq<Byte>, rest: seq<Byte>)
    returns (st': State)
    requires |file| == cfg.totalLen && st.pos + h.headerLen <= |file| && HeaderAt(file, st.pos) == Some(h)
    requires h.headerLen <= 12 && AsU32(|file| - st.pos) >= h.headerLen
    requires Means(cfg, p, st.clusterTs, bytes) && Heads(h, p, bytes) && file[st.pos + h.headerLen..] == bytes + rest
    ensures st' == State(st.pos + h.headerLen + |bytes|, TicksAfter(p, st.clusterTs))
    ensures Blocks(cfg, st, file) == Prepend(Yield(cfg, p, st.clusterTs), Blocks(cfg, st', file))
    ensures st'.pos <= |file| && file[st'.pos..] == rest
  {
    Asked(cfg, st, file, h);
    PieceHandled(cfg, p, st, file, h, bytes, rest);
    Ahead(file, st.pos + h.headerLen, bytes, rest);
    st' := State(st.pos + h.headerLen + |bytes|, TicksAfter(p, st.clusterTs));
    PieceYields(cfg, p, st, st', file);
  }

  lemma PieceRead(cfg: Config, p: Piece, st: State, file: seq<Byte>, rest: seq<Byte>) returns (st': State)
    requires Fine(p) && |file| == cfg.totalLen && st.pos <= |file| && (p.Coded? ==> TimeFits(cfg, p, st.clusterTs))
    requires file[st.pos..] == Head(p) + (Payload(p) + rest) && AsU32(|file| - st.pos) >= |Head(p)|
    ensures st' == State(st.pos + |Head(p)| + |Payload(p)|, TicksAfter(p, st.clusterTs))
    ensures Blocks(cfg, st, file) == Prepend(Yield(cfg, p, st.clusterTs), Blocks(cfg, st', file))
    ensures st'.pos <= |file| && file[st'.pos..] == rest
  {
    var h := HeadRead(file, st.pos, p, Payload(p) + rest);
    PayloadMeans(cfg, p, st.clusterTs);
    st' := TurnRead(cfg, p, st, file, h, Payload(p), rest);
  }

  /** Where the demuxer stands after the pieces. */
  ghost function Behind(ps: seq<Piece>, st: State): State
    requires AllFine(ps)
  {
    State(st.pos + |Written(ps)|, TimeAfter(ps, st.clusterTs))
  }

  lemma BehindFirst(cfg: Config, ps: seq<Piece>, st: State, st': State)
    requires ps != [] && AllFine(ps)
    requires st' == State(st.pos + |Head(ps[0])| + |Payload(ps[0])|, TicksAfter(ps[0], st.clusterTs))
    ensures Behind(ps, st) == Behind(ps[1..], st')
    ensures AllExpected(cfg, ps, st.clusterTs) ==
            Yield(cfg, ps[0], st.clusterTs) + AllExpected(cfg, ps[1..], st'.clusterTs)
  {}

  lemma PieceYields(cfg: Config, p: Piece, st: State, st': State, file: seq<Byte>)
    requires StepIn(cfg, st, Window(0, file)) == TurnFor(cfg, p, st, st'.pos)
    requires st'.clusterTs == TicksAfter(p, st.clusterTs)
    ensures Blocks(cfg, st, file) == Prepend(Yield(cfg, p, st.clusterTs), Blocks(cfg, st', file))
  {
    PrependNothing(Blocks(cfg, st', file));
    var now := Yield(cfg, p, st.clusterTs);
    assert now == [] || now == [now[0]];
  }

  lemma Joined(a: seq<Byte>, b: seq<Byte>, c: seq<Byte>, d: seq<Byte>)
    ensures a + (b + c) + d == a + (b + (c + d))
  {}

  lemma WrittenFirst(ps: seq<Piece>, after: seq<Byte>)
    requires ps != [] && AllFine(ps)
    ensures AllFine(ps[1..])
    ensures Written(ps) + after == Head(ps[0]) + (Payload(ps[0]) + (Written(ps[1..]) + after))
    ensures |Written(ps)| + |after| == |Written(ps) + after|
  {
    Joined(Head(ps[0]), Payload(ps[0]), Written(ps[1..]), after);
  }

  lemma UncutFirst(ps: seq<Piece>, after: nat, left: nat)
    requires ps != [] && AllFine(ps) && Uncut(ps, after) && left == |Written(ps)| + after
    ensures AllFine(ps[1..]) && Uncut(ps[1..], after) && AsU32(left) >= |Head(ps[0])|
  {}

  lemma FirstRead(cfg: Config, ps: seq<Piece>, st: State, file: seq<Byte>, after: seq<Byte>) returns (st': State)
    requires ps != [] && AllFine(ps) && AllTimesFit(cfg, ps, st.clusterTs)
    requires |file| == cfg.totalLen && st.pos <= |file| && file[st.pos..] == Written(ps) + after && Uncut(ps, |after|)
    ensures st' == State(st.pos + |Head(ps[0])| + |Payload(ps[0])|, TicksAfter(ps[0], st.clusterTs))
    ensures Blocks(cfg, st, file) == Prepend(Yield(cfg, ps[0], st.clusterTs), Blocks(cfg, st', file))
    ensures AllFine(ps[1..]) && AllTimesFit(cfg, ps[1..], st'.clusterTs) && Uncut(ps[1..], |after|)
    ensures st'.pos <= |file| && file[st'.pos..] == Written(ps[1..]) + after
  {
    WrittenFirst(ps, after);
    var left := |file[st.pos..]|;
    UncutFirst(ps, |after|, left);
    st' := PieceRead(cfg, ps[0], st, file, Written(ps[1..]) + after);
  }

  /**
   * Wherever elements stand in a file, the demuxer yields exactly the blocks that were written on its two tracks, in
   * order: track, time in microseconds, key frame flag and data; then it goes on behind them.
   */
  lemma {:induction false} ReadsWhatWasWritten(cfg: Config, ps: seq<Piece>, st: State, file: seq<Byte>,
                                               after: seq<Byte>)
    requires AllFine(ps) && AllTimesFit(cfg, ps, st.clusterTs)
    requires |file| == cfg.totalLen && st.pos <= |file| && file[st.pos..] == Written(ps) + after && Uncut(ps, |after|)
    ensures st.pos + |Written(ps)| <= |file|
    ensures Blocks(cfg, st, file) ==
            Prepend(AllExpected(cfg, ps, st.clusterTs), Blocks(cfg, Behind(ps, st), file))
    decreases |ps|
  {
    if ps == [] {
      PrependNothing(Blocks(cfg, st, file));
    } else {
      var p := ps[0];
      var st' := FirstRead(cfg, ps, st, file, after);
      ReadsWhatWasWritten(cfg, ps[1..], st', file, after);
      BehindFirst(cfg, ps, st, st');
      PrependTwice(Yield(cfg, p, st.clusterTs), AllExpected(cfg, ps[1..], st'.clusterTs),
                   Blocks(cfg, Behind(ps, st), file));
    }
  }

  /** A whole file of elements: exactly its blocks, and then the end. */
  lemma FileReadBack(cfg: Config, ps: seq<Piece>)
    requires AllFine(ps) && AllTimesFit(cfg, ps, 0)
    requires |Written(ps)| == cfg.totalLen && Uncut(ps, 0)
    ensures Blocks(cfg, State(0, 0), Written(ps)) == Demuxed(AllExpected(cfg, ps, 0), AtEnd)
  {
    var file, none: seq<Byte> := Written(ps), [];
    assert file[0..] == file + none;
    ReadsWhatWasWritten(cfg, ps, State(0, 0), file, none);
    assert AllExpected(cfg, ps, 0) + [] == AllExpected(cfg, ps, 0);
  }

  /** However a player windows such a file, once at the end it has seen exactly the blocks that were written. */
  lemma PlayerSeesWhatWasWritten(cfg: Config, ps: seq<Piece>, w: Window, evs: seq<Event>)
    requires AllFine(ps) && AllTimesFit(cfg, ps, 0) && |Written(ps)| == cfg.totalLen && Uncut(ps, 0)
    requires Shows(Written(ps), w) && forall i | 0 <= i < |evs| :: Honest(Written(ps), evs[i])
    requires var p := Play(cfg, State(0, 0), w, evs); NextIn(cfg, p.st, p.window).next.Done?
    ensures Play(cfg, State(0, 0), w, evs).blocks == AllExpected(cfg, ps, 0)
  {
    FileReadBack(cfg, ps);
    CompleteRunSeesAll(cfg, State(0, 0), Written(ps), w, evs);
  }
}
