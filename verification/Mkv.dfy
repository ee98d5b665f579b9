/**
 * The streaming Matroska block demuxer.
 *
 * `StepIn` is one turn of the demuxer's loop on a window of the file; `Blocks` is what a buffer holding
 * the whole file would yield. The theorems say that no schedule of windows changes the outcome.
 */
module Mkv {
  import opened Options
  import opened Bytes
  import opened Machine
  import opened Rolling
  import opened Vint

  const ID_SEGMENT: nat := 0x18538067
  const ID_CLUSTER: nat := 0x1F43B675
  const ID_CLUSTER_TS: nat := 0xE7
  const ID_SIMPLE_BLOCK: nat := 0xA3
  const ID_BLOCK_GROUP: nat := 0xA0
  const ID_BLOCK: nat := 0xA1

  /** A big-endian unsigned number; bits shifted out at the top are lost. */
  function UintOf(bs: seq<Byte>): (v: nat)
    ensures v < TWO_64
  {
    if bs == [] then 0 else UintOf(bs[..|bs| - 1]) * 256 % TWO_64 + bs[|bs| - 1]
  }

  method ReadUint(bs: seq<Byte>) returns (v: nat)
    ensures v == UintOf(bs)
  {
    v := 0;
    for i := 0 to |bs|
      invariant v == UintOf(bs[..i])
    {
      assert bs[..i + 1][..i] == bs[..i];
      v := v * 256 % TWO_64 + bs[i];
    }
    assert bs[..|bs|] == bs;
  }

  datatype Block = Block(track: nat, ptsUs: int, keyframe: bool, data: seq<Byte>)

  /** The fields of the demuxer that stay put. */
  datatype Config = Config(timestampScaleNs: nat, videoTrack: nat, audioTrack: nat, totalLen: nat)

  datatype State = State(pos: nat, clusterTs: nat)

  function PtsUs(cfg: Config, ticks: int): int {
    TruncDiv(Wrap64(ticks * Wrap64(cfg.timestampScaleNs)), 1000)
  }

  /** A (Simple)Block body: track, 16-bit relative timecode, flags, frame. */
  function BlockOf(cfg: Config, clusterTs: nat, body: seq<Byte>, simple: bool): Option<Block> {
    match VintAt(body, 0, false)
    case None => None
    case Some((track, tn)) =>
      if (track != cfg.videoTrack && track != cfg.audioTrack) || tn + 2 >= |body| then None
      else
        var raw := (body[tn] as int) * 256 + (body[tn + 1] as int);
        var rel := if raw < 0x8000 then raw else raw - 0x1_0000;
        var flags := body[tn + 2];
        var lacing := flags / 2 % 4;
        var start := tn + 3 + if lacing == 0 then 0 else 1;
        if start > |body| then None
        else Some(Block(track, PtsUs(cfg, Wrap64(Wrap64(clusterTs) + rel)), simple && flags >= 128, body[start..]))
  }

  datatype Turn =
    | Advance(st: State)
    | Emit(st: State, block: Block)
    | Starved
    | Over

  /** How many bytes the demuxer asks for to read a header; the distance to the end is cut to 32 bits first. */
  function HeaderWant(cfg: Config, st: State): nat
    requires st.pos < cfg.totalLen
  {
    var left := AsU32(cfg.totalLen - st.pos);
    if left < 12 then left else 12
  }

  /** One turn of the loop in `next`, on the window `w`. */
  function StepIn(cfg: Config, st: State, w: Window): (t: Turn)
    ensures t.Advance? || t.Emit? ==> st.pos < t.st.pos && st.pos < cfg.totalLen
  {
    if st.pos >= cfg.totalLen then Over
    else
      match w.Slice(st.pos, HeaderWant(cfg, st))
      case None => Starved
      case Some(hslice) =>
        match HeaderAt(hslice, 0)
        case None => Starved
        case Some(h) => Handle(cfg, st, w, h)
  }

  function Handle(cfg: Config, st: State, w: Window, h: Header): (t: Turn)
    requires h.headerLen > 0
    ensures t.Advance? || t.Emit? ==> st.pos < t.st.pos
  {
    var payload := st.pos + h.headerLen;
    if h.id == ID_SEGMENT || h.id == ID_CLUSTER || h.id == ID_BLOCK_GROUP then
      Advance(st.(pos := payload))
    else if h.id == ID_CLUSTER_TS then
      var sz := AsU32(if h.size.Some? then h.size.value else 0);
      match w.Slice(payload, sz)
      case None => Starved
      case Some(s) => Advance(State(payload + sz, UintOf(s)))
    else if h.size.None? then Over
    else if h.id == ID_SIMPLE_BLOCK || h.id == ID_BLOCK then
      match w.Slice(payload, AsU32(h.size.value))
      case None => Starved
      case Some(body) =>
        var st' := st.(pos := payload + h.size.value);
        match BlockOf(cfg, st.clusterTs, body, h.id == ID_SIMPLE_BLOCK)
        case Some(b) => Emit(st', b)
        case None => Advance(st')
    else Advance(st.(pos := payload + h.size.value))
  }

  /** A window can only starve a turn, never change what it does. */
  lemma StepAgrees(cfg: Config, st: State, file: seq<Byte>, w: Window)
    requires Shows(file, w)
    ensures StepIn(cfg, st, w) == Starved || StepIn(cfg, st, w) == StepIn(cfg, st, Window(0, file))
  {
    if st.pos < cfg.totalLen && w.Has(st.pos, HeaderWant(cfg, st)) {
      var hslice := w.Slice(st.pos, HeaderWant(cfg, st)).value;
      if HeaderAt(hslice, 0).Some? {
        assert w.data != [];
        SliceOfFile(file, w, st.pos, HeaderWant(cfg, st));
        HandleAgrees(cfg, st, file, w, HeaderAt(hslice, 0).value);
      }
    }
  }

  lemma HandleAgrees(cfg: Config, st: State, file: seq<Byte>, w: Window, h: Header)
    requires Shows(file, w) && w.data != [] && h.headerLen > 0
    ensures Handle(cfg, st, w, h) == Starved || Handle(cfg, st, w, h) == Handle(cfg, st, Window(0, file), h)
  {
    var payload := st.pos + h.headerLen;
    var sz := AsU32(if h.size.Some? then h.size.value else 0);
    if w.Has(payload, sz) {
      SliceOfFile(file, w, payload, sz);
    }
  }

  // ---------------------------------------------------------------- whole files

  datatype End = AtEnd | Stuck

  datatype Demuxed = Demuxed(blocks: seq<Block>, end: End)

  function Prepend(bs: seq<Block>, d: Demuxed): Demuxed { Demuxed(bs + d.blocks, d.end) }

  /** The blocks a whole-file buffer yields from `st` on, and how that ends. */
  function Blocks(cfg: Config, st: State, file: seq<Byte>): Demuxed
    decreases cfg.totalLen - st.pos
  {
    match StepIn(cfg, st, Window(0, file))
    case Advance(st') => Blocks(cfg, st', file)
    case Emit(st', b) => Prepend([b], Blocks(cfg, st', file))
    case Starved => Demuxed([], Stuck)
    case Over => Demuxed([], AtEnd)
  }

  datatype Next = NextBlock(block: Block) | NeedMore | Done

  datatype Pulled = Pulled(st: State, next: Next) {
    function Delivered(): seq<Block> { if next.NextBlock? then [next.block] else [] }
  }

  /** One call of `next` on the window `w`. */
  function NextIn(cfg: Config, st: State, w: Window): Pulled
    decreases cfg.totalLen - st.pos
  {
    match StepIn(cfg, st, w)
    case Advance(st') => NextIn(cfg, st', w)
    case Emit(st', b) => Pulled(st', NextBlock(b))
    case Starved => Pulled(st, NeedMore)
    case Over => Pulled(st, Done)
  }

  lemma PrependNothing(d: Demuxed)
    ensures Prepend([], d) == d
  {
    assert [] + d.blocks == d.blocks;
  }

  /**
   * A call on any honest window moves along the whole-file run: it returns that run's next block, or
   * its end, or pauses somewhere on it without losing anything. The position never goes back.
   */
  lemma {:induction false} NextFollowsFile(cfg: Config, st: State, file: seq<Byte>, w: Window)
    requires Shows(file, w)
    ensures var p := NextIn(cfg, st, w);
            && st.pos <= p.st.pos && (p.next.NextBlock? ==> st.pos < p.st.pos)
            && Blocks(cfg, st, file) == Prepend(p.Delivered(), Blocks(cfg, p.st, file))
            && (p.next.Done? ==> Blocks(cfg, st, file) == Demuxed([], AtEnd))
    decreases cfg.totalLen - st.pos
  {
    StepAgrees(cfg, st, file, w);
    match StepIn(cfg, st, w)
    case Advance(st') => NextFollowsFile(cfg, st', file, w);
    case Emit(_, _) =>
    case Starved => PrependNothing(Blocks(cfg, st, file));
    case Over => PrependNothing(Blocks(cfg, st, file));
  }

  /**
   * A pause is the window's fault: one that reaches from the position to the end of the file never pauses, unless the
   * file itself is stuck there.
   */
  lemma {:induction false} PauseNeedsMore(cfg: Config, st: State, file: seq<Byte>, w: Window)
    requires Shows(file, w) && w.data != [] && w.base <= st.pos && w.End() == |file|
    requires NextIn(cfg, st, w).next.NeedMore?
    ensures Blocks(cfg, st, file) == Demuxed([], Stuck)
    decreases cfg.totalLen - st.pos
  {
    StepAgrees(cfg, st, file, w);
    match StepIn(cfg, st, w)
    case Advance(st') => PauseNeedsMore(cfg, st', file, w);
    case Emit(_, _) =>
    case Starved => StarvedByFile(cfg, st, file, w);
    case Over =>
  }

  lemma StarvedByFile(cfg: Config, st: State, file: seq<Byte>, w: Window)
    requires Shows(file, w) && w.data != [] && w.base <= st.pos && w.End() == |file|
    requires StepIn(cfg, st, w) == Starved
    ensures StepIn(cfg, st, Window(0, file)) == Starved
  {
    var want := HeaderWant(cfg, st);
    if w.Has(st.pos, want) {
      SliceOfFile(file, w, st.pos, want);
      var h := HeaderAt(w.Slice(st.pos, want).value, 0);
      if h.Some? {
        var payload := st.pos + h.value.headerLen;
        var sz := AsU32(if h.value.size.Some? then h.value.size.value else 0);
        assert w.Has(payload, sz) == Window(0, file).Has(payload, sz);
      }
    }
  }

  // ---------------------------------------------------------------- exactly where it starves

  lemma SliceOfSlice(file: seq<Byte>, a: nat, b: nat, i: nat, j: nat)
    requires a <= b <= |file| && i <= j <= b - a
    ensures file[a..b][i..j] == file[a + i..a + j]
  {
    var slice := file[a..b];
    assert |slice[i..j]| == |file[a + i..a + j]|;
    forall k | 0 <= k < j - i ensures slice[i..j][k] == file[a + i..a + j][k] {
      assert slice[i..j][k] == slice[i + k] == file[a + i + k];
    }
  }

  /** In a slice of the file, an integer is there exactly if the slice reaches to its end. */
  lemma VintInSlice(file: seq<Byte>, a: nat, b: nat, p: nat, keepMarker: bool)
    requires a <= b <= |file|
    ensures var r := VintAt(file, a + p, keepMarker);
      VintAt(file[a..b], p, keepMarker) == if r.Some? && a + p + r.value.1 <= b then r else None
  {
    var slice := file[a..b];
    if p < |slice| && slice[p] != 0 {
      assert slice[p] == file[a + p];
      var len := VintLen(slice[p]);
      if p + len <= |slice| {
        SliceOfSlice(file, a, b, p + 1, p + len);
      }
    }
  }

  /** In a slice of the file, a header is there exactly if the slice reaches to its end. */
  lemma HeaderInSlice(file: seq<Byte>, a: nat, b: nat)
    requires a <= b <= |file|
    ensures var h := HeaderAt(file, a);
      HeaderAt(file[a..b], 0) == if h.Some? && a + h.value.headerLen <= b then h else None
  {
    var slice := file[a..b];
    var id, cutId := VintAt(file, a, true), VintAt(slice, 0, true);
    VintInSlice(file, a, b, 0, true);
    HeaderParts(file, a, id);
    HeaderParts(slice, 0, cutId);
    if cutId.Some? {
      VintInSlice(file, a, b, id.value.1, false);
    }
  }

  /** The payload bytes that a turn reads, after a header that it has read: none for containers and skipped elements. */
  function PayloadWant(h: Header): nat {
    if h.id == ID_CLUSTER_TS then AsU32(if h.size.Some? then h.size.value else 0)
    else if (h.id == ID_SIMPLE_BLOCK || h.id == ID_BLOCK) && h.size.Some? then AsU32(h.size.value)
    else 0
  }

  /**
   * The distance to the end is cut to 32 bits before it bounds the header read. A header that is in the file, of at
   * most the twelve bytes that are ever asked for, is not read from the whole file exactly if the cut distance is
   * shorter than the header: within eleven bytes of a multiple of 4 GiB before the end.
   */
  lemma HeaderUnreadIff(cfg: Config, st: State, file: seq<Byte>, h: Header)
    requires |file| == cfg.totalLen && st.pos < cfg.totalLen && HeaderAt(file, st.pos) == Some(h) && h.headerLen <= 12
    ensures var hslice := Window(0, file).Slice(st.pos, HeaderWant(cfg, st));
      hslice.Some? && (HeaderAt(hslice.value, 0).None? <==> AsU32(cfg.totalLen - st.pos) < h.headerLen)
  {
    var want := HeaderWant(cfg, st);
    HeaderInSlice(file, st.pos, st.pos + want);
    assert Window(0, file).Slice(st.pos, want) == Some(file[st.pos..st.pos + want]);
  }

  lemma HandleStarvedIff(cfg: Config, st: State, file: seq<Byte>, h: Header)
    requires h.headerLen > 0 && st.pos + h.headerLen <= |file|
    ensures Handle(cfg, st, Window(0, file), h) == Starved <==> st.pos + h.headerLen + PayloadWant(h) > |file|
  {}

  lemma StepOnFile(cfg: Config, st: State, file: seq<Byte>)
    requires |file| == cfg.totalLen && st.pos < cfg.totalLen
    ensures var h := HeaderAt(file, st.pos);
      StepIn(cfg, st, Window(0, file)) ==
        if h.None? || HeaderWant(cfg, st) < h.value.headerLen then Starved
            else Handle(cfg, st, Window(0, file), h.value)
  {
    HeaderInSlice(file, st.pos, st.pos + HeaderWant(cfg, st));
    assert Window(0, file).Slice(st.pos, HeaderWant(cfg, st)) == Some(file[st.pos..st.pos + HeaderWant(cfg, st)]);
  }

  /**
   * A turn on the whole file starves exactly if its header is not there, is not asked for in full, or its payload is
   * not there.
   */
  lemma StarvedIff(cfg: Config, st: State, file: seq<Byte>)
    requires |file| == cfg.totalLen
    ensures StepIn(cfg, st, Window(0, file)) == Starved <==>
      st.pos < cfg.totalLen &&
      var h := HeaderAt(file, st.pos);
      h.None? || HeaderWant(cfg, st) < h.value.headerLen || st.pos + h.value.headerLen + PayloadWant(h.value) > |file|
  {
    if st.pos < cfg.totalLen {
      StepOnFile(cfg, st, file);
      var h := HeaderAt(file, st.pos);
      if h.Some? {
        HandleStarvedIff(cfg, st, file, h.value);
      }
    }
  }

  lemma StarvesHere(cfg: Config, st: State, file: seq<Byte>, w: Window)
    requires StepIn(cfg, st, Window(0, file)) == Starved && Shows(file, w)
    ensures NextIn(cfg, st, w) == Pulled(st, NeedMore) && Blocks(cfg, st, file) == Demuxed([], Stuck)
  {
    StepAgrees(cfg, st, file, w);
  }

  /**
   * Where a turn on the whole file starves, and only there, every window of the file leaves the demuxer asking for
   * more.
   */
  lemma StarvesForeverIff(cfg: Config, st: State, file: seq<Byte>)
    ensures (forall w: Window | Shows(file, w) :: NextIn(cfg, st, w) == Pulled(st, NeedMore)) <==>
            StepIn(cfg, st, Window(0, file)) == Starved
    ensures StepIn(cfg, st, Window(0, file)) == Starved ==> Blocks(cfg, st, file) == Demuxed([], Stuck)
  {
    var whole := Window(0, file);
    if StepIn(cfg, st, whole) == Starved {
      forall w: Window | Shows(file, w) ensures NextIn(cfg, st, w) == Pulled(st, NeedMore) {
        StarvesHere(cfg, st, file, w);
      }
    } else {
      assert file[0..|file|] == file && Shows(file, whole);
      if StepIn(cfg, st, whole).Advance? {
        NextFollowsFile(cfg, StepIn(cfg, st, whole).st, file, whole);
      }
      assert NextIn(cfg, st, whole) != Pulled(st, NeedMore);
    }
  }

  lemma CutStarved(cfg: Config, st: State, file: seq<Byte>, h: Header)
    requires |file| == cfg.totalLen && st.pos < cfg.totalLen && HeaderAt(file, st.pos) == Some(h)
    requires AsU32(cfg.totalLen - st.pos) < h.headerLen
    ensures StepIn(cfg, st, Window(0, file)) == Starved
  {
    var want := HeaderWant(cfg, st);
    assert want < h.headerLen;
    HeaderInSlice(file, st.pos, st.pos + want);
    assert Window(0, file).Slice(st.pos, want) == Some(file[st.pos..st.pos + want]);
  }

  /** So a header within reach of the cut is never read, in whatever window, and nothing from it on is delivered. */
  lemma CutDistanceStarves(cfg: Config, st: State, file: seq<Byte>, w: Window, h: Header)
    requires |file| == cfg.totalLen && st.pos < cfg.totalLen && HeaderAt(file, st.pos) == Some(h)
    requires AsU32(cfg.totalLen - st.pos) < h.headerLen && Shows(file, w)
    ensures NextIn(cfg, st, w) == Pulled(st, NeedMore) && Blocks(cfg, st, file) == Demuxed([], Stuck)
  {
    CutStarved(cfg, st, file, h);
    StarvesHere(cfg, st, file, w);
  }

  lemma ShortHeader(file: seq<Byte>)
    requires |file| >= 2 && file[0] == 0xA3 && file[1] == 0x80
    ensures HeaderAt(file, 0) == Some(Header(ID_SIMPLE_BLOCK, 2, Some(0)))
  {
    assert VintAt(file, 0, true) == Some((0xA3, 1));
    assert VintAt(file, 1, false) == Some((0, 1));
  }

  /** A file of one byte over 4 GiB that starts with an empty block is never demuxed at all, whatever is fetched. */
  lemma FileStarvesAtStart(cfg: Config, clusterTs: nat, file: seq<Byte>, w: Window)
    requires |file| == cfg.totalLen == TWO_32 + 1 && file[0] == 0xA3 && file[1] == 0x80 && Shows(file, w)
    ensures HeaderAt(file, 0) == Some(Header(ID_SIMPLE_BLOCK, 2, Some(0)))
    ensures NextIn(cfg, State(0, clusterTs), w) == Pulled(State(0, clusterTs), NeedMore)
    ensures Blocks(cfg, State(0, clusterTs), file) == Demuxed([], Stuck)
  {
    ShortHeader(file);
    CutDistanceStarves(cfg, State(0, clusterTs), file, w, Header(ID_SIMPLE_BLOCK, 2, Some(0)));
  }

  // ---------------------------------------------------------------- schedules

  /** What a player does around its calls of `next`: fetch forward, reclaim memory, seek. */
  datatype Event = Fetch(at: nat, bytes: seq<Byte>) | Drop(offset: nat) | Reset(offset: nat) | Pull

  ghost predicate Honest(file: seq<Byte>, ev: Event) {
    ev.Fetch? ==> ev.at + |ev.bytes| <= |file| && ev.bytes == file[ev.at..ev.at + |ev.bytes|]
  }

  function Rewindow(w: Window, ev: Event): Window {
    match ev
    case Fetch(at, bytes) => w.Append(at, bytes)
    case Drop(offset) => w.DropBefore(offset)
    case Reset(offset) => Window(offset, [])
    case Pull => w
  }

  datatype Played = Played(st: State, window: Window, blocks: seq<Block>)

  /** State, window and delivered blocks after a schedule. */
  function Play(cfg: Config, st: State, w: Window, evs: seq<Event>): Played
    decreases |evs|
  {
    if evs == [] then Played(st, w, [])
    else if evs[0].Pull? then
      var p := NextIn(cfg, st, w);
      var rest := Play(cfg, p.st, w, evs[1..]);
      rest.(blocks := p.Delivered() + rest.blocks)
    else Play(cfg, st, Rewindow(w, evs[0]), evs[1..])
  }

  lemma RewindowShows(file: seq<Byte>, w: Window, ev: Event)
    requires Shows(file, w) && Honest(file, ev)
    ensures Shows(file, Rewindow(w, ev))
  {
    match ev
    case Fetch(at, bytes) => AppendShows(file, w, at, bytes);
    case Drop(offset) => DropShows(file, w, offset);
    case Reset(_) =>
    case Pull =>
  }

  /**
   * Window independence: after any honest schedule, the blocks delivered so far followed by the blocks a
   * whole-file buffer would still yield are the blocks of the whole file, and nothing about the end changed.
   */
  lemma {:induction false} ScheduleIndependence(cfg: Config, st: State, file: seq<Byte>, w: Window, evs: seq<Event>)
    requires Shows(file, w) && forall i | 0 <= i < |evs| :: Honest(file, evs[i])
    ensures var p := Play(cfg, st, w, evs);
            && Shows(file, p.window) && st.pos <= p.st.pos
            && Blocks(cfg, st, file) == Prepend(p.blocks, Blocks(cfg, p.st, file))
    decreases |evs|
  {
    if evs != [] {
      assert Honest(file, evs[0]);
      if evs[0].Pull? {
        NextFollowsFile(cfg, st, file, w);
        var p := NextIn(cfg, st, w);
        var rest := Play(cfg, p.st, w, evs[1..]);
        ScheduleIndependence(cfg, p.st, file, w, evs[1..]);
        PrependTwice(p.Delivered(), rest.blocks, Blocks(cfg, rest.st, file));
      } else {
        RewindowShows(file, w, evs[0]);
        ScheduleIndependence(cfg, st, file, Rewindow(w, evs[0]), evs[1..]);
      }
    }
  }

  lemma PrependTwice(a: seq<Block>, b: seq<Block>, d: Demuxed)
    ensures Prepend(a, Prepend(b, d)) == Prepend(a + b, d)
  {
    assert a + (b + d.blocks) == (a + b) + d.blocks;
  }

  /** A player that runs to the end has seen exactly the blocks of the file, however it windowed it. */
  lemma CompleteRunSeesAll(cfg: Config, st: State, file: seq<Byte>, w: Window, evs: seq<Event>)
    requires Shows(file, w) && forall i | 0 <= i < |evs| :: Honest(file, evs[i])
    requires var p := Play(cfg, st, w, evs); NextIn(cfg, p.st, p.window).next.Done?
    ensures Blocks(cfg, st, file) == Demuxed(Play(cfg, st, w, evs).blocks, AtEnd)
  {
    var p := Play(cfg, st, w, evs);
    ScheduleIndependence(cfg, st, file, w, evs);
    NextFollowsFile(cfg, p.st, file, p.window);
    assert p.blocks + [] == p.blocks;
  }

  // ---------------------------------------------------------------- the demuxer

  class MkvDemux {
    var pos: nat
    var clusterTs: nat
    const cfg: Config

    function View(): State
      reads this
    {
      State(pos, clusterTs)
    }

    constructor (pos: nat, cfg: Config)
      ensures View() == State(pos, 0) && this.cfg == cfg
    {
      this.pos, this.clusterTs, this.cfg := pos, 0, cfg;
    }

    /** Parse one element; `None` means: go on. */
    method ParseElement(buf: RollingBuffer) returns (r: Option<Next>)
      modifies this
      ensures match StepIn(cfg, old(View()), buf.View())
              case Advance(st') => r == None && View() == st'
              case Emit(st', b) => r == Some(NextBlock(b)) && View() == st'
              case Starved => r == Some(NeedMore) && View() == old(View())
              case Over => r == Some(Done) && View() == old(View())
    {
      if pos >= cfg.totalLen {
        return Some(Done);
      }
      var left := AsU32(cfg.totalLen - pos);
      var hslice := buf.View().Slice(pos, if left < 12 then left else 12);
      if hslice.None? {
        return Some(NeedMore);
      }
      var header := ReadHeader(hslice.value, 0);
      if header.None? {
        return Some(NeedMore);
      }
      r := HandleElement(buf, header.value);
    }

    /** Descend into a master, take a timestamp, take a block, or skip. */
    method HandleElement(buf: RollingBuffer, h: Header) returns (r: Option<Next>)
      requires h.headerLen > 0
      modifies this
      ensures match Handle(cfg, old(View()), buf.View(), h)
              case Advance(st') => r == None && View() == st'
              case Emit(st', b) => r == Some(NextBlock(b)) && View() == st'
              case Starved => r == Some(NeedMore) && View() == old(View())
              case Over => r == Some(Done) && View() == old(View())
    {
      r := None;
      var payload := pos + h.headerLen;
      if h.id == ID_SEGMENT || h.id == ID_CLUSTER || h.id == ID_BLOCK_GROUP {
        pos := payload;
      } else if h.id == ID_CLUSTER_TS {
        var sz := AsU32(if h.size.Some? then h.size.value else 0);
        var s := buf.View().Slice(payload, sz);
        if s.None? {
          return Some(NeedMore);
        }
        clusterTs := ReadUint(s.value);
        pos := payload + sz;
      } else if h.size.None? {
        return Some(Done);
      } else if h.id == ID_SIMPLE_BLOCK || h.id == ID_BLOCK {
        var body := buf.View().Slice(payload, AsU32(h.size.value));
        if body.None? {
          return Some(NeedMore);
        }
        pos := payload + h.size.value;
        var block := BlockOf(cfg, clusterTs, body.value, h.id == ID_SIMPLE_BLOCK);
        if block.Some? {
          return Some(NextBlock(block.value));
        }
      } else {
        pos := payload + h.size.value;
      }
    }

    /** Pull the next block on the video or audio track, skipping everything else. */
    method Next(buf: RollingBuffer) returns (r: Next)
      modifies this
      ensures Pulled(View(), r) == NextIn(cfg, old(View()), buf.View())
    {
      var found: Option<Next> := None;
      while found == None
        invariant found == None ==> NextIn(cfg, View(), buf.View()) == NextIn(cfg, old(View()), buf.View())
        invariant found.Some? ==> Pulled(View(), found.value) == NextIn(cfg, old(View()), buf.View())
        decreases found == None, cfg.totalLen - pos
      {
        found := ParseElement(buf);
      }
      r := found.value;
    }
  }
}
