/**
 * The windows an HTTP range reader keeps, and how far they reach.
 *
 * Offsets are file offsets; the source keeps them in `u64`, far above any file size, so no sum below
 * can overflow there.
 */
module RangeCache {
  import opened Options
  import opened Bytes

  const WINDOW: nat := 2 * 1024 * 1024
  const PREFETCH_AHEAD: nat := 8 * 1024 * 1024
  const MAX_CHUNKS: nat := 12
  const FILL_GATE_MARGIN: nat := 256 * 1024

  datatype Chunk = Chunk(base: nat, data: seq<Byte>) {
    predicate Covers(off: nat) { base <= off < base + |data| }
    function End(): nat { base + |data| }
  }

  ghost predicate Covered(chunks: seq<Chunk>, off: nat) {
    exists i :: 0 <= i < |chunks| && chunks[i].Covers(off)
  }

  /** An offset no window reaches. */
  ghost function Beyond(chunks: seq<Chunk>): (e: nat)
    ensures forall i | 0 <= i < |chunks| :: chunks[i].End() <= e
  {
    if chunks == [] then 0
    else
      var rest := Beyond(chunks[1..]);
      assert forall i | 1 <= i < |chunks| :: chunks[i] == chunks[1..][i - 1];
      if chunks[0].End() > rest then chunks[0].End() else rest
  }

  /** The first uncovered offset at or after `pos`, found one byte at a time. */
  ghost function Frontier(chunks: seq<Chunk>, pos: nat): (e: nat)
    ensures pos <= e && !Covered(chunks, e)
    ensures forall o: nat | pos <= o < e :: Covered(chunks, o)
    decreases Beyond(chunks) - pos
  {
    if Covered(chunks, pos) then Frontier(chunks, pos + 1) else pos
  }

  lemma FrontierUnique(chunks: seq<Chunk>, pos: nat, e: nat)
    requires pos <= e && !Covered(chunks, e) && forall o: nat | pos <= o < e :: Covered(chunks, o)
    ensures e == Frontier(chunks, pos)
  {
    var f := Frontier(chunks, pos);
    assert !Covered(chunks, f);
  }

  method ChunkCovering(chunks: seq<Chunk>, off: nat) returns (r: Option<nat>)
    ensures r.Some? ==> r.value < |chunks| && chunks[r.value].Covers(off)
                        && forall j | 0 <= j < r.value :: !chunks[j].Covers(off)
    ensures r.None? <==> !Covered(chunks, off)
  {
    for i := 0 to |chunks|
      invariant forall j | 0 <= j < i :: !chunks[j].Covers(off)
    {
      if chunks[i].Covers(off) {
        return Some(i);
      }
    }
    return None;
  }

  /** The furthest contiguous byte covered from `pos`: leaps window by window to the same place `Frontier` walks to. */
  method ContiguousEnd(chunks: seq<Chunk>, pos: nat) returns (end: nat)
    ensures end == Frontier(chunks, pos)
  {
    end := pos;
    while true
      invariant pos <= end && forall o: nat | pos <= o < end :: Covered(chunks, o)
      invariant end <= pos || end <= Beyond(chunks)
      decreases Beyond(chunks) - end
    {
      var i := ChunkCovering(chunks, end);
      if i.None? {
        FrontierUnique(chunks, pos, end);
        return;
      }
      assert forall o: nat | end <= o < chunks[i.value].End() :: chunks[i.value].Covers(o);
      end := chunks[i.value].End();
    }
  }

  // ---------------------------------------------------------------- inserting

  /** What `insert_and_evict` makes of the window list. */
  ghost function Inserted(chunks: seq<Chunk>, base: nat, bytes: seq<Byte>): (r: seq<Chunk>)
    ensures |chunks| <= MAX_CHUNKS ==> |r| <= MAX_CHUNKS
  {
    if bytes == [] || (Covered(chunks, base) && Covered(chunks, base + |bytes| - 1)) then chunks
    else
      var more := chunks + [Chunk(base, bytes)];
      if |more| > MAX_CHUNKS then more[|more| - MAX_CHUNKS..] else more
  }

  /** `a` is the part of `file` at its place. */
  ghost predicate Agrees(file: seq<Byte>, c: Chunk) {
    c.data != [] && c.End() <= |file| && c.data == file[c.base..c.End()]
  }

  ghost predicate AllAgree(file: seq<Byte>, chunks: seq<Chunk>) {
    forall i | 0 <= i < |chunks| :: Agrees(file, chunks[i])
  }

  lemma InsertedAgrees(file: seq<Byte>, chunks: seq<Chunk>, base: nat, bytes: seq<Byte>)
    requires AllAgree(file, chunks) && (bytes == [] || Agrees(file, Chunk(base, bytes)))
    ensures AllAgree(file, Inserted(chunks, base, bytes))
  {
  }

  /** A window fetched at an uncovered offset is really added, survives its own insertion, and is last. */
  /** Eviction takes the oldest windows: of those there were, all but as many as are too many stay, in order. */
  lemma OldestGo(chunks: seq<Chunk>, base: nat, bytes: seq<Byte>)
    requires |chunks| <= MAX_CHUNKS
    ensures var r, n := Inserted(chunks, base, bytes), if |chunks| == MAX_CHUNKS then 1 else 0;
      r == chunks || (r[..|r| - 1] == chunks[n..] && r[|r| - 1] == Chunk(base, bytes))
  {}

  lemma InsertedIsLast(chunks: seq<Chunk>, base: nat, bytes: seq<Byte>)
    requires bytes != [] && !Covered(chunks, base)
    ensures var r := Inserted(chunks, base, bytes);
            && r != [] && r[|r| - 1] == Chunk(base, bytes)
            && (|chunks| < MAX_CHUNKS ==> r == chunks + [Chunk(base, bytes)])
            && (|chunks| == MAX_CHUNKS ==> r == chunks[1..] + [Chunk(base, bytes)])
            && (forall o: nat | base <= o < base + |bytes| :: Covered(r, o))
  {
    var r := Inserted(chunks, base, bytes);
    forall o: nat | base <= o < base + |bytes| ensures Covered(r, o) {
      assert r[|r| - 1].Covers(o);
    }
  }

  /**
   * The shortcut in `insert_and_evict` looks only at the two ends of the new window. It leaves the whole
   * window cached if and only if it was not taken or no byte between the ends was missing.
   */
  lemma InsertCoversIff(chunks: seq<Chunk>, base: nat, bytes: seq<Byte>)
    requires bytes != [] && |chunks| <= MAX_CHUNKS
    ensures var skipped := Covered(chunks, base) && Covered(chunks, base + |bytes| - 1);
            (forall o: nat | base <= o < base + |bytes| :: Covered(Inserted(chunks, base, bytes), o))
            <==> (!skipped || Frontier(chunks, base) >= base + |bytes|)
  {
    var r := Inserted(chunks, base, bytes);
    if Covered(chunks, base) && Covered(chunks, base + |bytes| - 1) {
      assert r == chunks;
      if Frontier(chunks, base) < base + |bytes| {
        assert !Covered(r, Frontier(chunks, base));
      }
    } else {
      forall o: nat | base <= o < base + |bytes| ensures Covered(r, o) {
        assert r[|r| - 1].Covers(o);
      }
    }
  }

  /** Such a hole exists: two one-byte windows and a three-byte window laid over both. */
  lemma SkippedInsertLeavesHole()
    ensures var chunks := [Chunk(0, [7]), Chunk(2, [9])];
            Inserted(chunks, 0, [7, 8, 9]) == chunks && !Covered(chunks, 1)
  {
    var chunks := [Chunk(0, [7]), Chunk(2, [9])];
    assert chunks[0].Covers(0) && chunks[1].Covers(2);
  }

  // ---------------------------------------------------------------- the demux gate

  ghost function Ahead(chunks: seq<Chunk>, readPos: nat): nat {
    Frontier(chunks, readPos) - readPos
  }

  ghost predicate AtEof(chunks: seq<Chunk>, readPos: nat, total: nat) {
    readPos >= total || Frontier(chunks, readPos) >= total
  }

  /** The demuxer may pull a packet. */
  ghost predicate GateOpen(chunks: seq<Chunk>, readPos: nat, total: nat) {
    AtEof(chunks, readPos, total) || Ahead(chunks, readPos) >= FILL_GATE_MARGIN
  }

  /** Where the prefetcher would fetch next, if it wants to fetch at all. */
  ghost function PrefetchStart(chunks: seq<Chunk>, readPos: nat, total: nat): Option<nat> {
    var end := Frontier(chunks, readPos);
    if end >= total || end - readPos >= PREFETCH_AHEAD then None else Some(end)
  }

  function WindowEnd(start: nat, total: nat): nat {
    if start + WINDOW < total then start + WINDOW else total
  }

  /** One completed prefetch that got its whole window. */
  ghost function Prefetched(chunks: seq<Chunk>, readPos: nat, file: seq<Byte>): seq<Chunk> {
    match PrefetchStart(chunks, readPos, |file|)
    case Some(start) => Inserted(chunks, start, file[start..WindowEnd(start, |file|)])
    case None => chunks
  }

  /** At most `n` completed prefetches open the gate. */
  ghost predicate OpensWithin(chunks: seq<Chunk>, readPos: nat, file: seq<Byte>, n: nat)
    decreases n
  {
    GateOpen(chunks, readPos, |file|) || (n > 0 && OpensWithin(Prefetched(chunks, readPos, file), readPos, file, n - 1))
  }

  /** The last `k` windows all start beyond the frontier: the prefetches so far went for later bytes. */
  ghost predicate LastBeyond(chunks: seq<Chunk>, readPos: nat, k: nat) {
    k <= |chunks| && forall i | |chunks| - k <= i < |chunks| :: chunks[i].base > Frontier(chunks, readPos)
  }

  /** A prefetch that leaves the gate shut evicted a needed window, so the frontier fell back. */
  lemma FrontierFalls(chunks: seq<Chunk>, readPos: nat, file: seq<Byte>, k: nat)
    requires |chunks| <= MAX_CHUNKS && k < MAX_CHUNKS && LastBeyond(chunks, readPos, k)
    requires !GateOpen(chunks, readPos, |file|)
    requires !GateOpen(Prefetched(chunks, readPos, file), readPos, |file|)
    ensures var r := Prefetched(chunks, readPos, file);
            && Frontier(r, readPos) < Frontier(chunks, readPos)
            && |r| <= MAX_CHUNKS && LastBeyond(r, readPos, k + 1)
  {
    var e := Frontier(chunks, readPos);
    var bytes := file[e..WindowEnd(e, |file|)];
    InsertedIsLast(chunks, e, bytes);
    var r := Inserted(chunks, e, bytes);
    FrontierPast(r, readPos, e, WindowEnd(e, |file|));
    if |chunks| < MAX_CHUNKS {
      NoFrontierLoss(chunks, r, readPos);
      assert false;
    }
  }

  /** The frontier stops before a covered stretch or runs past it. */
  lemma FrontierPast(chunks: seq<Chunk>, pos: nat, lo: nat, hi: nat)
    requires forall o: nat | lo <= o < hi :: Covered(chunks, o)
    ensures Frontier(chunks, pos) < lo || Frontier(chunks, pos) >= hi
  {
    assert !Covered(chunks, Frontier(chunks, pos));
  }

  lemma NoFrontierLoss(chunks: seq<Chunk>, more: seq<Chunk>, pos: nat)
    requires chunks <= more
    ensures Frontier(more, pos) >= Frontier(chunks, pos)
  {
    forall o: nat | pos <= o < Frontier(chunks, pos) ensures Covered(more, o) {
      assert Covered(chunks, o);
      var i :| 0 <= i < |chunks| && chunks[i].Covers(o);
      assert more[i].Covers(o);
    }
    FrontierPast(more, pos, pos, Frontier(chunks, pos));
  }

  /** With only later windows cached the cursor itself is uncovered; fetching there opens the gate. */
  lemma FetchAtCursorOpens(chunks: seq<Chunk>, readPos: nat, file: seq<Byte>)
    requires |chunks| == MAX_CHUNKS && LastBeyond(chunks, readPos, MAX_CHUNKS)
    requires !GateOpen(chunks, readPos, |file|)
    ensures GateOpen(Prefetched(chunks, readPos, file), readPos, |file|)
  {
    var e := Frontier(chunks, readPos);
    assert !Covered(chunks, readPos);
    assert e == readPos;
    InsertedIsLast(chunks, e, file[e..WindowEnd(e, |file|)]);
    FrontierPast(Prefetched(chunks, readPos, file), readPos, e, WindowEnd(e, |file|));
  }

  lemma {:induction false} GateOpensFrom(chunks: seq<Chunk>, readPos: nat, file: seq<Byte>, k: nat)
    requires |chunks| <= MAX_CHUNKS && k <= MAX_CHUNKS && LastBeyond(chunks, readPos, k)
    ensures OpensWithin(chunks, readPos, file, MAX_CHUNKS + 1 - k)
    decreases MAX_CHUNKS - k
  {
    var next := Prefetched(chunks, readPos, file);
    if GateOpen(chunks, readPos, |file|) {
    } else if GateOpen(next, readPos, |file|) {
      assert OpensWithin(next, readPos, file, MAX_CHUNKS - k);
    } else if k == MAX_CHUNKS {
      FetchAtCursorOpens(chunks, readPos, file);
      assert false;
    } else {
      FrontierFalls(chunks, readPos, file, k);
      GateOpensFrom(next, readPos, file, k + 1);
    }
  }

  /**
   * No deadlock between the gate and the prefetcher: with the cursor standing still, whatever is cached
   * and however badly FIFO eviction strikes, `MAX_CHUNKS + 1` completed prefetches open the gate.
   */
  lemma GateOpens(chunks: seq<Chunk>, readPos: nat, file: seq<Byte>)
    requires |chunks| <= MAX_CHUNKS
    ensures OpensWithin(chunks, readPos, file, MAX_CHUNKS + 1)
  {
    GateOpensFrom(chunks, readPos, file, 0);
  }

  lemma ShutGateNeedsOne(chunks: seq<Chunk>, readPos: nat, file: seq<Byte>, n: nat)
    requires OpensWithin(chunks, readPos, file, n) && !GateOpen(chunks, readPos, |file|)
    ensures n > 0 && OpensWithin(Prefetched(chunks, readPos, file), readPos, file, n - 1)
  {
  }

  /** While the gate is shut the prefetcher never declines to fetch. */
  lemma ShutGateFetches(chunks: seq<Chunk>, readPos: nat, total: nat)
    requires !GateOpen(chunks, readPos, total)
    ensures PrefetchStart(chunks, readPos, total) == Some(Frontier(chunks, readPos))
  {
    assert Ahead(chunks, readPos) < FILL_GATE_MARGIN < PREFETCH_AHEAD;
  }

  // ---------------------------------------------------------------- the bound is exact

  function Slice(file: seq<Byte>, base: nat, end: nat): Chunk
    requires base <= end <= |file|
  {
    Chunk(base, file[base..end])
  }

  /** Twelve windows, oldest first: one byte each for what the next prefetches evict, then the `k` prefetched ones. */
  ghost function Adversary(file: seq<Byte>, k: nat): (r: seq<Chunk>)
    requires k <= MAX_CHUNKS && |file| > MAX_CHUNKS + WINDOW
    ensures |r| == MAX_CHUNKS
  {
    seq(MAX_CHUNKS, i requires 0 <= i < MAX_CHUNKS => AdversaryAt(file, k + i))
  }

  /** The oldest window still there after `n` evictions. */
  ghost function AdversaryAt(file: seq<Byte>, n: nat): Chunk
    requires n < 2 * MAX_CHUNKS && |file| > MAX_CHUNKS + WINDOW
  {
    if n < MAX_CHUNKS then Slice(file, MAX_CHUNKS - 1 - n, MAX_CHUNKS - n)
    else Slice(file, 2 * MAX_CHUNKS - n, WindowEnd(2 * MAX_CHUNKS - n, |file|))
  }

  lemma AdversaryFrontier(file: seq<Byte>, k: nat)
    requires k <= MAX_CHUNKS && |file| > MAX_CHUNKS + WINDOW
    ensures Frontier(Adversary(file, k), 0) == MAX_CHUNKS - k
  {
    var chunks := Adversary(file, k);
    forall o: nat | o < MAX_CHUNKS - k ensures Covered(chunks, o) {
      assert chunks[MAX_CHUNKS - 1 - k - o] == AdversaryAt(file, MAX_CHUNKS - 1 - o);
      assert chunks[MAX_CHUNKS - 1 - k - o].Covers(o);
    }
    forall i | 0 <= i < |chunks| ensures !chunks[i].Covers(MAX_CHUNKS - k) {
      assert chunks[i] == AdversaryAt(file, k + i);
    }
    FrontierUnique(chunks, 0, MAX_CHUNKS - k);
  }

  /** The oldest window goes, and the one prefetched at the frontier comes. */
  lemma AdversaryPrefetched(file: seq<Byte>, k: nat)
    requires k < MAX_CHUNKS && |file| > MAX_CHUNKS + WINDOW
    ensures var e := MAX_CHUNKS - k;
      Prefetched(Adversary(file, k), 0, file) == Adversary(file, k)[1..] + [Slice(file, e, WindowEnd(e, |file|))]
  {
    AdversaryFrontier(file, k);
    var e, chunks := MAX_CHUNKS - k, Adversary(file, k);
    InsertedIsLast(chunks, e, file[e..WindowEnd(e, |file|)]);
  }

  lemma AdversaryNext(file: seq<Byte>, k: nat, i: nat)
    requires k < MAX_CHUNKS && |file| > MAX_CHUNKS + WINDOW && i < MAX_CHUNKS
    ensures var e := MAX_CHUNKS - k;
      Adversary(file, k + 1)[i] == if i + 1 < MAX_CHUNKS then Adversary(file, k)[i + 1]
          else Slice(file, e, WindowEnd(e, |file|))
  {
    assert Adversary(file, k + 1)[i] == AdversaryAt(file, k + 1 + i);
    if i + 1 < MAX_CHUNKS {
      assert Adversary(file, k)[i + 1] == AdversaryAt(file, k + (i + 1));
    } else {
      assert k + 1 + i == 2 * MAX_CHUNKS - (MAX_CHUNKS - k);
    }
  }

  lemma AdversaryStep(file: seq<Byte>, k: nat)
    requires k < MAX_CHUNKS && |file| > MAX_CHUNKS + WINDOW
    ensures Prefetched(Adversary(file, k), 0, file) == Adversary(file, k + 1)
  {
    var e := MAX_CHUNKS - k;
    AdversaryPrefetched(file, k);
    var next := Adversary(file, k)[1..] + [Slice(file, e, WindowEnd(e, |file|))];
    forall i | 0 <= i < MAX_CHUNKS ensures next[i] == Adversary(file, k + 1)[i] { AdversaryNext(file, k, i); }
    assert next == Adversary(file, k + 1);
  }

  lemma AdversaryAgrees(file: seq<Byte>, k: nat)
    requires k <= MAX_CHUNKS && |file| > MAX_CHUNKS + WINDOW
    ensures AllAgree(file, Adversary(file, k))
  {
    forall i | 0 <= i < MAX_CHUNKS ensures Agrees(file, Adversary(file, k)[i]) {
      assert Adversary(file, k)[i] == AdversaryAt(file, k + i);
    }
  }

  lemma AdversaryShut(file: seq<Byte>, k: nat)
    requires k <= MAX_CHUNKS && |file| > MAX_CHUNKS + WINDOW
    ensures !GateOpen(Adversary(file, k), 0, |file|)
  {
    AdversaryFrontier(file, k);
  }

  lemma {:induction false} AdversaryNeverOpens(file: seq<Byte>, k: nat)
    requires k <= MAX_CHUNKS && |file| > MAX_CHUNKS + WINDOW
    ensures !OpensWithin(Adversary(file, k), 0, file, MAX_CHUNKS - k)
    decreases MAX_CHUNKS - k
  {
    AdversaryShut(file, k);
    if k < MAX_CHUNKS {
      AdversaryStep(file, k);
      AdversaryNeverOpens(file, k + 1);
    }
  }

  /** There is a cache, and a file, for which `MAX_CHUNKS` prefetches are not enough. */
  lemma BoundIsExact(file: seq<Byte>) returns (chunks: seq<Chunk>)
    requires |file| > MAX_CHUNKS + WINDOW
    ensures |chunks| == MAX_CHUNKS && AllAgree(file, chunks)
    ensures !OpensWithin(chunks, 0, file, MAX_CHUNKS)
  {
    chunks := Adversary(file, 0);
    AdversaryAgrees(file, 0);
    AdversaryNeverOpens(file, 0);
  }
}
