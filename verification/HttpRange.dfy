/**
 * The `Read + Seek` over HTTP ranges and the asynchronous prefetch that shares its cache.
 *
 * The network is a parameter: `fetched` is what a blocking fetch brings (`None` for an error), and
 * `CompletePrefetch` is called when a spawned fetch ends. Whatever comes back is taken to be part of
 * the file, at the offset it was asked for, but it may be shorter than asked for.
 */
module HttpRange {
  import opened Options
  import opened Bytes
  import opened Machine
  import opened RangeCache

  datatype ReadResult = Data(bytes: seq<Byte>) | WouldBlock | Failed

  datatype SeekFrom = Start(n: nat) | Current(d: int) | End(d: int)

  /** The position asked for. */
  function Asked(from: SeekFrom, pos: nat, total: nat): int {
    match from
    case Start(n) => n
    case Current(d) => pos + d
    case End(d) => total + d
  }

  /** The position aimed at: every cast and every sum is a signed 64-bit one. */
  function Aim(from: SeekFrom, pos: nat, total: nat): int {
    match from
    case Start(n) => Wrap64(n)
    case Current(d) => Wrap64(Wrap64(pos) + d)
    case End(d) => Wrap64(Wrap64(total) + d)
  }

  lemma WrapSum(x: int, d: int)
    ensures Wrap64(Wrap64(x) + d) == Wrap64(x + d)
  {
    var k := (x + TWO_63) / TWO_64;
    assert Wrap64(x) == x - k * TWO_64;
    WrapShift(x + d, k);
  }

  /** A seek aims where it is asked to exactly if that is a signed 64-bit number. */
  lemma AimIsAskedIff(from: SeekFrom, pos: nat, total: nat)
    ensures Aim(from, pos, total) == Asked(from, pos, total) <==> -TWO_63 <= Asked(from, pos, total) < TWO_63
  {
    match from
    case Start(n) =>
    case Current(d) => WrapSum(pos, d);
    case End(d) => WrapSum(total, d);
  }

  /** `bytes` is what the file holds from `at` on, as far as it goes. */
  ghost predicate Answers(file: seq<Byte>, at: nat, bytes: seq<Byte>) {
    bytes == [] || (at + |bytes| <= |file| && bytes == file[at..at + |bytes|])
  }

  class ReaderShared {
    var chunks: seq<Chunk>
    var readPos: nat
    var inflight: bool
    var streaming: bool
    var blockingFetches: nat
    var prefetches: nat
    const totalLen: nat
    ghost const file: seq<Byte>

    ghost predicate Valid()
      reads this
    {
      totalLen == |file| && |chunks| <= MAX_CHUNKS && AllAgree(file, chunks)
    }

    constructor (total: nat, ghost file: seq<Byte>)
      requires total == |file|
      ensures Valid() && this.file == file && chunks == [] && readPos == 0 && !inflight && !streaming
    {
      chunks, readPos, inflight, streaming := [], 0, false, false;
      blockingFetches, prefetches := 0, 0;
      totalLen := total;
      this.file := file;
    }

    method MarkStreaming()
      modifies this`streaming
      ensures streaming
    {
      streaming := true;
    }

    /** Contiguous bytes ahead of the cursor, and whether they reach the end of the file. */
    method ReadyAhead() returns (ahead: nat, atEof: bool)
      ensures ahead == Ahead(chunks, readPos) && atEof == AtEof(chunks, readPos, totalLen)
    {
      var end := ContiguousEnd(chunks, readPos);
      atEof := readPos >= totalLen || end >= totalLen;
      ahead := end - readPos;
    }

    /** The gate of `fill_queues`: may the demuxer pull a packet now? */
    method MayPull() returns (open: bool)
      ensures open == GateOpen(chunks, readPos, totalLen)
    {
      var ahead, atEof := ReadyAhead();
      open := atEof || ahead >= FILL_GATE_MARGIN;
    }

    method InsertAndEvict(base: nat, bytes: seq<Byte>)
      requires Valid() && Answers(file, base, bytes)
      modifies this`chunks
      ensures Valid() && chunks == Inserted(old(chunks), base, bytes)
    {
      if bytes == [] {
        return;
      }
      var first := ChunkCovering(chunks, base);
      var last := ChunkCovering(chunks, base + |bytes| - 1);
      if first.Some? && last.Some? {
        return;
      }
      ghost var more := chunks + [Chunk(base, bytes)];
      InsertedAgrees(file, chunks, base, bytes);
      chunks := chunks + [Chunk(base, bytes)];
      while |chunks| > MAX_CHUNKS
        invariant MAX_CHUNKS <= |more| <= MAX_CHUNKS + 1 ==> MAX_CHUNKS <= |chunks| <= |more|
        invariant chunks == more[|more| - |chunks|..] && (|more| < MAX_CHUNKS ==> chunks == more)
      {
        chunks := chunks[1..];
      }
    }

    /** Ask for the next window, unless one is on its way or the cache reaches far enough. */
    method DrivePrefetch() returns (start: Option<nat>)
      modifies this`inflight
      ensures start == if old(inflight) then None else PrefetchStart(chunks, readPos, totalLen)
      ensures inflight == (old(inflight) || start.Some?)
    {
      start := None;
      if inflight {
        return;
      }
      var end := ContiguousEnd(chunks, readPos);
      if end >= totalLen || end - readPos >= PREFETCH_AHEAD {
        return;
      }
      inflight := true;
      start := Some(end);
    }

    /** The spawned fetch of the window at `start` ended. */
    method CompletePrefetch(start: nat, res: Option<seq<Byte>>)
      requires Valid() && (res.Some? ==> Answers(file, start, res.value))
      modifies this`chunks, this`inflight, this`prefetches
      ensures Valid() && !inflight && prefetches == old(prefetches) + 1
      ensures chunks == if res.Some? then Inserted(old(chunks), start, res.value) else old(chunks)
    {
      prefetches := prefetches + 1;
      if res.Some? {
        InsertAndEvict(start, res.value);
      }
      inflight := false;
    }

    /** One tick that starts a fetch, and its completion. */
    method TickPrefetch(server: (nat, nat) -> seq<Byte>)
      requires Valid() && !inflight && PrefetchStart(chunks, readPos, totalLen).Some?
      requires forall start: nat, end: nat | start <= end <= totalLen :: server(start, end) == file[start..end]
      modifies this`chunks, this`inflight, this`prefetches
      ensures Valid() && !inflight && prefetches == old(prefetches) + 1
      ensures chunks == Prefetched(old(chunks), readPos, file)
    {
      var start := DrivePrefetch();
      CompletePrefetch(start.value, Some(server(start.value, WindowEnd(start.value, totalLen))));
    }

    /**
     * The ticks of the player while nothing is read, against a server that delivers what is asked for:
     * the demux gate opens after at most `MAX_CHUNKS + 1` completed fetches.
     */
    method TickUntilOpen(server: (nat, nat) -> seq<Byte>) returns (fetches: nat)
      requires Valid() && !inflight
      requires forall start: nat, end: nat | start <= end <= totalLen :: server(start, end) == file[start..end]
      modifies this`chunks, this`inflight, this`prefetches
      ensures Valid() && GateOpen(chunks, readPos, totalLen)
      ensures fetches <= MAX_CHUNKS + 1 && prefetches == old(prefetches) + fetches
    {
      ghost var n := MAX_CHUNKS + 1;
      GateOpens(chunks, readPos, file);
      fetches := 0;
      var open := MayPull();
      while !open
        invariant Valid() && !inflight && fetches <= n
        invariant open == GateOpen(chunks, readPos, |file|)
        invariant OpensWithin(chunks, readPos, file, n - fetches)
        invariant prefetches == old(prefetches) + fetches
        decreases n - fetches
      {
        ShutGateFetches(chunks, readPos, |file|);
        ShutGateNeedsOne(chunks, readPos, file, n - fetches);
        TickPrefetch(server);
        fetches := fetches + 1;
        open := MayPull();
      }
    }
  }

  class HttpRangeReader {
    const shared: ReaderShared
    /** Local-file mode: misses are served from disk. */
    const local: bool
    var pos: nat

    ghost predicate Valid()
      reads this, shared
    {
      shared.Valid()
    }

    constructor (shared: ReaderShared, local: bool)
      requires shared.Valid()
      ensures Valid() && this.shared == shared && this.local == local && pos == 0
    {
      this.shared, this.local, pos := shared, local, 0;
    }

    /** Fill the cache at `at`, from disk or from the network. */
    method BlockFetch(at: nat, fetched: Option<seq<Byte>>) returns (ok: bool)
      requires Valid() && (fetched.Some? ==> Answers(shared.file, at, fetched.value))
      modifies shared`chunks, shared`blockingFetches
      ensures Valid() && ok == fetched.Some?
      ensures shared.chunks == if ok then Inserted(old(shared.chunks), at, fetched.value) else old(shared.chunks)
    {
      shared.blockingFetches := shared.blockingFetches + 1;
      if fetched.Some? {
        shared.InsertAndEvict(at, fetched.value);
      }
      ok := fetched.Some?;
    }

    /**
     * Read up to `n` bytes. `fetched` is the answer to the one blocking fetch a miss may cause.
     */
    method Read(n: nat, fetched: Option<seq<Byte>>) returns (r: ReadResult)
      requires Valid()
      requires fetched.Some? ==> Answers(shared.file, pos, fetched.value)
      modifies this`pos, shared`chunks, shared`readPos, shared`blockingFetches
      ensures Valid()
      // what is delivered is the file, from where the reader stood
      ensures r.Data? ==> pos == old(pos) + |r.bytes| && |r.bytes| <= n && Answers(shared.file, old(pos), r.bytes)
      ensures r.Data? ==> (r.bytes == [] <==> n == 0 || old(pos) >= shared.totalLen)
      // a read that delivers nothing leaves the position alone
      ensures !r.Data? ==> pos == old(pos)
      // it is refused only on a miss, while streaming from the network
      ensures r.WouldBlock? <==> n > 0 && old(pos) < shared.totalLen && !Covered(old(shared.chunks), old(pos))
                                 && shared.streaming && !local
      // a hit neither fetches nor disturbs the cache
      ensures Covered(old(shared.chunks), old(pos)) || r.WouldBlock? || (r.Data? && r.bytes == []) ==>
                shared.chunks == old(shared.chunks) && shared.blockingFetches == old(shared.blockingFetches)
      ensures n > 0 && old(pos) < shared.totalLen ==> shared.readPos == old(pos)
      ensures r.Failed? ==> !Covered(old(shared.chunks), old(pos)) && (fetched.None? || fetched.value == [])
    {
      if pos >= shared.totalLen || n == 0 {
        return Data([]);
      }
      shared.readPos := pos;
      var hit := ChunkCovering(shared.chunks, pos);
      if hit.None? {
        var blockOk := local || !shared.streaming;
        if !blockOk {
          return WouldBlock;
        }
        var ok := BlockFetch(pos, fetched);
        if !ok {
          return Failed;
        }
        if fetched.value != [] {
          InsertedIsLast(old(shared.chunks), pos, fetched.value);
          assert Covered(shared.chunks, pos);
        }
      }
      r := Serve(n);
    }

    /** Copy from the first window that covers the position. */
    method Serve(n: nat) returns (r: ReadResult)
      requires Valid() && n > 0
      modifies this`pos
      ensures r.Failed? <==> !Covered(shared.chunks, old(pos))
      ensures r.Failed? ==> pos == old(pos)
      ensures !r.Failed? ==> r.Data? && pos == old(pos) + |r.bytes| && 0 < |r.bytes| <= n
      ensures !r.Failed? ==> Answers(shared.file, old(pos), r.bytes)
    {
      var idx := ChunkCovering(shared.chunks, pos);
      if idx.None? {
        return Failed;
      }
      var chunk := shared.chunks[idx.value];
      assert Agrees(shared.file, chunk);
      var off := pos - chunk.base;
      var k := if |chunk.data| - off < n then |chunk.data| - off else n;
      r := Data(chunk.data[off..off + k]);
      pos := pos + k;
    }

    method Seek(from: SeekFrom) returns (r: Option<nat>)
      modifies this`pos
      ensures var np := Aim(from, old(pos), shared.totalLen);
              if np < 0 then r == None && pos == old(pos) else r == Some(pos) && pos == np
      // within the signed range, that is the position asked for
      ensures var np := Asked(from, old(pos), shared.totalLen);
              -TWO_63 <= np < TWO_63 ==> r == if np < 0 then None else Some(np)
    {
      AimIsAskedIff(from, pos, shared.totalLen);
      var np := match from
        case Start(n) => Wrap64(n)
        case Current(d) => Wrap64(Wrap64(pos) + d)
        case End(d) => Wrap64(Wrap64(shared.totalLen) + d);
      if np < 0 {
        return None;
      }
      pos := np;
      r := Some(pos);
    }

    /** Successful reads, put end to end, are the file from the starting position on. */
    method ReadOn(sizes: seq<nat>, server: (nat, nat) -> seq<Byte>) returns (bytes: seq<Byte>)
      requires Valid() && pos <= shared.totalLen
      requires forall start: nat, end: nat | start <= end <= shared.totalLen ::
               server(start, end) == shared.file[start..end]
      modifies this`pos, shared`chunks, shared`readPos, shared`blockingFetches
      ensures Valid() && pos == old(pos) + |bytes| && Answers(shared.file, old(pos), bytes)
    {
      bytes := [];
      for i := 0 to |sizes|
        invariant Valid() && pos <= shared.totalLen
        invariant pos == old(pos) + |bytes| && Answers(shared.file, old(pos), bytes)
      {
        var r := Read(sizes[i], Some(server(pos, WindowEnd(pos, shared.totalLen))));
        if !r.Data? {
          return;
        }
        bytes := bytes + r.bytes;
      }
    }

    /**
     * Soundness of the gate: while streaming, `want` bytes that the cache reaches contiguously are
     * delivered in full, without a refusal, a fetch or a change of the cache.
     */
    method ReadExact(want: nat) returns (bytes: seq<Byte>)
      requires Valid() && shared.streaming && !local
      requires pos + want <= Frontier(shared.chunks, pos)
      modifies this`pos, shared`chunks, shared`readPos, shared`blockingFetches
      ensures Valid() && |bytes| == want && pos == old(pos) + want && Answers(shared.file, old(pos), bytes)
      ensures shared.chunks == old(shared.chunks) && shared.blockingFetches == old(shared.blockingFetches)
    {
      bytes := [];
      while |bytes| < want
        invariant Valid() && pos == old(pos) + |bytes| && |bytes| <= want && Answers(shared.file, old(pos), bytes)
        invariant shared.chunks == old(shared.chunks) && shared.blockingFetches == old(shared.blockingFetches)
        decreases want - |bytes|
      {
        assert Covered(shared.chunks, pos);
        CoveredInFile(shared.file, shared.chunks, pos);
        var r := Read(want - |bytes|, None);
        bytes := bytes + r.bytes;
      }
    }
  }

  lemma CoveredInFile(file: seq<Byte>, chunks: seq<Chunk>, off: nat)
    requires AllAgree(file, chunks) && Covered(chunks, off)
    ensures off < |file|
  {
    var i :| 0 <= i < |chunks| && chunks[i].Covers(off);
    assert Agrees(file, chunks[i]);
  }
}
