/**
 * MP4 sample tables: run-length tables expanded, and samples placed in their chunks. Sections 8.6.1 and 8.7.4 of
 * ISO/IEC 14496-12.
 */
module Mp4Tables {
  import opened Options
  import opened Bytes
  import opened Machine

  function Be32(b: seq<Byte>, i: nat): nat
    requires i + 4 <= |b|
  {
    Fold(0, b[i..i + 4])
  }

  /** `raw as i32`. */
  function Signed32(raw: nat): int {
    if raw % TWO_32 >= 0x8000_0000 then raw % TWO_32 - TWO_32 else raw % TWO_32
  }

  datatype Run = Run(count: nat, value: int)

  /** The entries that are really there: at most `count`, and none past the box's end. */
  function Runs(b: seq<Byte>, i: nat, e: nat, count: nat, width: nat, signed: bool): seq<Run>
    requires e <= |b| && width >= 8
    decreases count
  {
    if count == 0 || i + width > e then []
    else [Run(Be32(b, i), if signed then Signed32(Be32(b, i + 4)) else Be32(b, i + 4))] +
         Runs(b, i + width, e, count - 1, width, signed)
  }

  // ---------------------------------------------------------------- run-length tables

  /** The value the runs give entry `k`; zero past their end. */
  function ValueAt(runs: seq<Run>, k: nat): int {
    if runs == [] then 0
    else if k < runs[0].count then runs[0].value
    else ValueAt(runs[1..], k - runs[0].count)
  }

  /** The values before entry `k`, added up. */
  function TimeAt(runs: seq<Run>, k: nat): int { if k == 0 then 0 else TimeAt(runs, k - 1) + ValueAt(runs, k - 1) }

  /** From entry `at` on, `runs` go like `rest`. */
  ghost predicate Aligned(runs: seq<Run>, at: nat, rest: seq<Run>) {
    forall k: nat | k >= at :: ValueAt(runs, k) == ValueAt(rest, k - at)
  }

  lemma ValueCons(c: nat, v: int, rest: seq<Run>, k: nat)
    ensures ValueAt([Run(c, v)] + rest, k) == if k < c then v else ValueAt(rest, k - c)
  {
    assert ([Run(c, v)] + rest)[1..] == rest;
  }

  lemma AlignedSkip(runs: seq<Run>, at: nat, v: int, rest: seq<Run>)
    requires Aligned(runs, at, [Run(0, v)] + rest)
    ensures Aligned(runs, at, rest)
  {
    forall k: nat | k >= at ensures ValueAt(runs, k) == ValueAt(rest, k - at) {
      ValueCons(0, v, rest, k - at);
    }
  }

  lemma AlignedTake(runs: seq<Run>, at: nat, c: nat, v: int, rest: seq<Run>)
    requires Aligned(runs, at, [Run(c, v)] + rest) && c > 0
    ensures ValueAt(runs, at) == v && Aligned(runs, at + 1, [Run(c - 1, v)] + rest)
  {
    ValueCons(c, v, rest, 0);
    forall k: nat | k >= at + 1 ensures ValueAt(runs, k) == ValueAt([Run(c - 1, v)] + rest, k - at - 1) {
      ValueCons(c, v, rest, k - at);
      ValueCons(c - 1, v, rest, k - at - 1);
    }
  }

  lemma AlignedEnd(runs: seq<Run>, at: nat)
    requires Aligned(runs, at, [])
    ensures ValueAt(runs, at) == 0 && Aligned(runs, at + 1, [])
  {
    forall k: nat | k >= at ensures ValueAt(runs, k) == 0 {}
  }

  /** What an expansion of the runs has so far, up to the `n` entries that will be used. */
  ghost predicate Expanded(runs: seq<Run>, out: seq<int>, n: nat, times: bool) {
    forall k | 0 <= k < |out| && k < n :: out[k] == if times then TimeAt(runs, k) else ValueAt(runs, k)
  }

  /** Where an expansion stands: with entries to go, `rest` is what is left of the runs, and `t` the time so far. */
  ghost predicate Standing(runs: seq<Run>, out: seq<int>, n: nat, rest: seq<Run>, t: int, times: bool) {
    Expanded(runs, out, n, times) && (|out| < n ==> Aligned(runs, |out|, rest) && (times ==> t == TimeAt(runs, |out|)))
  }

  lemma StandingNext(runs: seq<Run>, out: seq<int>, n: nat, c: nat, v: int, rest: seq<Run>, t: int, times: bool)
    requires Standing(runs, out, n, [Run(c, v)] + rest, t, times)
    ensures c == 0 ==> Standing(runs, out, n, rest, t, times)
    ensures c > 0 ==> Standing(runs, out + [if times then t else v], n, [Run(c - 1, v)] + rest, t + v, times)
  {
    if |out| < n {
      if c == 0 {
        AlignedSkip(runs, |out|, v, rest);
      } else {
        AlignedTake(runs, |out|, c, v, rest);
      }
    }
  }

  lemma StandingPad(runs: seq<Run>, out: seq<int>, n: nat, t: int, times: bool)
    requires Standing(runs, out, n, [], t, times) && |out| < n
    ensures Standing(runs, out + [if times then t else 0], n, [], t, times)
  {
    AlignedEnd(runs, |out|);
  }

  /**
   * A table of counted values, expanded to at least `n` entries: their sums (stts), or the values themselves (ctts).
   */
  method ExpandTable(b: seq<Byte>, s: nat, e: nat, n: nat, times: bool, signed: bool) returns (r: Option<seq<int>>)
    requires e <= |b|
    ensures r.None? <==> s + 8 > e
    ensures r.Some? ==> |r.value| >= n && Expanded(Runs(b, s + 8, e, Be32(b, s + 4), 8, signed), r.value, n, times)
  {
    if s + 8 > e {
      return None;
    }
    var count := Be32(b, s + 4);
    ghost var runs := Runs(b, s + 8, e, count, 8, signed);
    var out: seq<int>, t: int, i: nat, k: nat := [], 0, s + 8, 0;
    while k < count && i + 8 <= e
      invariant k <= count && Standing(runs, out, n, Runs(b, i, e, count - k, 8, signed), t, times)
      decreases count - k
    {
      var c := Be32(b, i);
      var v: int := if signed then Signed32(Be32(b, i + 4)) else Be32(b, i + 4);
      ghost var rest := Runs(b, i + 8, e, count - k - 1, 8, signed);
      i := i + 8;
      out, t := ExpandRun(runs, out, n, c, v, rest, t, times);
      k := k + 1;
    }
    while |out| < n
      invariant Standing(runs, out, n, [], t, times)
    {
      StandingPad(runs, out, n, t, times);
      out := out + [if times then t else 0];
    }
    r := Some(out);
  }

  /** One run: its entries, up to and including the one that reaches `n`. */
  method ExpandRun(ghost runs: seq<Run>, before: seq<int>, n: nat, c: nat, v: int, ghost rest: seq<Run>, start: int,
                   times: bool)
    returns (out: seq<int>, t: int)
    requires Standing(runs, before, n, [Run(c, v)] + rest, start, times)
    ensures Standing(runs, out, n, rest, t, times)
  {
    out, t := before, start;
    var j := 0;
    while j < c
      invariant j <= c && Standing(runs, out, n, [Run(c - j, v)] + rest, t, times)
    {
      StandingNext(runs, out, n, c - j, v, rest, t, times);
      out := out + [if times then t else v];
      t := t + v;
      j := j + 1;
      if |out| >= n {
        return;
      }
    }
    StandingNext(runs, out, n, 0, v, rest, t, times);
  }

  /** Decode times of at least `n` samples. */
  method ParseStts(b: seq<Byte>, s: nat, e: nat, n: nat) returns (r: Option<seq<int>>)
    requires e <= |b|
    ensures r.None? <==> s + 8 > e
    ensures r.Some? ==> |r.value| >= n && forall k: nat | k < n ::
            r.value[k] == TimeAt(Runs(b, s + 8, e, Be32(b, s + 4), 8, false), k)
  {
    r := ExpandTable(b, s, e, n, true, false);
  }

  /** Composition offsets of at least `n` samples; signed in version 1. */
  method ParseCtts(b: seq<Byte>, s: nat, e: nat, n: nat) returns (r: Option<seq<int>>)
    requires e <= |b|
    ensures r.None? <==> s + 8 > e
    ensures r.Some? ==> |r.value| >= n && forall k: nat | k < n ::
            r.value[k] == ValueAt(Runs(b, s + 8, e, Be32(b, s + 4), 8, b[s] == 1), k)
  {
    r := ExpandTable(b, s, e, n, false, s + 8 <= e && b[s] == 1);
  }

  /** Unsigned deltas never turn time back. */
  lemma {:induction false} TimeMono(b: seq<Byte>, i: nat, e: nat, count: nat, j: nat, k: nat)
    requires e <= |b| && j <= k
    ensures TimeAt(Runs(b, i, e, count, 8, false), j) <= TimeAt(Runs(b, i, e, count, 8, false), k)
    decreases k
  {
    if j < k {
      TimeMono(b, i, e, count, j, k - 1);
      ValueNonNegative(b, i, e, count, k - 1);
    }
  }

  /** They are 32-bit numbers. */
  lemma {:induction false} ValueBelow(b: seq<Byte>, i: nat, e: nat, count: nat, k: nat)
    requires e <= |b|
    ensures ValueAt(Runs(b, i, e, count, 8, false), k) < TWO_32
    decreases count
  {
    if count > 0 && i + 8 <= e {
      var runs, rest := Runs(b, i, e, count, 8, false), Runs(b, i + 8, e, count - 1, 8, false);
      assert runs[1..] == rest;
      FourBytesBelow(b[i + 4..i + 8]);
      if k >= runs[0].count {
        ValueBelow(b, i + 8, e, count - 1, k - runs[0].count);
      }
    }
  }

  lemma FourBytesBelow(bs: seq<Byte>)
    requires |bs| == 4
    ensures Fold(0, bs) < TWO_32
  {
    assert bs == [bs[0], bs[1], bs[2], bs[3]];
    FoldFour(bs[0], bs[1], bs[2], bs[3]);
  }

  lemma {:induction false} ValueNonNegative(b: seq<Byte>, i: nat, e: nat, count: nat, k: nat)
    requires e <= |b|
    ensures ValueAt(Runs(b, i, e, count, 8, false), k) >= 0
    decreases count
  {
    var runs := Runs(b, i, e, count, 8, false);
    if runs != [] && k >= runs[0].count {
      assert runs[1..] == Runs(b, i + 8, e, count - 1, 8, false);
      ValueNonNegative(b, i + 8, e, count - 1, k - runs[0].count);
    }
  }

  // ---------------------------------------------------------------- tables written and read back

  /** A run's fields fit in 32 bits. */
  predicate RunFits(run: Run, signed: bool) {
    run.count < TWO_32 && if signed then -0x8000_0000 <= run.value < 0x8000_0000 else 0 <= run.value < TWO_32
  }

  /** An entry: count, value, and `pad` for what other fields it has. */
  function EntryBytes(run: Run, pad: seq<Byte>): seq<Byte> {
    BigEndian(run.count, 4) + BigEndian(run.value % TWO_32, 4) + pad
  }

  function TableBytes(runs: seq<Run>, pad: seq<Byte>): seq<Byte> {
    if runs == [] then [] else EntryBytes(runs[0], pad) + TableBytes(runs[1..], pad)
  }

  lemma EntryRead(b: seq<Byte>, i: nat, run: Run, pad: seq<Byte>, signed: bool, rest: seq<Byte>)
    requires i <= |b| && b[i..] == EntryBytes(run, pad) + rest && RunFits(run, signed)
    ensures i + 8 + |pad| <= |b| && b[i + 8 + |pad|..] == rest && Be32(b, i) == run.count
    ensures (if signed then Signed32(Be32(b, i + 4)) else Be32(b, i + 4)) == run.value
  {
    var raw: nat := run.value % TWO_32;
    var tail := b[i..];
    assert b[i..i + 4] == tail[..4] == BigEndian(run.count, 4);
    assert b[i + 4..i + 8] == tail[4..8] == BigEndian(raw, 4);
    assert b[i + 8 + |pad|..] == tail[8 + |pad|..] == rest;
    assert Pow256(4) == TWO_32;
    FoldBigEndian(0, run.count, 4);
    FoldBigEndian(0, raw, 4);
  }

  /** The entries of a table that was written are read back, whatever comes after it. */
  lemma {:induction false} TableReadBack(b: seq<Byte>, i: nat, e: nat, runs: seq<Run>, pad: seq<Byte>, signed: bool,
                                         after: seq<Byte>)
    requires (forall r | r in runs :: RunFits(r, signed)) && i <= |b| && b[i..] == TableBytes(runs, pad) + after
    requires i + |TableBytes(runs, pad)| <= e <= |b|
    ensures Runs(b, i, e, |runs|, 8 + |pad|, signed) == runs
    decreases |runs|
  {
    if runs != [] {
      var rest := TableBytes(runs[1..], pad);
      assert b[i..] == EntryBytes(runs[0], pad) + (rest + after);
      EntryRead(b, i, runs[0], pad, signed, rest + after);
      TableReadBack(b, i + 8 + |pad|, e, runs[1..], pad, signed, after);
      assert runs == [runs[0]] + runs[1..];
    }
  }

  /** Every run's value, as often as it counts. */
  function Unrolled(runs: seq<Run>): seq<int> {
    if runs == [] then [] else seq(runs[0].count, _ => runs[0].value) + Unrolled(runs[1..])
  }

  /** The value of an entry is the one at its place when the runs are written out; past them there is none. */
  lemma {:induction false} ValueIsUnrolled(runs: seq<Run>, k: nat)
    ensures ValueAt(runs, k) == if k < |Unrolled(runs)| then Unrolled(runs)[k] else 0
    decreases |runs|
  {
    if runs != [] && k >= runs[0].count {
      ValueIsUnrolled(runs[1..], k - runs[0].count);
    }
  }

  // ---------------------------------------------------------------- samples per chunk

  /** `first.saturating_sub(1)`. */
  function Start(run: Run): nat { if run.count > 0 then run.count - 1 else 0 }

  /**
   * Where run `r` ends: at the next one's start, the last one at the last chunk. Here a run's `count` is its first
   * chunk.
   */
  function End(runs: seq<Run>, r: nat, chunks: nat): nat
    requires r < |runs|
  {
    if r + 1 < |runs| && Start(runs[r + 1]) < chunks then Start(runs[r + 1]) else chunks
  }

  predicate InRun(runs: seq<Run>, r: nat, chunks: nat, c: nat)
    requires r < |runs|
  {
    Start(runs[r]) <= c < End(runs, r, chunks)
  }

  /** Chunk `c`'s samples: of the first `upTo` runs, the last that covers it. */
  function SamplesIn(runs: seq<Run>, upTo: nat, chunks: nat, c: nat): int
    requires upTo <= |runs|
  {
    if upTo == 0 then 0
    else if InRun(runs, upTo - 1, chunks, c) then runs[upTo - 1].value
    else SamplesIn(runs, upTo - 1, chunks, c)
  }

  /** The runs as the standard has them: the first starts at chunk one, and each starts after the one before. */
  predicate WellOrdered(runs: seq<Run>) {
    runs != [] && runs[0].count == 1 && forall i, j | 0 <= i < j < |runs| :: runs[i].count < runs[j].count
  }

  lemma OneRun(runs: seq<Run>, chunks: nat, q: nat, r: nat, c: nat)
    requires WellOrdered(runs) && q < r < |runs|
    ensures !(InRun(runs, q, chunks, c) && InRun(runs, r, chunks, c))
  {
    assert runs[0].count <= runs[q].count < runs[q + 1].count <= runs[r].count;
  }

  /** Well-ordered runs cut the chunks up: each chunk gets the value of the one run it is in. */
  lemma {:induction false} SamplesOfRun(runs: seq<Run>, upTo: nat, chunks: nat, r: nat, c: nat)
    requires WellOrdered(runs) && r < upTo <= |runs| && InRun(runs, r, chunks, c)
    ensures SamplesIn(runs, upTo, chunks, c) == runs[r].value
    ensures forall q | 0 <= q < |runs| && q != r :: !InRun(runs, q, chunks, c)
    decreases upTo
  {
    forall q | 0 <= q < |runs| && q != r ensures !InRun(runs, q, chunks, c) {
      OneRun(runs, chunks, if q < r then q else r, if q < r then r else q, c);
    }
    if r < upTo - 1 {
      SamplesOfRun(runs, upTo - 1, chunks, r, c);
    }
  }

  /** Chunks are numbered from one: a chunk has the value of the run that begins at or before it, the next after it. */
  lemma SamplesExactly(runs: seq<Run>, chunks: nat, r: nat, c: nat)
    requires WellOrdered(runs) && r < |runs| && c < chunks
    requires runs[r].count <= c + 1 && (r + 1 < |runs| ==> c + 1 < runs[r + 1].count)
    ensures SamplesIn(runs, |runs|, chunks, c) == runs[r].value
  {
    assert runs[0].count <= runs[r].count;
    SamplesOfRun(runs, |runs|, chunks, r, c);
  }

  /** And every chunk is in one. */
  lemma {:induction false} SomeRun(runs: seq<Run>, chunks: nat, c: nat, from: nat) returns (r: nat)
    requires WellOrdered(runs) && c < chunks && from < |runs| && Start(runs[from]) <= c
    ensures r < |runs| && InRun(runs, r, chunks, c)
    decreases |runs| - from
  {
    if InRun(runs, from, chunks, c) {
      r := from;
    } else {
      r := SomeRun(runs, chunks, c, from + 1);
    }
  }

  ghost predicate PerChunk(runs: seq<Run>, chunks: nat, spc: seq<int>) {
    |spc| == chunks && forall c: nat | c < chunks :: spc[c] == SamplesIn(runs, |runs|, chunks, c)
  }

  /** The samples of each chunk. */
  method ParseStsc(b: seq<Byte>, s: nat, e: nat, chunks: nat) returns (r: Option<seq<int>>)
    requires e <= |b|
    ensures r.None? <==> s + 8 > e || Runs(b, s + 8, e, Be32(b, s + 4), 12, false) == []
    ensures r.Some? ==> PerChunk(Runs(b, s + 8, e, Be32(b, s + 4), 12, false), chunks, r.value)
  {
    if s + 8 > e {
      return None;
    }
    var runs := ReadRuns(b, s + 8, e, Be32(b, s + 4));
    if runs == [] {
      return None;
    }
    var a := new int[chunks](_ => 0);
    var ri := 0;
    while ri < |runs|
      invariant ri <= |runs| && forall c: nat | c < chunks :: a[c] == SamplesIn(runs, ri, chunks, c)
    {
      var end := End(runs, ri, chunks);
      var c := Start(runs[ri]);
      while c < end
        invariant forall d: nat | d < chunks ::
          a[d] == if Start(runs[ri]) <= d < c && d < end then runs[ri].value else SamplesIn(runs, ri, chunks, d)
      {
        a[c] := runs[ri].value;
        c := c + 1;
      }
      ri := ri + 1;
    }
    r := Some(a[..]);
  }

  method ReadRuns(b: seq<Byte>, start: nat, e: nat, count: nat) returns (runs: seq<Run>)
    requires e <= |b|
    ensures runs == Runs(b, start, e, count, 12, false)
  {
    runs := [];
    var i: nat, k: nat := start, 0;
    while k < count && i + 12 <= e
      invariant k <= count && runs + Runs(b, i, e, count - k, 12, false) == Runs(b, start, e, count, 12, false)
      decreases count - k
    {
      var run := Run(Be32(b, i), Be32(b, i + 4));
      assert runs + ([run] + Runs(b, i + 12, e, count - k - 1, 12, false)) ==
          (runs + [run]) + Runs(b, i + 12, e, count - k - 1, 12, false);
      runs := runs + [run];
      i := i + 12;
      k := k + 1;
    }
    assert runs + [] == runs;
  }
}
