/** MP4 samples placed in their chunks, and one sample's NAL units as an Annex B access unit. */
module Mp4Samples {
  import opened Options
  import opened Bytes
  import opened Machine
  import opened Mp4Tables
  import opened Sequences

  datatype SampleRef = SampleRef(offset: nat, size: nat, ptsUs: int, dtsUs: int, isSync: bool)

  const US_PER_S := 1_000_000

  /** Ticks in microseconds; the product is a signed 64-bit one. */
  function TicksToUs(ticks: int, timescale: nat): int
    requires timescale > 0
  {
    TruncDiv(Wrap64(ticks * US_PER_S), timescale)
  }

  /** Ticks that have wrapped around come to the same: only the product's overflow shows. */
  lemma TicksWrap(ticks: int, timescale: nat)
    requires timescale > 0
    ensures TicksToUs(Wrap64(ticks), timescale) == TicksToUs(ticks, timescale)
  {
    var k := (ticks + TWO_63) / TWO_64;
    assert Wrap64(ticks) == ticks - k * TWO_64;
    assert Wrap64(ticks) * US_PER_S == ticks * US_PER_S - (k * US_PER_S) * TWO_64;
    WrapShift(ticks * US_PER_S, k * US_PER_S);
  }

  /** `us` are the microseconds of `ticks`, cut toward zero. */
  predicate Microseconds(us: int, ticks: int, timescale: nat) {
    if ticks >= 0 then us * timescale <= ticks * US_PER_S < (us + 1) * timescale
    else (us - 1) * timescale < ticks * US_PER_S <= us * timescale
  }

  /** Where the product fits, the microseconds are those of the ticks, cut toward zero. */
  lemma TicksExact(ticks: int, timescale: nat)
    requires timescale > 0 && -TWO_63 <= ticks * US_PER_S < TWO_63
    ensures Microseconds(TicksToUs(ticks, timescale), ticks, timescale)
  {
    WrapsNot(ticks * US_PER_S);
    var a := if ticks >= 0 then ticks * US_PER_S else -(ticks * US_PER_S);
    var q := a / timescale;
    assert q * timescale <= a < (q + 1) * timescale;
    assert (-q - 1) * timescale == -((q + 1) * timescale) && -q * timescale == -(q * timescale);
  }

  // ---------------------------------------------------------------- where a sample is

  predicate Counts(spc: seq<int>) { forall c | 0 <= c < |spc| :: spc[c] >= 0 }

  /** How many samples the first `c` chunks hold. */
  function Before(spc: seq<int>, c: nat): nat
    requires Counts(spc) && c <= |spc|
  {
    if c == 0 then 0 else Before(spc, c - 1) + spc[c - 1]
  }

  function Sum(sizes: seq<nat>, from: nat, end: nat): nat
    requires end <= |sizes|
    decreases end
  {
    if end <= from then 0 else Sum(sizes, from, end - 1) + sizes[end - 1]
  }

  predicate InChunk(spc: seq<int>, k: nat, c: nat)
    requires Counts(spc)
  {
    c < |spc| && Before(spc, c) <= k < Before(spc, c + 1)
  }

  /** What the tables say about the samples of a track. */
  datatype Tables = Tables(offsets: seq<nat>, spc: seq<int>, sizes: seq<nat>, dts: seq<int>, ctts: Option<seq<int>>,
                           sync: Option<set<nat>>, timescale: nat)

  predicate TablesOk(t: Tables) {
    && Counts(t.spc) && |t.spc| == |t.offsets| && |t.dts| >= |t.sizes| && t.timescale > 0
    && (t.ctts.Some? ==> |t.ctts.value| >= |t.sizes|)
  }

  /** Sample `k` in chunk `c`: at the chunk's offset plus the sizes of the chunk's samples before it. */
  function SampleAt(t: Tables, k: nat, c: nat): SampleRef
    requires TablesOk(t) && k < |t.sizes| && InChunk(t.spc, k, c)
  {
    SampleRef(t.offsets[c] + Sum(t.sizes, Before(t.spc, c), k), t.sizes[k],
              TicksToUs(t.dts[k] + (if t.ctts.Some? then t.ctts.value[k] else 0), t.timescale),
              TicksToUs(t.dts[k], t.timescale),
              t.sync.None? || k + 1 in t.sync.value)
  }

  /** `samples` are the first ones, each where its chunk puts it. */
  ghost predicate Placed(t: Tables, samples: seq<SampleRef>)
    requires TablesOk(t)
  {
    |samples| <= |t.sizes| &&
    forall k: nat, c: nat | k < |samples| && InChunk(t.spc, k, c) :: samples[k] == SampleAt(t, k, c)
  }

  lemma {:induction false} BeforeMono(spc: seq<int>, c: nat, d: nat)
    requires Counts(spc) && c <= d <= |spc|
    ensures Before(spc, c) <= Before(spc, d)
    decreases d
  {
    if c < d {
      BeforeMono(spc, c, d - 1);
    }
  }

  lemma ChunkUnique(spc: seq<int>, k: nat, c: nat, d: nat)
    requires Counts(spc) && InChunk(spc, k, c) && InChunk(spc, k, d)
    ensures c == d
  {
    if c + 1 <= d {
      BeforeMono(spc, c + 1, d);
    } else if d + 1 <= c {
      BeforeMono(spc, d + 1, c);
    }
  }

  /** Every sample within the chunks' total is in some chunk. */
  lemma {:induction false} SomeChunk(spc: seq<int>, k: nat, n: nat) returns (c: nat)
    requires Counts(spc) && n <= |spc| && k < Before(spc, n)
    ensures InChunk(spc, k, c)
    decreases n
  {
    if k >= Before(spc, n - 1) {
      c := n - 1;
    } else {
      c := SomeChunk(spc, k, n - 1);
    }
  }

  lemma PlacedNext(t: Tables, samples: seq<SampleRef>, c: nat)
    requires TablesOk(t) && Placed(t, samples) && |samples| < |t.sizes| && InChunk(t.spc, |samples|, c)
    ensures Placed(t, samples + [SampleAt(t, |samples|, c)])
  {
    var longer := samples + [SampleAt(t, |samples|, c)];
    forall k: nat, d: nat | k < |longer| && InChunk(t.spc, k, d) ensures longer[k] == SampleAt(t, k, d) {
      if k == |samples| {
        ChunkUnique(t.spc, k, c, d);
      }
    }
  }

  /** Walks the chunks: as many samples as there are sizes and as the chunks hold, each placed. */
  method PlaceSamples(t: Tables) returns (samples: seq<SampleRef>)
    requires TablesOk(t)
    ensures Placed(t, samples)
    ensures |samples| == if |t.sizes| < Before(t.spc, |t.spc|) then |t.sizes| else Before(t.spc, |t.spc|)
  {
    samples := [];
    var c := 0;
    while c < |t.offsets|
      invariant c <= |t.offsets| && Placed(t, samples)
      invariant |samples| == if |t.sizes| < Before(t.spc, c) then |t.sizes| else Before(t.spc, c)
    {
      samples := PlaceChunk(t, samples, c);
      c := c + 1;
    }
  }

  method PlaceChunk(t: Tables, before: seq<SampleRef>, c: nat) returns (samples: seq<SampleRef>)
    requires TablesOk(t) && Placed(t, before) && c < |t.offsets|
    requires |before| == if |t.sizes| < Before(t.spc, c) then |t.sizes| else Before(t.spc, c)
    ensures Placed(t, samples)
    ensures |samples| == if |t.sizes| < Before(t.spc, c + 1) then |t.sizes| else Before(t.spc, c + 1)
  {
    samples := before;
    var off := t.offsets[c];
    var j := 0;
    while j < t.spc[c]
      invariant 0 <= j <= t.spc[c] && Placed(t, samples)
      invariant |samples| == if |t.sizes| < Before(t.spc, c) + j then |t.sizes| else Before(t.spc, c) + j
      invariant |samples| < |t.sizes| ==> off == t.offsets[c] + Sum(t.sizes, Before(t.spc, c), |samples|)
    {
      var k := |samples|;
      if k >= |t.sizes| {
        break;
      }
      var dts, cts := t.dts[k], if t.ctts.Some? then t.ctts.value[k] else 0;
      var sample := SampleRef(off, t.sizes[k], TicksToUs(dts + cts, t.timescale), TicksToUs(dts, t.timescale),
                              t.sync.None? || k + 1 in t.sync.value);
      PlacedNext(t, samples, c);
      samples := samples + [sample];
      off := off + t.sizes[k];
      j := j + 1;
    }
  }

  /** Samples of one chunk follow each other: the next begins where this one ends, and no two overlap. */
  lemma {:induction false} ChunkContiguous(t: Tables, samples: seq<SampleRef>, c: nat, j: nat, k: nat)
    requires TablesOk(t) && Placed(t, samples) && j < k < |samples| && InChunk(t.spc, j, c) && InChunk(t.spc, k, c)
    ensures samples[j].offset + samples[j].size <= samples[k].offset
    ensures k == j + 1 ==> samples[k].offset == samples[j].offset + samples[j].size
    decreases k
  {
    var first := Before(t.spc, c);
    assert samples[k] == SampleAt(t, k, c) && samples[k].offset == t.offsets[c] + Sum(t.sizes, first, k);
    assert InChunk(t.spc, k - 1, c) && samples[k - 1] == SampleAt(t, k - 1, c);
    assert Sum(t.sizes, first, k) == Sum(t.sizes, first, k - 1) + t.sizes[k - 1];
    if j + 1 < k {
      ChunkContiguous(t, samples, c, j, k - 1);
    }
  }

  /**
   * What a placed sample tells besides its place: the size; a decode time, and a presentation time later by the
   * composition offset; and that it is a sync sample if no table says otherwise, samples being numbered from one.
   */
  lemma SampleTells(t: Tables, samples: seq<SampleRef>, k: nat)
    requires TablesOk(t) && Placed(t, samples) && k < |samples| <= Before(t.spc, |t.spc|)
    requires var offset := if t.ctts.None? then 0 else t.ctts.value[k];
      && -TWO_63 <= t.dts[k] * US_PER_S < TWO_63 && -TWO_63 <= (t.dts[k] + offset) * US_PER_S < TWO_63
    ensures samples[k].size == t.sizes[k] && Microseconds(samples[k].dtsUs, t.dts[k], t.timescale)
    ensures t.ctts.None? ==> samples[k].ptsUs == samples[k].dtsUs
    ensures t.ctts.Some? ==> Microseconds(samples[k].ptsUs, t.dts[k] + t.ctts.value[k], t.timescale)
    ensures samples[k].isSync <==> (t.sync.Some? ==> k + 1 in t.sync.value)
  {
    var c := SomeChunk(t.spc, k, |t.spc|);
    assert samples[k] == SampleAt(t, k, c);
    TicksExact(t.dts[k], t.timescale);
    TicksExact(t.dts[k] + if t.ctts.None? then 0 else t.ctts.value[k], t.timescale);
  }

  /** The sample's data from `from` up to `end`, put end to end. */
  function DataOf(data: seq<seq<Byte>>, from: nat, end: nat): seq<Byte>
    requires end <= |data|
    decreases end
  {
    if end <= from then [] else DataOf(data, from, end - 1) + data[end - 1]
  }

  lemma {:induction false} DataSize(data: seq<seq<Byte>>, sizes: seq<nat>, from: nat, end: nat)
    requires |data| == |sizes| && end <= |data| && forall k | 0 <= k < |data| :: sizes[k] == |data[k]|
    ensures |DataOf(data, from, end)| == Sum(sizes, from, end)
    decreases end
  {
    if end > from {
      DataSize(data, sizes, from, end - 1);
    }
  }

  lemma {:induction false} DataBegins(data: seq<seq<Byte>>, from: nat, mid: nat, end: nat)
    requires mid <= end <= |data|
    ensures DataOf(data, from, mid) <= DataOf(data, from, end)
    decreases end
  {
    if mid < end {
      DataBegins(data, from, mid, end - 1);
    } else {
      assert DataOf(data, from, mid) <= DataOf(data, from, mid);
    }
  }

  /** The chunk stands in the file: its samples' data, one after the other, from its offset on. */
  ghost predicate ChunkStands(file: seq<Byte>, t: Tables, data: seq<seq<Byte>>, c: nat)
    requires TablesOk(t) && c < |t.spc| && |data| == |t.sizes|
  {
    var end := if Before(t.spc, c + 1) < |data| then Before(t.spc, c + 1) else |data|;
    t.offsets[c] <= |file| && DataOf(data, Before(t.spc, c), end) <= file[t.offsets[c]..]
  }

  /** A placed sample is where its data is: if its chunk stands in the file, its bytes are the sample's own. */
  lemma SampleIsItsData(file: seq<Byte>, t: Tables, data: seq<seq<Byte>>, samples: seq<SampleRef>, k: nat, c: nat)
    requires TablesOk(t) && Placed(t, samples) && k < |samples| && InChunk(t.spc, k, c)
    requires |data| == |t.sizes| && (forall j | 0 <= j < |data| :: t.sizes[j] == |data[j]|)
    requires ChunkStands(file, t, data, c)
    ensures var s := samples[k]; s.offset + s.size <= |file| && file[s.offset..s.offset + s.size] == data[k]
  {
    var first := Before(t.spc, c);
    var end := if Before(t.spc, c + 1) < |data| then Before(t.spc, c + 1) else |data|;
    assert samples[k] == SampleAt(t, k, c);
    DataSize(data, t.sizes, first, k);
    DataBegins(data, first, k + 1, end);
    InFile(file, t.offsets[c], DataOf(data, first, k), data[k]);
  }

  lemma InFile(file: seq<Byte>, at: nat, before: seq<Byte>, part: seq<Byte>)
    requires at <= |file| && before + part <= file[at..]
    ensures at + |before| + |part| <= |file| && file[at + |before|..at + |before| + |part|] == part
  {
    var tail := file[at..];
    assert tail[|before|..|before| + |part|] == (before + part)[|before|..] == part;
    assert file[at + |before|..at + |before| + |part|] == tail[|before|..|before| + |part|];
  }

  lemma TicksMono(a: int, b: int, timescale: nat)
    requires 0 <= a <= b && b * US_PER_S < TWO_63 && timescale > 0
    ensures TicksToUs(a, timescale) <= TicksToUs(b, timescale)
  {
    WrapsNot(a * US_PER_S);
    WrapsNot(b * US_PER_S);
    DivMono(a * US_PER_S, b * US_PER_S, timescale);
  }

  /** The first product that does not fit gives a time before zero: one delta adds less than wraps all the way round. */
  lemma TicksBack(a: int, b: int, timescale: nat)
    requires 0 <= a && a * US_PER_S < TWO_63 <= b * US_PER_S && b < a + TWO_32 && 0 < timescale < TWO_32
    ensures TicksToUs(b, timescale) < 0 <= TicksToUs(a, timescale)
  {
    var over := b * US_PER_S - TWO_64;
    assert Wrap64(b * US_PER_S) == over && -over >= TWO_32;
    DivMono(timescale, -over, timescale);
  }

  lemma DivMono(a: nat, b: nat, m: nat)
    requires a <= b && m > 0
    ensures a / m <= b / m
  {
    var q, r := a / m, b / m;
    assert q * m <= a && b < (r + 1) * m;
    if r + 1 <= q {
      MulMono(r + 1, q, m);
    }
  }

  /** Decode times in ticks, as an stts table gives them. */
  ghost predicate FromStts(dts: seq<int>, b: seq<Byte>, i: nat, e: nat, count: nat) {
    e <= |b| && forall x: nat | x < |dts| :: dts[x] == TimeAt(Runs(b, i, e, count, 8, false), x)
  }

  /** They begin at zero, never go back, and go on by less than 2^32. */
  ghost predicate Climbing(dts: seq<int>, n: nat)
    requires n <= |dts|
  {
    && (n > 0 ==> dts[0] == 0)
    && (forall j, k | 0 <= j < k < n :: dts[j] <= dts[k])
    && (forall k | 0 < k < n :: dts[k] < dts[k - 1] + TWO_32)
  }

  lemma SttsClimbs(dts: seq<int>, n: nat, b: seq<Byte>, i: nat, e: nat, count: nat)
    requires n <= |dts| && FromStts(dts[..n], b, i, e, count)
    ensures Climbing(dts, n)
  {
    forall j, k | 0 <= j < k < n ensures dts[j] <= dts[k] && (j == k - 1 ==> dts[k] < dts[j] + TWO_32) {
      assert dts[..n][j] == dts[j] && dts[..n][k] == dts[k];
      TimeMono(b, i, e, count, j, k);
      ValueBelow(b, i, e, count, k - 1);
    }
    assert n > 0 ==> dts[..n][0] == dts[0];
  }

  /** The sample at which the product first does not fit. */
  lemma {:induction false} FirstOver(dts: seq<int>, n: nat) returns (k: nat)
    requires 0 < n <= |dts| && Climbing(dts, n) && dts[n - 1] * US_PER_S >= TWO_63
    ensures 0 < k < n && dts[k - 1] * US_PER_S < TWO_63 <= dts[k] * US_PER_S
  {
    if dts[n - 2] * US_PER_S < TWO_63 {
      k := n - 1;
    } else {
      k := FirstOver(dts, n - 1);
    }
  }

  ghost predicate NeverBack(samples: seq<SampleRef>) {
    forall j, k | 0 <= j < k < |samples| :: samples[j].dtsUs <= samples[k].dtsUs
  }

  lemma DtsOf(t: Tables, samples: seq<SampleRef>, k: nat)
    requires TablesOk(t) && Placed(t, samples) && k < |samples| <= Before(t.spc, |t.spc|)
    ensures samples[k].dtsUs == TicksToUs(t.dts[k], t.timescale)
  {
    var c := SomeChunk(t.spc, k, |t.spc|);
    assert samples[k] == SampleAt(t, k, c);
  }

  /**
   * Decode times in microseconds never go back if and only if the last one's product still fits in 64 bits with a sign.
   */
  lemma DtsInOrderIff(t: Tables, samples: seq<SampleRef>, b: seq<Byte>, i: nat, e: nat, count: nat)
    requires TablesOk(t) && t.timescale < TWO_32 && Placed(t, samples) && 0 < |samples| <= Before(t.spc, |t.spc|)
    requires FromStts(t.dts[..|samples|], b, i, e, count)
    ensures NeverBack(samples) <==> t.dts[|samples| - 1] * US_PER_S < TWO_63
  {
    var n := |samples|;
    SttsClimbs(t.dts, n, b, i, e, count);
    if t.dts[n - 1] * US_PER_S < TWO_63 {
      forall j, k | 0 <= j < k < n ensures samples[j].dtsUs <= samples[k].dtsUs {
        DtsOf(t, samples, j);
        DtsOf(t, samples, k);
        TicksMono(t.dts[j], t.dts[k], t.timescale);
      }
    } else {
      var k := FirstOver(t.dts, n);
      DtsOf(t, samples, k - 1);
      DtsOf(t, samples, k);
      TicksBack(t.dts[k - 1], t.dts[k], t.timescale);
      assert samples[k].dtsUs < samples[k - 1].dtsUs;
    }
  }

  lemma {:induction false} SteadyTime(runs: seq<Run>, n: nat, delta: int, k: nat)
    requires runs == [Run(n, delta)] && k <= n
    ensures TimeAt(runs, k) == k * delta
  {
    if k > 0 {
      SteadyTime(runs, n, delta, k - 1);
    }
  }

  /**
   * An stts entry with the largest delta: at a thousand ticks a second, sample 2147 is positive and sample 2148
   * negative.
   */
  lemma LargestDeltaTurnsBack(b: seq<Byte>)
    requires b == [0, 0, 16, 0, 255, 255, 255, 255]
    ensures var runs := Runs(b, 0, 8, 1, 8, false);
      TicksToUs(TimeAt(runs, 2148), 1000) < 0 < TicksToUs(TimeAt(runs, 2147), 1000)
  {
    var runs := Runs(b, 0, 8, 1, 8, false);
    assert b[0..4] == [0, 0, 16, 0] && b[4..8] == [255, 255, 255, 255];
    FoldFour(0, 0, 16, 0);
    FoldFour(255, 255, 255, 255);
    assert Runs(b, 8, 8, 0, 8, false) == [] && runs == [Run(4096, 0xFFFF_FFFF)];
    SteadyTime(runs, 4096, 0xFFFF_FFFF, 2147);
    SteadyTime(runs, 4096, 0xFFFF_FFFF, 2148);
    WrapsNot(2147 * 0xFFFF_FFFF * US_PER_S);
    assert Wrap64(2148 * 0xFFFF_FFFF * US_PER_S) == 2148 * 0xFFFF_FFFF * US_PER_S - TWO_64;
  }

  // ---------------------------------------------------------------- access units

  const START: seq<Byte> := [0, 0, 0, 1]

  /** A sample as MP4 stores it: each NAL unit behind its length. */
  function LengthPrefixed(nals: seq<seq<Byte>>, nalLen: nat): seq<Byte> {
    if nals == [] then [] else BigEndian(|nals[0]|, nalLen) + nals[0] + LengthPrefixed(nals[1..], nalLen)
  }

  /** An access unit as Annex B has it: each NAL unit behind a start code. */
  function StartCoded(nals: seq<seq<Byte>>): seq<Byte> {
    if nals == [] then [] else START + nals[0] + StartCoded(nals[1..])
  }

  predicate Units(nals: seq<seq<Byte>>, nalLen: nat) { forall i | 0 <= i < |nals| :: 0 < |nals[i]| < Pow256(nalLen) }

  /** What the loop makes of the sample from byte `i` on. */
  function Converted(sample: seq<Byte>, i: nat, nalLen: nat): seq<Byte>
    requires nalLen > 0
    decreases if i <= |sample| then |sample| - i else 0
  {
    if i + nalLen > |sample| then []
    else
      var n := Fold(0, sample[i..i + nalLen]);
      if n == 0 || i + nalLen + n > |sample| then []
      else START + sample[i + nalLen..i + nalLen + n] + Converted(sample, i + nalLen + n, nalLen)
  }

  method ToAnnexB(sample: seq<Byte>, nalLen: nat, psPrefix: seq<Byte>, isSync: bool) returns (au: seq<Byte>)
    requires nalLen > 0
    ensures au == (if isSync then psPrefix else []) + Converted(sample, 0, nalLen)
  {
    au := if isSync then psPrefix else [];
    ghost var head := au;
    var i: nat := 0;
    while i + nalLen <= |sample|
      invariant au + Converted(sample, i, nalLen) == head + Converted(sample, 0, nalLen)
      decreases |sample| - i
    {
      var n := Fold(0, sample[i..i + nalLen]);
      if n == 0 || i + nalLen + n > |sample| {
        break;
      }
      RegroupFour(au, START, sample[i + nalLen..i + nalLen + n], Converted(sample, i + nalLen + n, nalLen));
      au := au + START + sample[i + nalLen..i + nalLen + n];
      i := i + nalLen + n;
    }
    assert au + [] == au;
  }

  lemma ConvertedNext(sample: seq<Byte>, i: nat, nalLen: nat, nal: seq<Byte>)
    requires nalLen > 0 && nal != [] && i + nalLen + |nal| <= |sample|
    requires Fold(0, sample[i..i + nalLen]) == |nal| && sample[i + nalLen..i + nalLen + |nal|] == nal
    ensures Converted(sample, i, nalLen) == START + nal + Converted(sample, i + nalLen + |nal|, nalLen)
  {}

  lemma UnitAt(sample: seq<Byte>, i: nat, size: seq<Byte>, nal: seq<Byte>, rest: seq<Byte>)
    requires i <= |sample| && sample[i..] == size + nal + rest
    ensures var m := i + |size|;
      m + |nal| <= |sample| && sample[i..m] == size && sample[m..m + |nal|] == nal && sample[m + |nal|..] == rest
  {
    var tail := sample[i..];
    assert sample[i..i + |size|] == tail[..|size|];
    assert sample[i + |size|..i + |size| + |nal|] == tail[|size|..|size| + |nal|];
    assert sample[i + |size| + |nal|..] == tail[|size| + |nal|..];
  }

  lemma SizeBack(n: nat, nalLen: nat)
    requires n < Pow256(nalLen)
    ensures Fold(0, BigEndian(n, nalLen)) == n
  {
    FoldBigEndian(0, n, nalLen);
  }

  /** Nothing more can be taken from `bad`: no length, a length of zero, or one that reaches too far. */
  predicate NoUnit(bad: seq<Byte>, nalLen: nat) {
    |bad| < nalLen || Fold(0, bad[..nalLen]) == 0 || nalLen + Fold(0, bad[..nalLen]) > |bad|
  }

  lemma UnitTaken(sample: seq<Byte>, i: nat, size: seq<Byte>, nal: seq<Byte>, rest: seq<Byte>, nalLen: nat)
    returns (next: nat)
    requires 0 < nalLen == |size| && Fold(0, size) == |nal| > 0
    requires i <= |sample| && sample[i..] == size + nal + rest
    ensures next <= |sample| && sample[next..] == rest
    ensures Converted(sample, i, nalLen) == START + nal + Converted(sample, next, nalLen)
  {
    UnitAt(sample, i, size, nal, rest);
    ConvertedNext(sample, i, nalLen, nal);
    next := i + nalLen + |nal|;
  }

  lemma Prefixed(nals: seq<seq<Byte>>, nalLen: nat, bad: seq<Byte>)
    requires nals != [] && Units(nals, nalLen)
    ensures var size := BigEndian(|nals[0]|, nalLen);
      && Fold(0, size) == |nals[0]| > 0
      && LengthPrefixed(nals, nalLen) + bad == size + nals[0] + (LengthPrefixed(nals[1..], nalLen) + bad)
  {
    SizeBack(|nals[0]|, nalLen);
    Regroup(BigEndian(|nals[0]|, nalLen) + nals[0], LengthPrefixed(nals[1..], nalLen), bad);
  }

  lemma NoneTaken(sample: seq<Byte>, i: nat, nalLen: nat, bad: seq<Byte>)
    requires nalLen > 0 && NoUnit(bad, nalLen) && i <= |sample| && sample[i..] == bad
    ensures Converted(sample, i, nalLen) == []
  {
    assert |sample| == i + |bad|;
    if i + nalLen <= |sample| {
      assert sample[i..i + nalLen] == sample[i..][..nalLen];
    }
  }

  /** A sample, or tail of one, converts to all of its NAL units, in order, up to where no more can be taken. */
  lemma {:induction false} AnnexBKeepsUnits(sample: seq<Byte>, i: nat, nals: seq<seq<Byte>>, nalLen: nat,
                                             bad: seq<Byte>)
    requires nalLen > 0 && Units(nals, nalLen) && NoUnit(bad, nalLen)
    requires i <= |sample| && sample[i..] == LengthPrefixed(nals, nalLen) + bad
    ensures Converted(sample, i, nalLen) == StartCoded(nals)
    decreases |nals|
  {
    if nals == [] {
      assert LengthPrefixed(nals, nalLen) + bad == bad;
      NoneTaken(sample, i, nalLen, bad);
    } else {
      Prefixed(nals, nalLen, bad);
      var rest := LengthPrefixed(nals[1..], nalLen) + bad;
      var next := UnitTaken(sample, i, BigEndian(|nals[0]|, nalLen), nals[0], rest, nalLen);
      AnnexBKeepsUnits(sample, next, nals[1..], nalLen, bad);
    }
  }
}
