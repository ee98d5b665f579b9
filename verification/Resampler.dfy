/** The streaming linear resampler, in exact arithmetic: what it has heard decides what it says, not the chunks. */
module Resampler {
  import opened Sequences

  type Frame = seq<real>

  /** A point of the line from `a` to `b`. */
  function Blend(a: real, b: real, frac: real): real { a + (b - a) * frac }

  /** Channel by channel. */
  function Lerp(a: Frame, b: Frame, frac: real): (f: Frame)
    requires |a| == |b|
    ensures |f| == |a|
  {
    seq(|a|, c requires 0 <= c < |a| => Blend(a[c], b[c], frac))
  }

  function Silence(ch: nat): Frame { seq(ch, _ => 0.0) }

  predicate Frames(x: seq<Frame>, ch: nat) { forall i | 0 <= i < |x| :: |x[i]| == ch }

  /** The input with a silent frame in front, read at position `p` between its frames. */
  function At(x: seq<Frame>, ch: nat, p: real): Frame
    requires Frames(x, ch) && 0.0 <= p < |x| as real
  {
    var i := p.Floor;
    Lerp(if i == 0 then Silence(ch) else x[i - 1], x[i], p - i as real)
  }

  /** The input moves in a straight line: channel `c` starts at `start[c]` and gains `slope[c]` a frame. */
  ghost predicate Straight(x: seq<Frame>, ch: nat, start: Frame, slope: Frame) {
    && |start| == ch && |slope| == ch
    && forall i, c | 0 <= i < |x| && 0 <= c < ch :: |x[i]| == ch && x[i][c] == start[c] + i as real * slope[c]
  }

  lemma BlendOnLine(start: real, slope: real, i: real, frac: real)
    ensures Blend(start + (i - 1.0) * slope, start + i * slope, frac) == start + (i - 1.0 + frac) * slope
  {
    assert (start + i * slope) - (start + (i - 1.0) * slope) == slope;
    assert (i - 1.0 + frac) * slope == (i - 1.0) * slope + frac * slope;
  }

  /** A straight line is read exactly, one frame late. */
  lemma LineIsKept(x: seq<Frame>, ch: nat, start: Frame, slope: Frame, p: real, c: nat)
    requires Frames(x, ch) && Straight(x, ch, start, slope) && 1.0 <= p < |x| as real && c < ch
    ensures At(x, ch, p)[c] == start[c] + (p - 1.0) * slope[c]
  {
    var i := p.Floor;
    BlendOnLine(start[c], slope[c], i as real, p - i as real);
    assert (i - 1) as real == i as real - 1.0;
  }

  /** Before the first frame is silence: the way up to it is straight, from zero. */
  lemma StartsFromZero(x: seq<Frame>, ch: nat, p: real, c: nat)
    requires Frames(x, ch) && x != [] && 0.0 <= p < 1.0 && c < ch
    ensures At(x, ch, p)[c] == p * x[0][c]
  {
    assert p.Floor == 0;
  }

  /** At a whole position there is nothing to blend: the frame before it comes out as it went in. */
  lemma WholeIsKept(x: seq<Frame>, ch: nat, k: nat)
    requires Frames(x, ch) && 1 <= k < |x|
    ensures At(x, ch, k as real) == x[k - 1]
  {
    assert (k as real).Floor == k;
    var a, b := x[k - 1], x[k];
    forall c | 0 <= c < ch ensures Lerp(a, b, 0.0)[c] == a[c] {
      assert Blend(a[c], b[c], 0.0) == a[c];
    }
  }

  /** The k-th read position: `step` added up `k` times. */
  function Position(k: nat, step: real): real { if k == 0 then 0.0 else Position(k - 1, step) + step }

  lemma {:induction false} PositionIsProduct(k: nat, step: real)
    ensures Position(k, step) == k as real * step
  {
    if k > 0 {
      PositionIsProduct(k - 1, step);
      Distribute((k - 1) as real, step);
    }
  }

  lemma Distribute(k: real, step: real)
    ensures (k + 1.0) * step == k * step + step
  {}

  /** The first `k` with `k * step >= n`: the ceiling of `n / step`. */
  predicate CountFor(n: nat, step: real, k: nat) {
    Position(k, step) >= n as real && (k == 0 || Position(k - 1, step) < n as real)
  }

  lemma {:induction false} PositionMono(j: nat, k: nat, step: real)
    requires j <= k && step > 0.0
    ensures Position(j, step) <= Position(k, step)
    decreases k
  {
    if j < k {
      PositionMono(j, k - 1, step);
    }
  }

  /** As many outputs as the quotient, rounded up. */
  lemma CountIsCeiling(n: nat, step: real, k: nat)
    requires step > 0.0 && CountFor(n, step, k)
    ensures k as real >= n as real / step && (k == 0 || (k - 1) as real < n as real / step)
  {
    PositionIsProduct(k, step);
    Divide(n as real, step, k as real);
    if k > 0 {
      PositionIsProduct(k - 1, step);
      Divide(n as real, step, (k - 1) as real);
    }
  }

  lemma Divide(n: real, step: real, k: real)
    requires step > 0.0
    ensures k * step >= n <==> k >= n / step
  {
    var q := n / step;
    assert q * step == n;
    if k >= q {
      assert (k - q) * step >= 0.0;
    } else {
      assert (q - k) * step > 0.0;
    }
  }

  lemma CountUnique(n: nat, step: real, j: nat, k: nat)
    requires step > 0.0 && CountFor(n, step, j) && CountFor(n, step, k)
    ensures j == k
  {
    if k > 0 && j <= k - 1 {
      PositionMono(j, k - 1, step);
    } else if j > 0 && k <= j - 1 {
      PositionMono(k, j - 1, step);
    }
  }

  /** The one-shot result: outputs `from` up to `to`, the k-th at position `k * step`. */
  ghost predicate Resampled(x: seq<Frame>, ch: nat, step: real, from: nat, to: nat, out: seq<Frame>)
    requires Frames(x, ch)
  {
    && from <= to && |out| == to - from
    && forall k: nat | from <= k < to ::
         0.0 <= Position(k, step) < |x| as real && out[k - from] == At(x, ch, Position(k, step))
  }

  lemma AtPrefix(x: seq<Frame>, y: seq<Frame>, ch: nat, p: real)
    requires Frames(x, ch) && Frames(x + y, ch) && 0.0 <= p < |x| as real
    ensures At(x + y, ch, p) == At(x, ch, p)
  {}

  /** What has been said stands when more is heard. */
  lemma ResampledPrefix(x: seq<Frame>, y: seq<Frame>, ch: nat, step: real, from: nat, to: nat, out: seq<Frame>)
    requires Frames(x, ch) && Frames(x + y, ch) && Resampled(x, ch, step, from, to, out)
    ensures Resampled(x + y, ch, step, from, to, out)
  {
    forall k: nat | from <= k < to ensures out[k - from] == At(x + y, ch, Position(k, step)) {
      AtPrefix(x, y, ch, Position(k, step));
    }
  }

  lemma ResampledJoin(x: seq<Frame>, ch: nat, step: real, from: nat, mid: nat, to: nat, a: seq<Frame>, b: seq<Frame>)
    requires Frames(x, ch) && Resampled(x, ch, step, from, mid, a) && Resampled(x, ch, step, mid, to, b)
    ensures Resampled(x, ch, step, from, to, a + b)
  {}

  /** There is one result: same input, same count, same output. */
  lemma ResampledUnique(x: seq<Frame>, ch: nat, step: real, from: nat, to: nat, a: seq<Frame>, b: seq<Frame>)
    requires Frames(x, ch) && Resampled(x, ch, step, from, to, a) && Resampled(x, ch, step, from, to, b)
    ensures a == b
  {
    forall i | 0 <= i < |a| ensures a[i] == b[i] {
      var k: nat := from + i;
      assert a[k - from] == At(x, ch, Position(k, step)) == b[k - from];
    }
  }

  /**
   * Positions count from the first frame heard; inside a chunk they count from the chunk, whose last frame before is
   * kept.
   */
  lemma LocalRead(x: seq<Frame>, y: seq<Frame>, ch: nat, last: Frame, p: real)
    requires Frames(x + y, ch) && 0.0 <= p < |y| as real && last == if x == [] then Silence(ch) else x[|x| - 1]
    ensures var i := p.Floor;
      && 0 <= i < |y| && |last| == ch && |y[i]| == ch && (i > 0 ==> |y[i - 1]| == ch)
      && At(x + y, ch, |x| as real + p) == Lerp(if i == 0 then last else y[i - 1], y[i], p - i as real)
  {
    var i, q := p.Floor, |x| as real + p;
    FloorShift(|x|, p);
    assert y[i] == (x + y)[|x| + i];
    var before := if i == 0 then last else y[i - 1];
    if i > 0 {
      assert y[i - 1] == (x + y)[|x| + i - 1];
    }
    if x != [] {
      assert last == (x + y)[|x| - 1];
    }
    assert before == if q.Floor == 0 then Silence(ch) else (x + y)[q.Floor - 1];
    assert At(x + y, ch, q) == Lerp(before, y[i], q - q.Floor as real);
  }

  lemma FloorShift(n: nat, p: real)
    ensures (n as real + p).Floor == n + p.Floor
    ensures (n as real + p) - (n as real + p).Floor as real == p - p.Floor as real
  {
    assert (n + p.Floor) as real == n as real + p.Floor as real;
  }

  /** The positions pass every bound. */
  lemma Limit(n: nat, step: real) returns (limit: nat)
    requires step > 0.0
    ensures Position(limit, step) >= n as real
  {
    Divide(n as real, step, 0.0);
    var q := n as real / step;
    limit := if q <= 0.0 then 0 else q.Floor + 1;
    PositionIsProduct(limit, step);
    Divide(n as real, step, limit as real);
  }

  lemma BelowLimit(k: nat, limit: nat, step: real)
    requires step > 0.0 && Position(k, step) < Position(limit, step)
    ensures k < limit
  {
    if limit <= k {
      PositionMono(limit, k, step);
    }
  }

  lemma ResampledNext(x: seq<Frame>, ch: nat, step: real, from: nat, k: nat, out: seq<Frame>, f: Frame)
    requires Frames(x, ch) && Resampled(x, ch, step, from, k, out)
    requires 0.0 <= Position(k, step) < |x| as real && f == At(x, ch, Position(k, step))
    ensures Resampled(x, ch, step, from, k + 1, out + [f])
  {}

  /** `pos` is read position `k`, counted from frame `base` on. */
  predicate Follows(pos: real, base: nat, k: nat, step: real) { base as real + pos == Position(k, step) }

  lemma Inside(pos: real, base: nat, n: nat, k: nat, limit: nat, step: real)
    requires step > 0.0 && 0.0 <= pos < n as real && Follows(pos, base, k, step)
    requires Position(limit, step) >= (base + n) as real
    ensures k < limit && 0.0 <= Position(k, step) < (base + n) as real && Follows(pos + step, base, k + 1, step)
  {
    assert (base + n) as real == base as real + n as real;
    BelowLimit(k, limit, step);
  }

  /** The loop under way at position `k`: `n` frames behind `base`, and everything said from `from` on. */
  ghost predicate Under(x: seq<Frame>, ch: nat, step: real, base: nat, n: nat, from: nat, k: nat, pos: real,
                        out: seq<Frame>) {
    && Frames(x, ch) && 0.0 <= pos && Follows(pos, base, k, step) && Resampled(x, ch, step, from, k, out)
    && (k == 0 || Position(k - 1, step) < (base + n) as real)
  }

  lemma Turn(x: seq<Frame>, ch: nat, step: real, base: nat, n: nat, from: nat, k: nat, pos: real, out: seq<Frame>,
             f: Frame)
    requires Under(x, ch, step, base, n, from, k, pos, out) && |x| == base + n && step > 0.0
    requires 0.0 <= Position(k, step) < (base + n) as real && f == At(x, ch, Position(k, step))
    ensures Under(x, ch, step, base, n, from, k + 1, pos + step, out + [f])
  {
    ResampledNext(x, ch, step, from, k, out, f);
  }

  lemma CountGrows(base: nat, n: nat, step: real, k: nat)
    requires CountFor(base, step, k)
    ensures k == 0 || Position(k - 1, step) < (base + n) as real
  {
    assert (base + n) as real == base as real + n as real;
  }

  lemma Outside(pos: real, base: nat, n: nat, k: nat, step: real)
    requires pos >= n as real && Follows(pos, base, k, step)
    ensures Position(k, step) >= (base + n) as real && Follows(pos - n as real, base + n, k, step)
  {
    assert (base + n) as real == base as real + n as real;
  }

  lemma LocalReadAt(all: seq<Frame>, x: seq<Frame>, y: seq<Frame>, ch: nat, last: Frame, p: real, k: nat, step: real)
    requires all == x + y && Frames(all, ch) && 0.0 <= p < |y| as real && last == if x == [] then Silence(ch)
             else x[|x| - 1]
    requires Follows(p, |x|, k, step) && 0.0 <= Position(k, step) < |all| as real
    ensures var i := p.Floor;
      && 0 <= i < |y| && |last| == ch && |y[i]| == ch && (i > 0 ==> |y[i - 1]| == ch)
      && At(all, ch, Position(k, step)) == Lerp(if i == 0 then last else y[i - 1], y[i], p - i as real)
  {
    LocalRead(x, y, ch, last, p);
  }

  class LinearResampler {
    const step: real
    const ch: nat
    var pos: real
    var last: Frame
    ghost var heard: seq<Frame>
    ghost var said: nat

    ghost predicate Valid() reads this {
      && step > 0.0 && Frames(heard, ch)
      && 0.0 <= pos && Follows(pos, |heard|, said, step) && CountFor(|heard|, step, said)
      && last == if heard == [] then Silence(ch) else heard[|heard| - 1]
    }

    constructor (src: nat, ch: nat)
      requires src > 0
      ensures Valid() && heard == [] && said == 0 && step == src as real / 48000.0 && this.ch == ch
    {
      step, this.ch, pos, last := src as real / 48000.0, ch, 0.0, Silence(ch);
      heard, said := [], 0;
    }

    method Mix(a: Frame, b: Frame, frac: real) returns (f: Frame)
      requires |a| == |b|
      ensures f == Lerp(a, b, frac)
    {
      f := [];
      var c := 0;
      while c < |a|
        invariant c <= |a| && |f| == c && forall j | 0 <= j < c :: f[j] == Blend(a[j], b[j], frac)
      {
        f := f + [Blend(a[c], b[c], frac)];
        c := c + 1;
      }
      assert f == Lerp(a, b, frac);
    }

    /** The outputs that fall inside the chunk; `pos` runs past its end. */
    method Emit(input: seq<Frame>) returns (out: seq<Frame>, ghost k: nat)
      requires Valid() && Frames(heard + input, ch)
      modifies this`pos
      ensures pos >= |input| as real && Follows(pos, |heard|, k, step)
      ensures Resampled(heard + input, ch, step, said, k, out)
      ensures (k == 0 || Position(k - 1, step) < (|heard| + |input|) as real)
    {
      out := [];
      k := said;
      ghost var x := heard + input;
      ghost var limit: int := Limit(|heard| + |input|, step);
      CountGrows(|heard|, |input|, step, k);
      while pos < |input| as real
        invariant said <= k && Under(x, ch, step, |heard|, |input|, said, k, pos, out)
        decreases limit - k
      {
        Inside(pos, |heard|, |input|, k, limit, step);
        out := Say(input, said, k, out);
        k := k + 1;
      }
    }

    /** One output, and on to the next position. */
    method Say(input: seq<Frame>, ghost from: nat, ghost k: nat, said: seq<Frame>) returns (out: seq<Frame>)
      requires Frames(heard + input, ch) && last == (if heard == [] then Silence(ch) else heard[|heard| - 1])
               && step > 0.0
      requires pos < |input| as real && 0.0 <= Position(k, step) < (|heard| + |input|) as real
      requires Under(heard + input, ch, step, |heard|, |input|, from, k, pos, said)
      modifies this`pos
      ensures Under(heard + input, ch, step, |heard|, |input|, from, k + 1, pos, out)
    {
      var f := ReadAt(input, k);
      Turn(heard + input, ch, step, |heard|, |input|, from, k, pos, said, f);
      out := said + [f];
      pos := pos + step;
    }

    /** The output at `pos`, inside the chunk. */
    method ReadAt(input: seq<Frame>, ghost k: nat) returns (f: Frame)
      requires Frames(heard + input, ch) && last == if heard == [] then Silence(ch) else heard[|heard| - 1]
      requires 0.0 <= pos < |input| as real && Follows(pos, |heard|, k, step)
      requires 0.0 <= Position(k, step) < (|heard| + |input|) as real
      ensures f == At(heard + input, ch, Position(k, step))
    {
      var i := pos.Floor;
      LocalReadAt(heard + input, heard, input, ch, last, pos, k, step);
      f := Mix(if i == 0 then last else input[i - 1], input[i], pos - i as real);
    }

    /** One chunk: the outputs that fall inside it. */
    method Process(input: seq<Frame>) returns (out: seq<Frame>)
      requires Valid() && Frames(input, ch)
      modifies this`pos, this`last, this`heard, this`said
      ensures Valid() && heard == old(heard) + input
      ensures Resampled(heard, ch, step, old(said), said, out)
    {
      var n := |input|;
      if n == 0 {
        assert heard + input == heard;
        return [];
      }
      ghost var k: nat;
      out, k := Emit(input);
      Outside(pos, |heard|, n, k, step);
      assert (heard + input)[|heard + input| - 1] == input[n - 1];
      last := input[n - 1];
      pos := pos - n as real;
      heard, said := heard + input, k;
    }

    /** Chunk after chunk: the outputs together are the one-shot result of all that was heard. */
    method ProcessAll(chunks: seq<seq<Frame>>) returns (out: seq<Frame>)
      requires Valid() && heard == [] && forall i | 0 <= i < |chunks| :: Frames(chunks[i], ch)
      modifies this`pos, this`last, this`heard, this`said
      ensures Valid() && heard == Joined(chunks) && Resampled(heard, ch, step, 0, said, out)
      ensures CountFor(|heard|, step, said)
    {
      out := [];
      CountUnique(0, step, 0, said);
      var i := 0;
      while i < |chunks|
        invariant i <= |chunks| && Valid() && heard + Joined(chunks[i..]) == Joined(chunks)
        invariant Resampled(heard, ch, step, 0, said, out)
      {
        ghost var before, mid := heard, said;
        var more := Process(chunks[i]);
        assert chunks[i..][0] == chunks[i] && chunks[i..][1..] == chunks[i + 1..];
        Regroup(before, chunks[i], Joined(chunks[i + 1..]));
        ResampledPrefix(before, chunks[i], ch, step, 0, mid, out);
        ResampledJoin(heard, ch, step, 0, mid, said, out, more);
        out := out + more;
        i := i + 1;
      }
      assert heard + [] == heard;
    }
  }

  function Joined(chunks: seq<seq<Frame>>): seq<Frame> {
    if chunks == [] then [] else chunks[0] + Joined(chunks[1..])
  }

  /** Two ways to cut the same input give the same output and the same number of frames. */
  lemma ChunkingDoesNotMatter(x: seq<Frame>, ch: nat, step: real, j: nat, k: nat, a: seq<Frame>, b: seq<Frame>)
    requires step > 0.0 && Frames(x, ch) && CountFor(|x|, step, j) && CountFor(|x|, step, k)
    requires Resampled(x, ch, step, 0, j, a) && Resampled(x, ch, step, 0, k, b)
    ensures j == k && a == b
  {
    CountUnique(|x|, step, j, k);
    ResampledUnique(x, ch, step, 0, j, a, b);
  }
}
