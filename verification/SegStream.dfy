/**
 * Segment-by-segment streaming with an asynchronous one-segment read-ahead.
 *
 * Fetches in the air land at any time, in any order, before or after a seek, and may fail; a demuxer is a function
 * from the bytes of init and segment to the packets it yields, or to an error.
 */
module SegStream {
  import opened Options
  import opened Bytes

  datatype Packet = Packet(ptsUs: int, keyframe: bool, data: seq<Byte>)

  datatype Ready = Ready(idx: nat, bytes: seq<Byte>)

  type Demuxer = seq<Byte> -> Option<seq<Packet>>

  /** A fetch in the air lands: which one, and whether it brought the bytes. */
  datatype Landing = Landing(k: nat, ok: bool)

  predicate ReadyFor(ready: Option<Ready>, idx: nat) { ready.Some? && ready.value.idx == idx }

  /** The last position whose start is at or before the target; the first segment if there is none. */
  ghost predicate Covers(starts: seq<int>, target: int, i: nat) {
    && (forall j | i < j < |starts| :: starts[j] > target)
    && ((i < |starts| && starts[i] <= target) || (i == 0 && forall j | 0 <= j < |starts| :: starts[j] > target))
  }

  lemma CoversUnique(starts: seq<int>, target: int, i: nat, j: nat)
    requires Covers(starts, target, i) && Covers(starts, target, j)
    ensures i == j
  {}

  /** The packets of one segment; none if it does not open. */
  function PacketsOf(demux: Demuxer, init: seq<Byte>, segs: seq<seq<Byte>>, i: nat): seq<Packet> {
    if i < |segs| && demux(init + segs[i]).Some? then demux(init + segs[i]).value else []
  }

  /** The packets of segments `from` up to `end`, in order. */
  function Span(demux: Demuxer, init: seq<Byte>, segs: seq<seq<Byte>>, from: nat, end: nat): seq<Packet> {
    if end <= from then [] else Span(demux, init, segs, from, end - 1) + PacketsOf(demux, init, segs, end - 1)
  }

  lemma {:induction false} SpanGrows(demux: Demuxer, init: seq<Byte>, segs: seq<seq<Byte>>, from: nat, mid: nat,
                                     end: nat)
    requires from <= mid <= end
    ensures Span(demux, init, segs, from, mid) <= Span(demux, init, segs, from, end)
    decreases end
  {
    if mid < end {
      SpanGrows(demux, init, segs, from, mid, end - 1);
    }
  }

  class SegStream {
    const demux: Demuxer
    const init: seq<Byte>
    const segs: seq<seq<Byte>>
    const starts: seq<int>
    var idx: nat
    var dmx: Option<seq<Packet>>
    var done: bool
    var ready: Option<Ready>
    var inflight: bool
    var tasks: seq<nat>
    ghost var origin: nat
    ghost var delivered: seq<Packet>

    function Left(): seq<Packet> reads this { if dmx.Some? then dmx.value else [] }

    /** The read-ahead holds a segment's own bytes, and its flag does not outlive its fetches. */
    ghost predicate PrefetchOk() reads this {
      && (ready.Some? ==> ready.value.idx < |segs| && ready.value.bytes == segs[ready.value.idx])
      && (forall k | 0 <= k < |tasks| :: tasks[k] < |segs|)
      && (inflight ==> tasks != [])
    }

    /** What was delivered since the last seek, and what is open, are the segments since then, without a gap. */
    ghost predicate Valid() reads this {
      && PrefetchOk() && origin <= idx
      && delivered + Left() == Span(demux, init, segs, origin, idx)
    }

    constructor (demux: Demuxer, init: seq<Byte>, segs: seq<seq<Byte>>, starts: seq<int>)
      ensures Valid() && idx == 0 && delivered == [] && origin == 0
      ensures this.demux == demux && this.init == init && this.segs == segs && this.starts == starts
    {
      this.demux, this.init, this.segs, this.starts := demux, init, segs, starts;
      idx, dmx, done, ready, inflight, tasks := 0, None, false, None, false, [];
      origin, delivered := 0, [];
    }

    /** Starts a fetch of the next segment, unless one is in the air or its bytes are there. */
    method DrivePrefetch()
      requires Valid()
      modifies this`inflight, this`tasks
      ensures Valid()
      ensures var needed := idx < |segs| && !old(inflight) && !ReadyFor(ready, idx);
        inflight == (old(inflight) || needed) && tasks == if needed then old(tasks) + [idx] else old(tasks)
    {
      if idx >= |segs| || inflight || (ready.Some? && ready.value.idx == idx) {
        return;
      }
      inflight := true;
      tasks := tasks + [idx];
    }

    /** A fetch lands, whenever it was started. */
    method Land(landing: Landing)
      requires PrefetchOk()
      modifies this`inflight, this`tasks, this`ready
      ensures PrefetchOk()
      ensures landing.k >= |old(tasks)| ==> inflight == old(inflight) && tasks == old(tasks) && ready == old(ready)
      ensures landing.k < |old(tasks)| ==> !inflight && tasks == old(tasks)[..landing.k] + old(tasks)[landing.k + 1..]
      ensures landing.k < |old(tasks)| ==>
        ready == if landing.ok then Some(Ready(old(tasks)[landing.k], segs[old(tasks)[landing.k]])) else old(ready)
    {
      if landing.k < |tasks| {
        inflight := false;
        if landing.ok {
          ready := Some(Ready(tasks[landing.k], segs[tasks[landing.k]]));
        }
        tasks := tasks[..landing.k] + tasks[landing.k + 1..];
      }
    }

    method LandAll(landings: seq<Landing>)
      requires PrefetchOk()
      modifies this`inflight, this`tasks, this`ready
      ensures PrefetchOk()
    {
      var i := 0;
      while i < |landings|
        invariant PrefetchOk()
      {
        Land(landings[i]);
        i := i + 1;
      }
    }

    /** The next segment's bytes: read ahead, or fetched now, while other fetches may land. */
    method TakeBytes(fetched: bool, during: seq<Landing>) returns (bytes: Option<seq<Byte>>)
      requires PrefetchOk() && idx < |segs|
      modifies this`inflight, this`tasks, this`ready
      ensures PrefetchOk() && bytes == if ReadyFor(old(ready), idx) || fetched then Some(segs[idx]) else None
    {
      if ready.Some? && ready.value.idx == idx {
        bytes := Some(ready.value.bytes);
        ready := None;
        return;
      }
      LandAll(during);
      bytes := if fetched then Some(segs[idx]) else None;
    }

    /** Opens segment `idx` on its own bytes and moves past it, or says why it cannot: no more, no bytes, no demuxer. */
    method OpenNext(fetched: bool, during: seq<Landing>) returns (went: bool)
      requires Valid() && dmx.None?
      modifies this`idx, this`dmx, this`done, this`inflight, this`tasks, this`ready
      ensures Valid()
      ensures went <==>
              (old(idx) < |segs| && (ReadyFor(old(ready), old(idx)) || fetched) && demux(init + segs[old(idx)]).Some?)
      ensures went ==> idx == old(idx) + 1 && dmx == demux(init + segs[old(idx)])
      ensures !went ==> idx == old(idx) && dmx.None? && done
    {
      if idx >= |segs| {
        done := true;
        return false;
      }
      var bytes := TakeBytes(fetched, during);
      if bytes.None? {
        done := true;
        return false;
      }
      var d := demux(init + bytes.value);
      if d.None? {
        done := true;
        return false;
      }
      dmx := d;
      idx := idx + 1;
      went := true;
      assert delivered + [] == delivered;
    }

    method Pop() returns (p: Packet)
      requires Valid() && dmx.Some? && dmx.value != []
      modifies this`dmx, this`delivered
      ensures Valid() && delivered == old(delivered) + [p]
    {
      p := dmx.value[0];
      assert (delivered + [p]) + dmx.value[1..] == delivered + dmx.value;
      delivered := delivered + [p];
      dmx := Some(dmx.value[1..]);
    }

    /**
     * The next packet, from the open segment or the next ones; `net` says whether the k-th fetch succeeds, and
     * `landings` what lands while it is waited for. Without a packet, the segments are at their end, or the next one
     * could not be fetched or opened.
     */
    method NextPacket(net: nat -> bool, landings: nat -> seq<Landing>) returns (r: Option<Packet>, fetches: nat)
      requires Valid()
      modifies this
      ensures Valid() && origin == old(origin)
      ensures delivered == old(delivered) + if r.Some? then [r.value] else []
      ensures r.None? ==> dmx.None? && done
      ensures r.None? && idx < |segs| ==> !net(fetches) || demux(init + segs[idx]).None?
    {
      fetches := 0;
      while true
        invariant Valid() && origin == old(origin) && delivered == old(delivered)
        decreases |segs| - idx, if dmx.Some? then 1 else 0
      {
        if dmx.None? {
          var went := OpenNext(net(fetches), landings(fetches));
          if !went {
            return None, fetches;
          }
          fetches := fetches + 1;
        }
        if dmx.value != [] {
          var p := Pop();
          return Some(p), fetches;
        }
        assert delivered + dmx.value == delivered + [];
        dmx := None;
      }
    }

    /** Moves to the segment that covers the target; read-ahead for the old place is dropped, its fetches are not. */
    method Seek(target: int) returns (landed: int)
      requires Valid()
      modifies this
      ensures Valid() && Covers(starts, target, idx) && origin == idx && delivered == [] && dmx.None? && !done
      ensures forall i: nat | Covers(starts, target, i) :: i == idx
      ensures landed == (if idx < |starts| then starts[idx] else 0) && tasks == old(tasks) && ready == None && !inflight
    {
      var i := |starts|;
      while i > 0 && starts[i - 1] > target
        invariant 0 <= i <= |starts| && Valid() && tasks == old(tasks)
        invariant forall j | i <= j < |starts| :: starts[j] > target
      {
        i := i - 1;
      }
      idx := if i > 0 then i - 1 else 0;
      dmx, done, ready, inflight := None, false, None, false;
      origin, delivered := idx, [];
      landed := if idx < |starts| then starts[idx] else 0;
      forall k: nat | Covers(starts, target, k) ensures k == idx { CoversUnique(starts, target, k, idx); }
    }

    /** Whatever has been called and landed so far: the delivered packets begin what the last seek's segments hold. */
    lemma DeliveredBegins()
      requires Valid()
      ensures delivered <= Span(demux, init, segs, origin, if idx <= |segs| then |segs| else idx)
    {
      var end := if idx <= |segs| then |segs| else idx;
      assert delivered <= Span(demux, init, segs, origin, idx);
      SpanGrows(demux, init, segs, origin, idx, end);
    }

    /** And at the end, when nothing failed, they are all of it. */
    lemma DeliveredAll()
      requires Valid() && dmx.None? && idx == |segs|
      ensures delivered == Span(demux, init, segs, origin, |segs|)
    {
      assert delivered + [] == delivered;
    }
  }

  datatype Op =
    | Prefetch
    | Arrive(landing: Landing)
    | Next(net: nat -> bool, landings: nat -> seq<Landing>)
    | SeekTo(target: int)

  /** Any interleaving of read-ahead, landings, packets and seeks keeps the stream in order. */
  method Perform(s: SegStream, ops: seq<Op>)
    requires s.Valid()
    modifies s
    ensures s.Valid()
    ensures s.delivered <= Span(s.demux, s.init, s.segs, s.origin, if s.idx <= |s.segs| then |s.segs| else s.idx)
  {
    var i := 0;
    while i < |ops|
      invariant i <= |ops| && s.Valid()
    {
      match ops[i] {
        case Prefetch => s.DrivePrefetch();
        case Arrive(landing) => s.Land(landing);
        case Next(net, landings) => var p, n := s.NextPacket(net, landings);
        case SeekTo(target) => var t := s.Seek(target);
      }
      i := i + 1;
    }
    s.DeliveredBegins();
  }
}
