/**
 * Exactly when error-correction packets can make the video receiver emit a torn frame.
 *
 * The error-correction branch overwrites the last sequence number unchecked, so such a packet can stand in for a
 * lost fragment whose place is just before its own.
 */
module VideoTorn {
  import opened Options
  import opened Bytes
  import opened Machine
  import opened Video
  import opened VideoSafety

  // ---------------------------------------------------------------- the sender

  /**
   * Every place between two fragments of a frame is taken: by error correction, as far as it is the last before a
   * fragment.
   */
  ghost predicate Gapless(sent: seq<Sent>, fore: set<nat>) {
    forall j, i | 0 <= j < |sent| && 1 <= i < |sent[j].at| ::
      sent[j].at[i] == sent[j].at[i - 1] + 1 || (sent[j].at[i] >= 1 && sent[j].at[i] - 1 in fore)
  }

  ghost predicate NoEmptyFragment(depay: Depacketizer, sent: seq<Sent>) {
    forall j, i | 0 <= j < |sent| && 0 <= i < |sent[j].frags| :: Body(depay, sent[j].frags[i]) != []
  }

  /** Fragment `k` of `f` as a plain packet. */
  function Plain(pt: nat, f: Sent, k: nat): Packet
    requires k < |f.frags| == |f.at|
  {
    Packet(pt, SeqOf(f, k), f.ts, 0, k == |f.frags| - 1, [], f.frags[k])
  }

  /** The error-correction packet at place `p`. */
  function Fore(p: nat): Packet { Packet(VIDEO_RED_PAYLOAD_TYPE, p % TWO_16, 0, 0, false, [], []) }

  predicate PlainType(pt: nat) { pt != VP8_RTX_PAYLOAD_TYPE && pt != VIDEO_RED_PAYLOAD_TYPE }

  // ---------------------------------------------------------------- one step of the receiver

  /** In the middle of a frame with timestamp `ts`, and nothing wrong seen. */
  predicate Mid(rx: Rx, ts: nat) {
    rx.assembling && !rx.broken && rx.curTs == ts && rx.ssrc == Some(0) && rx.prevSeq.Some?
  }

  lemma ForeStep(pt: nat, depay: Depacketizer, rx: Rx, ts: nat, p: nat)
    requires PlainType(pt) && Mid(rx, ts)
    ensures Handle(pt, depay, rx, Fore(p)) == rx.(packets := rx.packets + 1, prevSeq := Some(p % TWO_16))
  {}

  lemma PlainStep(pt: nat, depay: Depacketizer, rx: Rx, f: Sent, k: nat)
    requires PlainType(pt) && WellCut(depay, f) && 1 <= k < |f.frags| && Mid(rx, f.ts)
    requires SeqOf(f, k) == Next16(rx.prevSeq.value)
    ensures var rx', full := Handle(pt, depay, rx, Plain(pt, f, k)), rx.cur + Body(depay, f.frags[k]);
      if k < |f.frags| - 1 then Mid(rx', f.ts) && rx'.cur == full && rx'.prevSeq == Some(SeqOf(f, k))
        && rx'.framesOut == rx.framesOut
      else rx'.framesOut == rx.framesOut + [VideoFrame(full, f.ts, full != [] && full[0] % 2 == 0, rx.rotation)]
  {}

  lemma FirstStep(pt: nat, depay: Depacketizer, f: Sent)
    requires PlainType(pt) && WellCut(depay, f) && |f.frags| > 1
    ensures var rx := Handle(pt, depay, FRESH, Plain(pt, f, 0));
      Mid(rx, f.ts) && rx.cur == Body(depay, f.frags[0]) && rx.prevSeq == Some(SeqOf(f, 0)) && rx.framesOut == []
  {
    assert [] + Body(depay, f.frags[0]) == Body(depay, f.frags[0]);
  }

  // ---------------------------------------------------------------- the rest of a frame

  /** What makes fragment `k` contiguous to the one before. */
  function Bridge(f: Sent, k: nat): seq<Packet>
    requires 1 <= k < |f.at|
  {
    if f.at[k] == f.at[k - 1] + 1 || f.at[k] == 0 then [] else [Fore(f.at[k] - 1)]
  }

  /** Fragments `k` and later, and the packets between them. */
  function Tail(pt: nat, f: Sent, k: nat): seq<Packet>
    requires 1 <= k <= |f.frags| == |f.at|
    decreases |f.frags| - k
  {
    if k == |f.frags| then [] else Bridge(f, k) + [Plain(pt, f, k)] + Tail(pt, f, k + 1)
  }

  lemma HandleCons(pt: nat, depay: Depacketizer, rx: Rx, p: Packet, rest: seq<Packet>)
    ensures HandleAll(pt, depay, rx, [p] + rest) == HandleAll(pt, depay, Handle(pt, depay, rx, p), rest)
  {
    assert ([p] + rest)[1..] == rest;
  }

  /** The bridge, then fragment `k`, then `rest`. */
  lemma BridgeStep(pt: nat, depay: Depacketizer, rx: Rx, f: Sent, k: nat, rest: seq<Packet>) returns (mid: Rx)
    requires PlainType(pt) && Rising(f.at) && 1 <= k < |f.frags| == |f.at| && Mid(rx, f.ts)
    requires rx.prevSeq == Some(SeqOf(f, k - 1))
    ensures HandleAll(pt, depay, rx, Bridge(f, k) + [Plain(pt, f, k)] + rest) ==
            HandleAll(pt, depay, mid, [Plain(pt, f, k)] + rest)
    ensures Mid(mid, f.ts) && mid.cur == rx.cur && mid.framesOut == rx.framesOut
    ensures SeqOf(f, k) == Next16(mid.prevSeq.value)
  {
    RisingFrom(f.at, k - 1, k);
    if Bridge(f, k) == [] {
      mid := rx;
      assert Bridge(f, k) + [Plain(pt, f, k)] + rest == [Plain(pt, f, k)] + rest;
    } else {
      var p := f.at[k] - 1;
      mid := Handle(pt, depay, rx, Fore(p));
      ForeStep(pt, depay, rx, f.ts, p);
      HandleCons(pt, depay, rx, Fore(p), [Plain(pt, f, k)] + rest);
      assert Bridge(f, k) + [Plain(pt, f, k)] + rest == [Fore(p)] + ([Plain(pt, f, k)] + rest);
    }
  }

  /** How many bytes fragments `k` and later hold. */
  ghost function Left(depay: Depacketizer, f: Sent, k: nat): int
    requires k <= |f.frags|
  {
    |Data(depay, f)| - |Joined(depay, f.frags[..k])|
  }

  lemma LeftNext(depay: Depacketizer, f: Sent, k: nat)
    requires k < |f.frags|
    ensures Left(depay, f, k) == |Body(depay, f.frags[k])| + Left(depay, f, k + 1)
    ensures Left(depay, f, |f.frags|) == 0
  {
    JoinedSnoc(depay, f.frags, k);
    assert f.frags[..|f.frags|] == f.frags;
  }

  /** The rest of the frame is taken in after whatever is in hand. */
  lemma {:induction false} TailEmits(pt: nat, depay: Depacketizer, rx: Rx, f: Sent, k: nat)
    requires PlainType(pt) && WellCut(depay, f) && 1 <= k < |f.frags| && Mid(rx, f.ts)
    requires rx.prevSeq == Some(SeqOf(f, k - 1))
    ensures var out := HandleAll(pt, depay, rx, Tail(pt, f, k)).framesOut;
      |out| > |rx.framesOut| && out[|rx.framesOut|].timestamp == f.ts
        && |out[|rx.framesOut|].data| == |rx.cur| + Left(depay, f, k)
    decreases |f.frags| - k, 1
  {
    var mid := BridgeStep(pt, depay, rx, f, k, Tail(pt, f, k + 1));
    FromFragment(pt, depay, mid, f, k);
  }

  /** A contiguous fragment `k` is taken in; the last one makes the frame. */
  lemma TakeFragment(pt: nat, depay: Depacketizer, mid: Rx, f: Sent, k: nat, rest: seq<Packet>)
    requires PlainType(pt) && WellCut(depay, f) && 1 <= k < |f.frags| && Mid(mid, f.ts)
    requires SeqOf(f, k) == Next16(mid.prevSeq.value)
    requires k == |f.frags| - 1 ==> rest == []
    ensures HandleAll(pt, depay, mid, [Plain(pt, f, k)] + rest) ==
            HandleAll(pt, depay, Handle(pt, depay, mid, Plain(pt, f, k)), rest)
    ensures Left(depay, f, k) == |Body(depay, f.frags[k])| + Left(depay, f, k + 1)
    ensures k == |f.frags| - 1 ==>
      var out := HandleAll(pt, depay, mid, [Plain(pt, f, k)] + rest).framesOut;
      |out| > |mid.framesOut| && out[|mid.framesOut|].timestamp == f.ts
        && |out[|mid.framesOut|].data| == |mid.cur| + Left(depay, f, k)
  {
    HandleCons(pt, depay, mid, Plain(pt, f, k), rest);
    PlainStep(pt, depay, mid, f, k);
    LeftNext(depay, f, k);
  }

  /** Fragment `k`, made contiguous, and everything after it. */
  lemma {:induction false} FromFragment(pt: nat, depay: Depacketizer, mid: Rx, f: Sent, k: nat)
    requires PlainType(pt) && WellCut(depay, f) && 1 <= k < |f.frags| && Mid(mid, f.ts)
    requires SeqOf(f, k) == Next16(mid.prevSeq.value)
    ensures var out := HandleAll(pt, depay, mid, [Plain(pt, f, k)] + Tail(pt, f, k + 1)).framesOut;
      |out| > |mid.framesOut| && out[|mid.framesOut|].timestamp == f.ts
        && |out[|mid.framesOut|].data| == |mid.cur| + Left(depay, f, k)
    decreases |f.frags| - k, 0
  {
    TakeFragment(pt, depay, mid, f, k, Tail(pt, f, k + 1));
    if k < |f.frags| - 1 {
      PlainStep(pt, depay, mid, f, k);
      TailEmits(pt, depay, Handle(pt, depay, mid, Plain(pt, f, k)), f, k + 1);
    }
  }

  // ---------------------------------------------------------------- a delivery that tears

  /** The first fragment, the packet at `p`, then fragment `i` on: what lies between is lost. */
  function Skipping(pt: nat, f: Sent, i: nat, p: nat): seq<Packet>
    requires 1 <= i < |f.frags| == |f.at|
  {
    [Plain(pt, f, 0)] + ([Fore(p)] + ([Plain(pt, f, i)] + Tail(pt, f, i + 1)))
  }

  /** The packet at `p` and the second fragment come twice. */
  function Repeating(pt: nat, f: Sent, p: nat): seq<Packet>
    requires 2 <= |f.frags| == |f.at|
  {
    [Plain(pt, f, 0)] + ([Fore(p)] + ([Plain(pt, f, 1)] + ([Fore(p)] + ([Plain(pt, f, 1)] + Tail(pt, f, 2)))))
  }

  lemma NotWhole(depay: Depacketizer, sent: seq<Sent>, j: nat, out: VideoFrame)
    requires AllWellCut(depay, sent) && j < |sent| && out.timestamp == sent[j].ts
             && |out.data| != |Data(depay, sent[j])|
    ensures !WholeFrame(depay, sent, out)
  {}

  /** After the first fragment and the packet at `p`. */
  lemma AfterFore(pt: nat, depay: Depacketizer, f: Sent, p: nat, rest: seq<Packet>) returns (mid: Rx)
    requires PlainType(pt) && WellCut(depay, f) && |f.frags| > 1
    ensures HandleAll(pt, depay, FRESH, [Plain(pt, f, 0)] + ([Fore(p)] + rest)) == HandleAll(pt, depay, mid, rest)
    ensures Mid(mid, f.ts) && mid.cur == Body(depay, f.frags[0]) && mid.prevSeq == Some(p % TWO_16)
    ensures mid.framesOut == []
  {
    var rx := Handle(pt, depay, FRESH, Plain(pt, f, 0));
    FirstStep(pt, depay, f);
    ForeStep(pt, depay, rx, f.ts, p);
    mid := Handle(pt, depay, rx, Fore(p));
    HandleCons(pt, depay, FRESH, Plain(pt, f, 0), [Fore(p)] + rest);
    HandleCons(pt, depay, rx, Fore(p), rest);
  }

  lemma {:induction false} LeftFalls(depay: Depacketizer, f: Sent, i: nat)
    requires 2 <= i < |f.frags| && forall k | 0 <= k < |f.frags| :: Body(depay, f.frags[k]) != []
    ensures Left(depay, f, i) < Left(depay, f, 1)
    decreases i
  {
    LeftNext(depay, f, i - 1);
    if i > 2 {
      LeftFalls(depay, f, i - 1);
    }
  }

  lemma WholeIsFirstAndRest(depay: Depacketizer, f: Sent)
    requires 1 <= |f.frags|
    ensures |Data(depay, f)| == |Body(depay, f.frags[0])| + Left(depay, f, 1)
  {
    LeftNext(depay, f, 0);
    assert f.frags[..0] == [];
  }

  lemma SkippingTears(pt: nat, depay: Depacketizer, sent: seq<Sent>, j: nat, i: nat, p: nat)
    requires PlainType(pt) && AllWellCut(depay, sent) && NoEmptyFragment(depay, sent) && j < |sent|
    requires 2 <= i < |sent[j].frags|
    requires Before(p, sent[j], i)
    ensures !OnlyWhole(pt, depay, sent, Skipping(pt, sent[j], i, p))
  {
    var f := sent[j];
    var rest := [Plain(pt, f, i)] + Tail(pt, f, i + 1);
    var mid := AfterFore(pt, depay, f, p, rest);
    FromFragment(pt, depay, mid, f, i);
    var out := HandleAll(pt, depay, FRESH, Skipping(pt, f, i, p)).framesOut;
    assert out == HandleAll(pt, depay, mid, rest).framesOut;
    LeftFalls(depay, f, i);
    WholeIsFirstAndRest(depay, f);
    NotWhole(depay, sent, j, out[0]);
    assert out[0] in out;
  }

  lemma RepeatingTears(pt: nat, depay: Depacketizer, sent: seq<Sent>, j: nat, p: nat)
    requires PlainType(pt) && AllWellCut(depay, sent) && NoEmptyFragment(depay, sent) && j < |sent|
    requires 3 <= |sent[j].frags|
    requires Before(p, sent[j], 1)
    ensures !OnlyWhole(pt, depay, sent, Repeating(pt, sent[j], p))
  {
    var f := sent[j];
    var end := [Plain(pt, f, 1)] + Tail(pt, f, 2);
    var mid := AfterFore(pt, depay, f, p, [Plain(pt, f, 1)] + ([Fore(p)] + end));
    var rx1 := Handle(pt, depay, mid, Plain(pt, f, 1));
    PlainStep(pt, depay, mid, f, 1);
    HandleCons(pt, depay, mid, Plain(pt, f, 1), [Fore(p)] + end);
    var rx2 := Handle(pt, depay, rx1, Fore(p));
    ForeStep(pt, depay, rx1, f.ts, p);
    HandleCons(pt, depay, rx1, Fore(p), end);
    FromFragment(pt, depay, rx2, f, 1);
    var out := HandleAll(pt, depay, FRESH, Repeating(pt, f, p)).framesOut;
    assert out == HandleAll(pt, depay, rx2, end).framesOut;
    WholeIsFirstAndRest(depay, f);
    NotWhole(depay, sent, j, out[0]);
    assert out[0] in out;
  }

  // ---------------------------------------------------------------- they are deliveries

  /** A packet of the sender's: an error-correction packet, or fragment `k` or a later one of `f`. */
  ghost predicate FromHere(pt: nat, f: Sent, fore: set<nat>, k: nat, x: Packet)
    requires |f.frags| == |f.at|
  {
    || (exists p :: p in fore && x == Fore(p))
    || (exists m: nat :: k <= m < |f.frags| && x == Plain(pt, f, m))
  }

  lemma {:induction false} TailFromHere(pt: nat, sent: seq<Sent>, fore: set<nat>, j: nat, k: nat, x: Packet)
    requires j < |sent| && 1 <= k <= |sent[j].frags| == |sent[j].at| && Gapless(sent, fore) && Rising(sent[j].at)
    requires x in Tail(pt, sent[j], k)
    ensures FromHere(pt, sent[j], fore, k, x)
    decreases |sent[j].frags| - k
  {
    var f := sent[j];
    if x in Bridge(f, k) {
      RisingFrom(f.at, k - 1, k);
      assert f.at[k] - 1 in fore;
    } else if x != Plain(pt, f, k) {
      TailFromHere(pt, sent, fore, j, k + 1, x);
    }
  }

  lemma FromHereIsSent(pt: nat, sent: seq<Sent>, fore: set<nat>, j: nat, k: nat, x: Packet)
    requires PlainType(pt) && j < |sent| && |sent[j].frags| == |sent[j].at| && FromHere(pt, sent[j], fore, k, x)
    ensures IsSent(pt, sent, fore, x)
  {
    if p :| p in fore && x == Fore(p) {
      assert RoleOf(pt, x) == Foreign && x.seqNo == p % TWO_16;
    } else {
      var m: nat :| k <= m < |sent[j].frags| && x == Plain(pt, sent[j], m);
      assert Carries(pt, x, sent[j], m);
    }
  }

  /** A plain packet carries its own fragment and no other. */
  lemma CarriesOwn(pt: nat, depay: Depacketizer, sent: seq<Sent>, j: nat, m: nat, k: nat, i: nat)
    requires PlainType(pt) && AllWellCut(depay, sent) && j < |sent| && m < |sent[j].frags| && k < |sent|
    requires Carries(pt, Plain(pt, sent[j], m), sent[k], i)
    ensures k == j && i == m
  {
    var f := sent[j];
    assert WellCut(depay, f) && k == j;
    RisingFrom(f.at, 0, i);
    RisingFrom(f.at, i, |f.at| - 1);
    RisingFrom(f.at, 0, m);
    RisingFrom(f.at, m, |f.at| - 1);
    SameResidue(f.at[i], f.at[m]);
    RisingFrom(f.at, if i < m then i else m, if i < m then m else i);
  }

  /** Fragment `m` and whatever comes from later fragments are different fragments. */
  lemma NotSame(pt: nat, depay: Depacketizer, sent: seq<Sent>, fore: set<nat>, j: nat, m: nat, x: Packet)
    requires PlainType(pt) && AllWellCut(depay, sent) && j < |sent| && m < |sent[j].frags| && WellCut(depay, sent[j])
    requires FromHere(pt, sent[j], fore, m + 1, x)
    ensures !SameFragment(pt, sent, Plain(pt, sent[j], m), x)
  {
    forall k: nat, i: nat | k < |sent| && Carries(pt, Plain(pt, sent[j], m), sent[k], i)
      ensures !Carries(pt, x, sent[k], i) {
      CarriesOwn(pt, depay, sent, j, m, k, i);
      if n: nat :| m + 1 <= n < |sent[j].frags| && x == Plain(pt, sent[j], n) {
        forall l: nat | Carries(pt, x, sent[k], l) ensures l == n { CarriesOwn(pt, depay, sent, j, n, k, l); }
      }
    }
  }

  lemma OnceCons(pt: nat, sent: seq<Sent>, a: Packet, rest: seq<Packet>)
    requires Once(pt, sent, rest) && forall x | x in rest :: !SameFragment(pt, sent, a, x)
    ensures Once(pt, sent, [a] + rest)
  {
    var all := [a] + rest;
    forall x, y | 0 <= x < y < |all| ensures !SameFragment(pt, sent, all[x], all[y]) {
      if x > 0 {
        assert all[x] == rest[x - 1] && all[y] == rest[y - 1];
      }
    }
  }

  lemma ForeOnce(pt: nat, sent: seq<Sent>, p: nat, rest: seq<Packet>)
    requires PlainType(pt) && Once(pt, sent, rest)
    ensures Once(pt, sent, [Fore(p)] + rest)
  {
    OnceCons(pt, sent, Fore(p), rest);
  }

  lemma PlainOnce(pt: nat, depay: Depacketizer, sent: seq<Sent>, fore: set<nat>, j: nat, m: nat, rest: seq<Packet>)
    requires PlainType(pt) && AllWellCut(depay, sent) && j < |sent| && WellCut(depay, sent[j]) && m < |sent[j].frags|
    requires Once(pt, sent, rest) && forall x | x in rest :: FromHere(pt, sent[j], fore, m + 1, x)
    ensures Once(pt, sent, [Plain(pt, sent[j], m)] + rest)
  {
    forall x | x in rest ensures !SameFragment(pt, sent, Plain(pt, sent[j], m), x) {
      NotSame(pt, depay, sent, fore, j, m, x);
    }
    OnceCons(pt, sent, Plain(pt, sent[j], m), rest);
  }

  lemma {:induction false} TailOnce(pt: nat, depay: Depacketizer, sent: seq<Sent>, fore: set<nat>, j: nat, k: nat)
    requires PlainType(pt) && AllWellCut(depay, sent) && Gapless(sent, fore) && j < |sent| && WellCut(depay, sent[j])
    requires 1 <= k <= |sent[j].frags|
    ensures Once(pt, sent, Tail(pt, sent[j], k))
    decreases |sent[j].frags| - k
  {
    var f := sent[j];
    if k < |f.frags| {
      var rest := Tail(pt, f, k + 1);
      TailOnce(pt, depay, sent, fore, j, k + 1);
      forall x | x in rest ensures FromHere(pt, f, fore, k + 1, x) { TailFromHere(pt, sent, fore, j, k + 1, x); }
      PlainOnce(pt, depay, sent, fore, j, k, rest);
      if Bridge(f, k) == [] {
        assert Tail(pt, f, k) == [Plain(pt, f, k)] + rest;
      } else {
        ForeOnce(pt, sent, f.at[k] - 1, [Plain(pt, f, k)] + rest);
        assert Tail(pt, f, k) == [Fore(f.at[k] - 1)] + ([Plain(pt, f, k)] + rest);
      }
    }
  }

  /** The delivery that skips fragments repeats none, so any network may make it. */
  lemma SkippingDelivered(repeats: bool, pt: nat, depay: Depacketizer, sent: seq<Sent>, fore: set<nat>, j: nat, i: nat,
                          p: nat)
    requires PlainType(pt) && AllWellCut(depay, sent) && Gapless(sent, fore) && j < |sent| && 1 <= i < |sent[j].frags|
    requires p in fore
    requires WellCut(depay, sent[j])
    ensures Delivery(repeats, pt, sent, fore, Skipping(pt, sent[j], i, p))
  {
    var f, pkts := sent[j], Skipping(pt, sent[j], i, p);
    var tail := Tail(pt, f, i + 1);
    forall x | x in tail ensures FromHere(pt, f, fore, i + 1, x) { TailFromHere(pt, sent, fore, j, i + 1, x); }
    TailOnce(pt, depay, sent, fore, j, i + 1);
    PlainOnce(pt, depay, sent, fore, j, i, tail);
    var late := [Plain(pt, f, i)] + tail;
    forall x | x in late ensures FromHere(pt, f, fore, 1, x) {
      if x in tail { assert FromHere(pt, f, fore, i + 1, x); }
    }
    ForeOnce(pt, sent, p, late);
    PlainOnce(pt, depay, sent, fore, j, 0, [Fore(p)] + late);
    forall x | x in pkts ensures IsSent(pt, sent, fore, x) {
      assert FromHere(pt, f, fore, 0, x) by {
        if x in [Fore(p)] + late && x != Fore(p) { assert FromHere(pt, f, fore, 1, x); }
      }
      FromHereIsSent(pt, sent, fore, j, 0, x);
    }
  }

  lemma RepeatingDelivered(pt: nat, depay: Depacketizer, sent: seq<Sent>, fore: set<nat>, j: nat, p: nat)
    requires PlainType(pt) && AllWellCut(depay, sent) && Gapless(sent, fore) && j < |sent| && 3 <= |sent[j].frags|
    requires p in fore
    requires WellCut(depay, sent[j])
    ensures Delivery(true, pt, sent, fore, Repeating(pt, sent[j], p))
  {
    var f := sent[j];
    forall x | x in Repeating(pt, f, p) ensures IsSent(pt, sent, fore, x) {
      if x in Tail(pt, f, 2) {
        TailFromHere(pt, sent, fore, j, 2, x);
        FromHereIsSent(pt, sent, fore, j, 2, x);
      } else {
        assert x == Plain(pt, f, 0) || x == Fore(p) || x == Plain(pt, f, 1);
        FromHereIsSent(pt, sent, fore, j, 0, x);
      }
    }
  }

  // ---------------------------------------------------------------- exactly when

  /**
   * Every delivery of what was sent yields only whole frames exactly if no error-correction packet stands
   * immediately before the third or a later fragment of a frame; on a network that repeats packets, nor before the
   * second of three or more.
   */
  lemma WholeFramesIff(repeats: bool, pt: nat, depay: Depacketizer, sent: seq<Sent>, fore: set<nat>)
    requires PlainType(pt) && AllWellCut(depay, sent) && Gapless(sent, fore) && NoEmptyFragment(depay, sent)
    ensures (forall pkts: seq<Packet> | Delivery(repeats, pt, sent, fore, pkts) ::
            OnlyWhole(pt, depay, sent, pkts)) <==>
            Clear(repeats, sent, fore)
  {
    if Clear(repeats, sent, fore) {
      forall pkts: seq<Packet> | Delivery(repeats, pt, sent, fore, pkts) ensures OnlyWhole(pt, depay, sent, pkts) {
        NoTornFrameFromStart(repeats, pt, depay, sent, fore, pkts);
      }
    } else {
      var j: nat, i: nat, p :| j < |sent| && i < |sent[j].at| && p in fore && Before(p, sent[j], i)
                               && i != 0 && !(i == 1 && (!repeats || |sent[j].at| < 3));
      assert WellCut(depay, sent[j]);
      if i >= 2 {
        SkippingDelivered(repeats, pt, depay, sent, fore, j, i, p);
        SkippingTears(pt, depay, sent, j, i, p);
      } else {
        RepeatingDelivered(pt, depay, sent, fore, j, p);
        RepeatingTears(pt, depay, sent, j, p);
      }
    }
  }

  // ---------------------------------------------------------------- an example

  /** A toy payload format: first byte S, the rest is data. */
  function ToyDepay(p: seq<Byte>): Option<Vp8> {
    if p == [] then None else Some(Vp8(p[0], 0, p[1..]))
  }

  const TORN := Sent(7, [[1, 10], [0, 11], [0, 12]], [0, 1, 3])
  const ARRIVED := [
    Packet(108, 0, 7, 5, false, [], [1, 10]),
    Packet(120, 2, 7, 5, false, [], [122]),
    Packet(108, 3, 7, 5, true, [], [0, 12])]

  lemma TornIsSent()
    ensures WellCut(ToyDepay, TORN) && Gapless([TORN], {2})
    ensures Carries(108, ARRIVED[0], TORN, 0) && Carries(108, ARRIVED[2], TORN, 2) && RoleOf(108, ARRIVED[1]) == Foreign
  {
    assert |TORN.frags| == 3 && TORN.at[2] == 3;
  }

  lemma TornDelivered()
    ensures Delivery(false, 108, [TORN], {2}, ARRIVED)
  {
    TornIsSent();
    assert [TORN][0] == TORN && 2 in {2} && 2 % TWO_16 == 2;
    assert forall x | 0 <= x < |ARRIVED| :: IsSent(108, [TORN], {2}, ARRIVED[x]);
    assert forall i | 0 <= i < 3 :: Carries(108, ARRIVED[0], TORN, i) ==> i == 0;
    assert forall i | 0 <= i < 3 :: Carries(108, ARRIVED[2], TORN, i) ==> i == 2;
  }

  /** Four packets are sent with numbers 0 to 3, the third of them error correction; the second is lost. */
  lemma TornByErrorCorrection()
    ensures WellCut(ToyDepay, TORN) && Gapless([TORN], {2}) && Delivery(false, 108, [TORN], {2}, ARRIVED)
    ensures HandleAll(108, ToyDepay, FRESH, ARRIVED).framesOut == [VideoFrame([10, 12], 7, true, 0)]
    ensures Data(ToyDepay, TORN) == [10, 11, 12]
  {
    TornIsSent();
    TornDelivered();
    TornData();
    TornHead();
  }

  lemma TornHead()
    ensures HandleAll(108, ToyDepay, FRESH, ARRIVED).framesOut == [VideoFrame([10, 12], 7, true, 0)]
  {
    var rx1 := Handle(108, ToyDepay, FRESH, ARRIVED[0]);
    assert rx1 == FRESH.(ssrc := Some(5), prevSeq := Some(0), cur := [10], curTs := 7, assembling := true,
                         packets := 1);
    TornTail(rx1);
    assert ARRIVED[1..] == [ARRIVED[1], ARRIVED[2]];
  }

  lemma TornTail(rx: Rx)
    requires rx == FRESH.(ssrc := Some(5), prevSeq := Some(0), cur := [10], curTs := 7, assembling := true,
                          packets := 1)
    ensures HandleAll(108, ToyDepay, rx, [ARRIVED[1], ARRIVED[2]]).framesOut == [VideoFrame([10, 12], 7, true, 0)]
  {
    var fec, last := ARRIVED[1], ARRIVED[2];
    var rx2 := Handle(108, ToyDepay, rx, fec);
    assert rx2 == rx.(prevSeq := Some(2), packets := 2);
    var rx3 := Handle(108, ToyDepay, rx2, last);
    assert rx3.framesOut == [VideoFrame([10] + [12], 7, true, 0)];
    assert [10] + [12] == [10, 12];
    HandleCons(108, ToyDepay, rx, fec, [last]);
    HandleCons(108, ToyDepay, rx2, last, []);
    assert [fec] + [last] == [fec, last] && [last] + [] == [last];
  }

  lemma TornData()
    ensures Data(ToyDepay, TORN) == [10, 11, 12]
  {
    var frags := TORN.frags;
    var none: seq<seq<Byte>> := [];
    assert frags[..2][..1] == [frags[0]] && [frags[0]][..0] == none;
    assert Joined(ToyDepay, [frags[0]]) == [10];
    assert Joined(ToyDepay, frags[..2]) == [10, 11] by { assert frags[..2][..1] == [frags[0]]; }
  }
}
