/**
 * What the video receiver guarantees against a network that loses, repeats and reorders packets.
 */
module VideoSafety {
  import opened Options
  import opened Bytes
  import opened Machine
  import opened Red
  import opened Video

  // ---------------------------------------------------------------- what was sent

  /**
   * A frame as its sender cut it up: RTP timestamp, the VP8 payload of each packet, and each packet's place in
   * the sender's numbering, of which the wire carries the low 16 bits. Places between two fragments are taken by
   * error-correction packets.
   */
  datatype Sent = Sent(ts: nat, frags: seq<seq<Byte>>, at: seq<nat>)

  ghost predicate Rising(at: seq<nat>) { forall i, k | 0 <= i < k < |at| :: at[i] < at[k] }

  /** The contract of the VP8 payloader: every fragment parses, and only the first carries the start marks. */
  ghost predicate WellCut(depay: Depacketizer, f: Sent) {
    && |f.frags| >= 1 && |f.at| == |f.frags| && Rising(f.at) && f.at[|f.at| - 1] < f.at[0] + TWO_16
    && forall i | 0 <= i < |f.frags| :: depay(f.frags[i]).Some? && (depay(f.frags[i]).value.Start() <==> i == 0)
  }

  ghost predicate AllWellCut(depay: Depacketizer, sent: seq<Sent>) {
    && (forall j | 0 <= j < |sent| :: WellCut(depay, sent[j]))
    && (forall j, k | 0 <= j < k < |sent| :: sent[j].ts != sent[k].ts)
  }

  function SeqOf(f: Sent, i: nat): nat
    requires i < |f.at|
  {
    f.at[i] % TWO_16
  }

  ghost function Body(depay: Depacketizer, payload: seq<Byte>): seq<Byte> {
    if depay(payload).Some? then depay(payload).value.body else []
  }

  ghost function Joined(depay: Depacketizer, frags: seq<seq<Byte>>): seq<Byte> {
    if frags == [] then [] else Joined(depay, frags[..|frags| - 1]) + Body(depay, frags[|frags| - 1])
  }

  /** The encoded frame the fragments were cut from. */
  ghost function Data(depay: Depacketizer, f: Sent): seq<Byte> { Joined(depay, f.frags) }

  /** `pkt` carries fragment `i` of `f`: plain or behind RED, with any extensions. */
  ghost predicate Carries(pt: nat, pkt: Packet, f: Sent, i: nat) {
    && i < |f.frags| && i < |f.at| && RoleOf(pt, pkt) == Media(f.frags[i])
    && pkt.seqNo == SeqOf(f, i) && pkt.ts == f.ts && pkt.marker == (i == |f.frags| - 1)
  }

  /** A packet wrapped in RED, whatever redundancy comes with it, carries what the plain packet carries. */
  lemma RedCarries(pt: nat, plain: Packet, wrapped: Packet, blocks: seq<RedBlock>, f: Sent, i: nat)
    requires (forall b | b in blocks :: b.Valid()) && pt < 128 && pt != VP8_RTX_PAYLOAD_TYPE
    requires pt != VIDEO_RED_PAYLOAD_TYPE
    requires plain.pt == pt && Carries(pt, plain, f, i)
    requires wrapped == plain.(pt := VIDEO_RED_PAYLOAD_TYPE, payload := Wrap(blocks, pt, plain.payload))
    ensures Carries(pt, wrapped, f, i)
  {
    PrimaryOfWrap(blocks, pt, plain.payload);
  }

  // ---------------------------------------------------------------- what arrives

  /**
   * Something the sender sent: a fragment, an error-correction packet at one of its places, or another track's packet.
   */
  ghost predicate IsSent(pt: nat, sent: seq<Sent>, fore: set<nat>, pkt: Packet) {
    || RoleOf(pt, pkt).Ignored?
    || (exists j: nat, i: nat :: j < |sent| && Carries(pt, pkt, sent[j], i))
    || (RoleOf(pt, pkt).Foreign? && exists p :: p in fore && pkt.seqNo == p % TWO_16)
  }

  ghost predicate SameFragment(pt: nat, sent: seq<Sent>, a: Packet, b: Packet) {
    exists j: nat, i: nat :: j < |sent| && Carries(pt, a, sent[j], i) && Carries(pt, b, sent[j], i)
  }

  /** No fragment arrives twice. */
  ghost predicate Once(pt: nat, sent: seq<Sent>, pkts: seq<Packet>) {
    forall x, y | 0 <= x < y < |pkts| :: !SameFragment(pt, sent, pkts[x], pkts[y])
  }

  /** What a network makes of the sent packets: any of them, in any order, and more than once only if it `repeats`. */
  ghost predicate Delivery(repeats: bool, pt: nat, sent: seq<Sent>, fore: set<nat>, pkts: seq<Packet>) {
    (forall x | 0 <= x < |pkts| :: IsSent(pt, sent, fore, pkts[x])) && (repeats || Once(pt, sent, pkts))
  }

  /** Place `p` stands immediately before fragment `i`, as far as 16 bits tell. */
  predicate Before(p: nat, f: Sent, i: nat)
    requires i < |f.at|
  {
    Next16(p % TWO_16) == SeqOf(f, i)
  }

  /**
   * No error-correction packet stands immediately before a fragment that could then follow the wrong one: the
   * third or a later fragment, and on a network that repeats packets also the second of three or more.
   */
  ghost predicate Clear(repeats: bool, sent: seq<Sent>, fore: set<nat>) {
    forall j: nat, i: nat, p | j < |sent| && i < |sent[j].at| && p in fore && Before(p, sent[j], i) ::
      i == 0 || (i == 1 && (!repeats || |sent[j].at| < 3))
  }

  // ---------------------------------------------------------------- no torn frame

  ghost predicate Delivered(pt: nat, past: seq<Packet>, f: Sent, i: nat) {
    exists x :: x in past && Carries(pt, x, f, i)
  }

  /** The receiver holds exactly the first `n` fragments of frame `j` and can only be continued by fragment `n`. */
  ghost predicate Intact(repeats: bool, pt: nat, depay: Depacketizer, sent: seq<Sent>, rx: Rx, past: seq<Packet>,
                         j: nat, n: nat) {
    && j < |sent| && 1 <= n < |sent[j].frags| == |sent[j].at|
    && rx.cur == Joined(depay, sent[j].frags[..n]) && rx.curTs == sent[j].ts
    && Awaits(repeats, rx.prevSeq, sent[j], n) && (n > 1 ==> Delivered(pt, past, sent[j], 1))
  }

  /**
   * After `prevSeq`, of all later fragments only fragment `n` would count as contiguous; or the second, already used
   * up.
   */
  ghost predicate Awaits(repeats: bool, prevSeq: Option<nat>, f: Sent, n: nat) {
    prevSeq.Some? && forall i: nat | 1 <= i < |f.at| && SeqOf(f, i) == Next16(prevSeq.value) ::
        i == n || (!repeats && i == 1)
  }

  ghost predicate WholeFrame(depay: Depacketizer, sent: seq<Sent>, out: VideoFrame) {
    exists j :: 0 <= j < |sent| && out.data == Data(depay, sent[j]) && out.timestamp == sent[j].ts
                && (out.keyframe <==> out.data != [] && out.data[0] % 2 == 0)
  }

  ghost predicate Sound(repeats: bool, pt: nat, depay: Depacketizer, sent: seq<Sent>, rx: Rx, past: seq<Packet>) {
    && (forall i | 0 <= i < |rx.framesOut| :: WholeFrame(depay, sent, rx.framesOut[i]))
    && (rx.assembling && !rx.broken ==> exists j: nat, n: nat :: Intact(repeats, pt, depay, sent, rx, past, j, n))
    && (!rx.assembling ==> rx.cur == [])
  }

  lemma JoinedSnoc(depay: Depacketizer, frags: seq<seq<Byte>>, n: nat)
    requires n < |frags|
    ensures Joined(depay, frags[..n + 1]) == Joined(depay, frags[..n]) + Body(depay, frags[n])
  {
    assert frags[..n + 1][..n] == frags[..n];
  }

  lemma SameResidue(a: nat, b: nat)
    requires a % TWO_16 == b % TWO_16 && a < b + TWO_16 && b < a + TWO_16
    ensures a == b
  {
  }

  /** A span below 65536: the 16 bits tell the fragments apart. */
  lemma AwaitsNext(repeats: bool, depay: Depacketizer, f: Sent, n: nat)
    requires WellCut(depay, f) && 1 <= n <= |f.frags|
    ensures Awaits(repeats, Some(SeqOf(f, n - 1)), f, n)
  {
    forall i: nat | 1 <= i < |f.at| && SeqOf(f, i) == Next16(SeqOf(f, n - 1)) ensures i == n {
      RisingFrom(f.at, 0, i);
      RisingFrom(f.at, i, |f.at| - 1);
      RisingFrom(f.at, 0, n - 1);
      RisingFrom(f.at, n - 1, |f.at| - 1);
      SameResidue(f.at[i], f.at[n - 1] + 1);
      NextPlace(f.at, n - 1, i);
    }
  }

  lemma RisingFrom(at: seq<nat>, i: nat, k: nat)
    requires Rising(at) && i <= k < |at|
    ensures at[i] + (if i < k then 1 else 0) <= at[k]
  {}

  lemma NextPlace(at: seq<nat>, k: nat, i: nat)
    requires Rising(at) && k < |at| && i < |at| && at[i] == at[k] + 1
    ensures i == k + 1
  {
    RisingFrom(at, if i <= k then i else k, if i <= k then k else i);
    RisingFrom(at, k, k + 1);
    RisingFrom(at, k + 1, i);
  }

  /** A first fragment: whatever was in hand is given up, and the new frame is in hand. */
  lemma StartSound(repeats: bool, pt: nat, depay: Depacketizer, sent: seq<Sent>, rx: Rx, past: seq<Packet>,
                   pkt: Packet, j: nat)
    requires AllWellCut(depay, sent) && Sound(repeats, pt, depay, sent, rx, past) && j < |sent|
    requires Carries(pt, pkt, sent[j], 0)
    ensures Sound(repeats, pt, depay, sent, Accept(rx, pkt, depay(sent[j].frags[0])), past + [pkt])
  {
    var f := sent[j];
    assert WellCut(depay, f);
    var rx' := Accept(rx, pkt, depay(f.frags[0]));
    JoinedSnoc(depay, f.frags, 0);
    assert f.frags[..0] == [] && Joined(depay, f.frags[..1]) == [] + Body(depay, f.frags[0]);
    if pkt.marker {
      assert f.frags[..1] == f.frags;
      assert WholeFrame(depay, sent, rx'.framesOut[|rx.framesOut|]);
    } else {
      AwaitsNext(repeats, depay, f, 1);
      assert Intact(repeats, pt, depay, sent, rx', past + [pkt], j, 1);
    }
  }

  /** A later fragment: it continues the frame in hand only if it is the right one. */
  lemma ContinueSound(repeats: bool, pt: nat, depay: Depacketizer, sent: seq<Sent>, rx: Rx, past: seq<Packet>,
                      pkt: Packet, j: nat, i: nat)
    requires AllWellCut(depay, sent) && Sound(repeats, pt, depay, sent, rx, past) && j < |sent|
    requires i > 0 && Carries(pt, pkt, sent[j], i) && (repeats || !Delivered(pt, past, sent[j], i))
    ensures Sound(repeats, pt, depay, sent, Accept(rx, pkt, depay(sent[j].frags[i])), past + [pkt])
  {
    var f := sent[j];
    assert WellCut(depay, f);
    if rx.assembling && !rx.broken && Contiguous(rx, pkt.seqNo) && pkt.ts == rx.curTs {
      var k: nat, n: nat :| Intact(repeats, pt, depay, sent, rx, past, k, n);
      assert k == j && SeqOf(f, i) == Next16(rx.prevSeq.value);
      assert i == n;
      ExtendSound(repeats, pt, depay, sent, rx, past, pkt, j, n);
    }
  }

  lemma ExtendSound(repeats: bool, pt: nat, depay: Depacketizer, sent: seq<Sent>, rx: Rx, past: seq<Packet>,
                    pkt: Packet, j: nat, n: nat)
    requires AllWellCut(depay, sent) && Sound(repeats, pt, depay, sent, rx, past)
    requires Intact(repeats, pt, depay, sent, rx, past, j, n)
    requires Carries(pt, pkt, sent[j], n) && rx.assembling && !rx.broken && Contiguous(rx, pkt.seqNo)
    ensures Sound(repeats, pt, depay, sent, Accept(rx, pkt, depay(sent[j].frags[n])), past + [pkt])
  {
    var f := sent[j];
    assert WellCut(depay, f);
    var rx' := Accept(rx, pkt, depay(f.frags[n]));
    JoinedSnoc(depay, f.frags, n);
    assert rx'.cur == if pkt.marker then [] else Joined(depay, f.frags[..n + 1]);
    if pkt.marker {
      assert f.frags[..n + 1] == f.frags;
      assert WholeFrame(depay, sent, rx'.framesOut[|rx.framesOut|]);
    } else {
      AwaitsNext(repeats, depay, f, n + 1);
      DeliveredGrows(pt, past, pkt, f, n);
      assert Intact(repeats, pt, depay, sent, rx', past + [pkt], j, n + 1);
    }
  }

  lemma DeliveredGrows(pt: nat, past: seq<Packet>, pkt: Packet, f: Sent, n: nat)
    requires n >= 1 && (n == 1 ==> Carries(pt, pkt, f, 1)) && (n > 1 ==> Delivered(pt, past, f, 1))
    ensures Delivered(pt, past + [pkt], f, 1)
  {
    if n == 1 {
      assert pkt in past + [pkt];
    } else {
      var x :| x in past && Carries(pt, x, f, 1);
      assert x in past + [pkt];
    }
  }

  /** Fields that say nothing about the frame in hand may change, and time goes on. */
  lemma RelabelSound(repeats: bool, pt: nat, depay: Depacketizer, sent: seq<Sent>, rx: Rx, past: seq<Packet>, rx': Rx,
                     past': seq<Packet>)
    requires Sound(repeats, pt, depay, sent, rx, past) && past <= past'
    requires rx' == rx.(ssrc := rx'.ssrc, packets := rx'.packets, rotation := rx'.rotation)
    ensures Sound(repeats, pt, depay, sent, rx', past')
  {
    if rx.assembling && !rx.broken {
      var j: nat, n: nat :| Intact(repeats, pt, depay, sent, rx, past, j, n);
      if n > 1 {
        var x :| x in past && Carries(pt, x, sent[j], 1);
        assert x in past';
      }
      assert Intact(repeats, pt, depay, sent, rx', past', j, n);
    }
  }

  /** An error-correction packet at a clear place leaves only the right fragment awaited. */
  lemma ForeignSound(repeats: bool, pt: nat, depay: Depacketizer, sent: seq<Sent>, fore: set<nat>, rx: Rx,
                     past: seq<Packet>, pkt: Packet, p: nat)
    requires Sound(repeats, pt, depay, sent, rx, past) && RoleOf(pt, pkt).Foreign? && Clear(repeats, sent, fore)
    requires p in fore && pkt.seqNo == p % TWO_16
    ensures Sound(repeats, pt, depay, sent, Handle(pt, depay, rx, pkt), past + [pkt])
  {
    var rx', mid := Handle(pt, depay, rx, pkt), rx.(ssrc := Lock(rx, pkt.ssrc));
    RelabelSound(repeats, pt, depay, sent, rx, past, mid, past + [pkt]);
    if rx.assembling && !rx.broken && mid.ssrc == Some(pkt.ssrc) {
      var j: nat, n: nat :| Intact(repeats, pt, depay, sent, mid, past + [pkt], j, n);
      forall i: nat | 1 <= i < |sent[j].at| && SeqOf(sent[j], i) == Next16(pkt.seqNo)
        ensures i == n || (!repeats && i == 1)
      {
        assert Before(p, sent[j], i);
      }
      assert Intact(repeats, pt, depay, sent, rx', past + [pkt], j, n);
    }
  }

  lemma StepSound(repeats: bool, pt: nat, depay: Depacketizer, sent: seq<Sent>, fore: set<nat>, rx: Rx,
                  past: seq<Packet>, pkt: Packet)
    requires AllWellCut(depay, sent) && Sound(repeats, pt, depay, sent, rx, past) && Clear(repeats, sent, fore)
    requires IsSent(pt, sent, fore, pkt)
    requires repeats || forall x | 0 <= x < |past| :: !SameFragment(pt, sent, past[x], pkt)
    ensures Sound(repeats, pt, depay, sent, Handle(pt, depay, rx, pkt), past + [pkt])
  {
    match RoleOf(pt, pkt)
    case Ignored => RelabelSound(repeats, pt, depay, sent, rx, past, rx, past + [pkt]);
    case Foreign =>
      var p :| p in fore && pkt.seqNo == p % TWO_16;
      ForeignSound(repeats, pt, depay, sent, fore, rx, past, pkt, p);
    case Media(payload) =>
      if Lock(rx, pkt.ssrc) != Some(pkt.ssrc) {
        RelabelSound(repeats, pt, depay, sent, rx, past, rx, past + [pkt]);
      } else {
        MediaSound(repeats, pt, depay, sent, fore, rx, past, pkt);
      }
  }

  lemma FirstCarrier(pt: nat, sent: seq<Sent>, past: seq<Packet>, pkt: Packet, j: nat, i: nat)
    requires j < |sent| && Carries(pt, pkt, sent[j], i)
    requires forall x | 0 <= x < |past| :: !SameFragment(pt, sent, past[x], pkt)
    ensures forall x | x in past :: !Carries(pt, x, sent[j], i)
  {
    forall x | x in past ensures !Carries(pt, x, sent[j], i) {
      var k :| 0 <= k < |past| && past[k] == x;
      assert !SameFragment(pt, sent, past[k], pkt);
    }
  }

  lemma MediaSound(repeats: bool, pt: nat, depay: Depacketizer, sent: seq<Sent>, fore: set<nat>, rx: Rx,
                   past: seq<Packet>, pkt: Packet)
    requires AllWellCut(depay, sent) && Sound(repeats, pt, depay, sent, rx, past)
    requires IsSent(pt, sent, fore, pkt) && RoleOf(pt, pkt).Media? && Lock(rx, pkt.ssrc) == Some(pkt.ssrc)
    requires repeats || forall x | 0 <= x < |past| :: !SameFragment(pt, sent, past[x], pkt)
    ensures Sound(repeats, pt, depay, sent, Handle(pt, depay, rx, pkt), past + [pkt])
  {
    var j: nat, i: nat :| j < |sent| && Carries(pt, pkt, sent[j], i);
    var rx' := Locked(rx, pkt);
    RelabelSound(repeats, pt, depay, sent, rx, past, rx', past);
    if i == 0 {
      StartSound(repeats, pt, depay, sent, rx', past, pkt, j);
    } else {
      if !repeats {
        FirstCarrier(pt, sent, past, pkt, j, i);
      }
      ContinueSound(repeats, pt, depay, sent, rx', past, pkt, j, i);
    }
  }

  /** `pkts` were sent, and without repetition none of `past` comes again. */
  ghost predicate Ahead(repeats: bool, pt: nat, sent: seq<Sent>, fore: set<nat>, past: seq<Packet>, pkts: seq<Packet>) {
    (forall x | 0 <= x < |pkts| :: IsSent(pt, sent, fore, pkts[x])) && (repeats || Once(pt, sent, past + pkts))
  }

  lemma AheadNext(repeats: bool, pt: nat, sent: seq<Sent>, fore: set<nat>, past: seq<Packet>, pkts: seq<Packet>)
    requires pkts != [] && Ahead(repeats, pt, sent, fore, past, pkts)
    ensures IsSent(pt, sent, fore, pkts[0])
    ensures repeats || forall x | 0 <= x < |past| :: !SameFragment(pt, sent, past[x], pkts[0])
    ensures Ahead(repeats, pt, sent, fore, past + [pkts[0]], pkts[1..])
    ensures past + pkts == past + [pkts[0]] + pkts[1..]
  {
    var all := past + pkts;
    assert forall x | 0 <= x < |past| :: all[x] == past[x] && all[|past|] == pkts[0];
    assert past + pkts == past + [pkts[0]] + pkts[1..];
  }

  /**
   * No torn frame: however the network loses, repeats, delays and reorders packets, every frame that
   * leaves the receiver is, byte for byte and with its timestamp, a frame that was sent.
   */
  lemma {:induction false} NoTornFrame(repeats: bool, pt: nat, depay: Depacketizer, sent: seq<Sent>, fore: set<nat>,
                                       rx: Rx, past: seq<Packet>, pkts: seq<Packet>)
    requires AllWellCut(depay, sent) && Clear(repeats, sent, fore) && Sound(repeats, pt, depay, sent, rx, past)
    requires Ahead(repeats, pt, sent, fore, past, pkts)
    ensures Sound(repeats, pt, depay, sent, HandleAll(pt, depay, rx, pkts), past + pkts)
    decreases |pkts|
  {
    if pkts == [] {
      assert past + pkts == past;
    } else {
      AheadNext(repeats, pt, sent, fore, past, pkts);
      StepSound(repeats, pt, depay, sent, fore, rx, past, pkts[0]);
      NoTornFrame(repeats, pt, depay, sent, fore, Handle(pt, depay, rx, pkts[0]), past + [pkts[0]], pkts[1..]);
    }
  }

  ghost predicate OnlyWhole(pt: nat, depay: Depacketizer, sent: seq<Sent>, pkts: seq<Packet>) {
    forall out | out in HandleAll(pt, depay, FRESH, pkts).framesOut :: WholeFrame(depay, sent, out)
  }

  /** In particular from the start. */
  lemma NoTornFrameFromStart(repeats: bool, pt: nat, depay: Depacketizer, sent: seq<Sent>, fore: set<nat>,
                             pkts: seq<Packet>)
    requires AllWellCut(depay, sent) && Clear(repeats, sent, fore) && Delivery(repeats, pt, sent, fore, pkts)
    ensures OnlyWhole(pt, depay, sent, pkts)
  {
    assert [] + pkts == pkts;
    NoTornFrame(repeats, pt, depay, sent, fore, FRESH, [], pkts);
  }
}
