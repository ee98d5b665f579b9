/**
 * The good case and the bad case of video delivery: a faithful network yields every frame; a lossy one
 * never hides that it lost something.
 */
module VideoDelivery {
  import opened Options
  import opened Bytes
  import opened Machine
  import opened Sequences
  import opened Red
  import opened Video
  import opened VideoSafety

  // ---------------------------------------------------------------- sending

  /** Consecutive places from `base` on. */
  function Places(base: nat, n: nat): seq<nat> { seq(n, i requires 0 <= i < n => base + i) }

  /** A frame whose packets take consecutive places. */
  function Cut(ts: nat, frags: seq<seq<Byte>>, base: nat): Sent { Sent(ts, frags, Places(base, |frags|)) }

  /** The orientation extension, if there is an orientation to tell. */
  function Orientation(rotation: Option<nat>): seq<Extension> {
    if rotation.None? then [] else [Extension(VIDEO_ORIENTATION_EXT_ID, [rotation.value / 90 % 4])]
  }

  /** The packets of one frame, as the sender emits them. */
  ghost function PacketsOf(pt: nat, ssrc: nat, f: Sent, rotation: Option<nat>): (ps: seq<Packet>)
    requires |f.at| == |f.frags|
    ensures |ps| == |f.frags|
  {
    seq(|f.frags|, i requires 0 <= i < |f.frags| =>
      Packet(pt, SeqOf(f, i), f.ts, ssrc, i == |f.frags| - 1, Orientation(rotation), f.frags[i]))
  }

  ghost function Octets(frags: seq<seq<Byte>>): nat {
    if frags == [] then 0 else Octets(frags[..|frags| - 1]) + |frags[|frags| - 1]|
  }

  lemma OctetsSnoc(frags: seq<seq<Byte>>, i: nat)
    requires i < |frags|
    ensures Octets(frags[..i + 1]) == Octets(frags[..i]) + |frags[i]|
  {
    assert frags[..i + 1][..i] == frags[..i];
  }

  lemma PacketsSnoc(pt: nat, ssrc: nat, f: Sent, rotation: Option<nat>, i: nat)
    requires |f.at| == |f.frags| && i < |f.frags|
    ensures PacketsOf(pt, ssrc, f, rotation)[..i + 1] == PacketsOf(pt, ssrc, f, rotation)[..i]
            + [Packet(pt, SeqOf(f, i), f.ts, ssrc, i + 1 == |f.frags|, Orientation(rotation), f.frags[i])]
  {}

  lemma PacketsAll(pt: nat, ssrc: nat, f: Sent, rotation: Option<nat>)
    requires |f.at| == |f.frags|
    ensures PacketsOf(pt, ssrc, f, rotation)[..|f.frags|] == PacketsOf(pt, ssrc, f, rotation)
    ensures f.frags[..|f.frags|] == f.frags
  {}

  lemma CountOn(x: nat, y: nat, d: nat, m: nat)
    requires m > 0 && x == y % m
    ensures (x + d) % m == (y + d) % m
  {
    ModUnique(y + d, y / m + (x + d) / m, (x + d) % m, m);
  }

  /** The three counters after the fragments `frags`. */
  ghost predicate Counted(seqNo: nat, packets: nat, octets: nat, frags: seq<seq<Byte>>, seqNo': nat, packets': nat,
                          octets': nat) {
    && seqNo' == (seqNo + |frags|) % TWO_16 && packets' == (packets + |frags|) % TWO_32
    && octets' == (octets + Octets(frags)) % TWO_32
  }

  lemma CountersSnoc(seqNo: nat, packets: nat, octets: nat, frags: seq<seq<Byte>>, i: nat, seqNo': nat, packets': nat,
                     octets': nat)
    requires i < |frags| && Counted(seqNo, packets, octets, frags[..i], seqNo', packets', octets')
    ensures Counted(seqNo, packets, octets, frags[..i + 1], (seqNo' + 1) % TWO_16, (packets' + 1) % TWO_32,
                    (octets' + |frags[i]|) % TWO_32)
  {
    OctetsSnoc(frags, i);
    CountOn(seqNo', seqNo + i, 1, TWO_16);
    CountOn(packets', packets + i, 1, TWO_32);
    CountOn(octets', octets + Octets(frags[..i]), |frags[i]|, TWO_32);
  }

  class VideoSender {
    const pt: nat
    const ssrc: nat
    var seqNo: nat
    var txPackets: nat
    var txOctets: nat
    var txFrames: nat
    var lastTxTs: nat
    var txRotation: Option<nat>

    ghost predicate Valid()
      reads this
    {
      seqNo < TWO_16 && txPackets < TWO_32 && txOctets < TWO_32
    }

    constructor (pt: nat, ssrc: nat)
      ensures Valid() && seqNo == 1 && this.pt == pt && this.ssrc == ssrc && txRotation == None
    {
      this.pt, this.ssrc := pt, ssrc;
      seqNo, txPackets, txOctets, txFrames, lastTxTs, txRotation := 1, 0, 0, 0, 0, None;
    }

    method SetRotation(degrees: nat)
      modifies this`txRotation
      ensures txRotation == Some(degrees % 360)
    {
      txRotation := Some(degrees % 360);
    }

    /** One fragment goes out: its packet, and the counters. */
    method SendFragment(frag: seq<Byte>, ts: nat, marker: bool) returns (pkt: Packet)
      modifies this`seqNo, this`txPackets, this`txOctets
      ensures pkt == Packet(pt, old(seqNo), ts, ssrc, marker, Orientation(txRotation), frag)
      ensures seqNo == (old(seqNo) + 1) % TWO_16 && txPackets == (old(txPackets) + 1) % TWO_32
      ensures txOctets == (old(txOctets) + |frag|) % TWO_32
    {
      pkt := Packet(pt, seqNo, ts, ssrc, marker, Orientation(txRotation), frag);
      seqNo := (seqNo + 1) % TWO_16;
      txPackets := (txPackets + 1) % TWO_32;
      txOctets := (txOctets + |frag|) % TWO_32;
    }

    /** The fragments of one encoded frame become packets with consecutive sequence numbers. */
    method PayloadFrame(frags: seq<seq<Byte>>, ts: nat) returns (out: seq<Packet>)
      requires Valid()
      modifies this`seqNo, this`txPackets, this`txOctets, this`txFrames, this`lastTxTs
      ensures Valid() && out == PacketsOf(pt, ssrc, Cut(ts, frags, old(seqNo)), txRotation)
      ensures Counted(old(seqNo), old(txPackets), old(txOctets), frags, seqNo, txPackets, txOctets)
      ensures txFrames == old(txFrames) + 1 && lastTxTs == ts
    {
      out := [];
      ghost var f := Cut(ts, frags, seqNo);
      for i := 0 to |frags|
        invariant Counted(old(seqNo), old(txPackets), old(txOctets), frags[..i], seqNo, txPackets, txOctets)
        invariant txFrames == old(txFrames)
        invariant out == PacketsOf(pt, ssrc, f, txRotation)[..i]
      {
        PacketsSnoc(pt, ssrc, f, txRotation, i);
        CountersSnoc(old(seqNo), old(txPackets), old(txOctets), frags, i, seqNo, txPackets, txOctets);
        var pkt := SendFragment(frags[i], ts, i + 1 == |frags|);
        out := out + [pkt];
      }
      PacketsAll(pt, ssrc, f, txRotation);
      txFrames := txFrames + 1;
      lastTxTs := ts;
    }
  }

  // ---------------------------------------------------------------- a faithful network

  /** The frame a decoder should get: a key frame if the lowest bit of its first byte is clear. */
  ghost function Expected(depay: Depacketizer, f: Sent, rotation: nat): VideoFrame {
    var data := Data(depay, f);
    VideoFrame(data, f.ts, data != [] && data[0] % 2 == 0, rotation)
  }

  /**
   * `ps` brings fragments `n` and later of `f`, in order, each plain or behind RED and with any extensions, with
   * error-correction packets anywhere between them.
   */
  ghost predicate Sends(pt: nat, ssrc: nat, f: Sent, n: nat, ps: seq<Packet>)
    decreases |ps|
  {
    if ps == [] then n == |f.frags|
    else
      ps[0].ssrc == ssrc &&
      if RoleOf(pt, ps[0]).Foreign? then Sends(pt, ssrc, f, n, ps[1..])
      else n < |f.frags| && Carries(pt, ps[0], f, n) && Sends(pt, ssrc, f, n + 1, ps[1..])
  }

  /** Numbered without a gap from `s` on. */
  ghost predicate Consecutive(ps: seq<Packet>, s: nat) { forall k | 0 <= k < |ps| :: ps[k].seqNo == (s + k) % TWO_16 }

  /** The orientation after a run of packets: the last one a media packet told. */
  ghost function RotationOver(pt: nat, ps: seq<Packet>, rotation: nat): nat
    decreases |ps|
  {
    if ps == [] then rotation
    else RotationOver(pt, ps[1..], if RoleOf(pt, ps[0]).Media? then RotationAfter(ps[0].extensions, rotation)
        else rotation)
  }

  /** Between frames, and the next sequence number is `s`. */
  ghost predicate Idle(rx: Rx, ssrc: nat, s: nat) {
    && !rx.assembling && rx.cur == []
    && Lock(rx, ssrc) == Some(ssrc) && Contiguous(rx, s % TWO_16)
  }

  /** In the middle of `f`, its first `n` fragments having arrived. */
  ghost predicate Midway(depay: Depacketizer, rx: Rx, ssrc: nat, f: Sent, n: nat, s: nat) {
    && 1 <= n < |f.frags| && rx.assembling && !rx.broken
    && rx.cur == Joined(depay, f.frags[..n]) && rx.curTs == f.ts && rx.ssrc == Some(ssrc)
    && rx.prevSeq.Some? && Next16(rx.prevSeq.value) == s % TWO_16
  }

  ghost predicate Along(depay: Depacketizer, rx: Rx, ssrc: nat, f: Sent, n: nat, s: nat) {
    if n == 0 || n == |f.frags| then Idle(rx, ssrc, s) else Midway(depay, rx, ssrc, f, n, s)
  }

  lemma NextNumber(s: nat)
    ensures Next16(s % TWO_16) == (s + 1) % TWO_16
  {}

  lemma NextPacket(pt: nat, depay: Depacketizer, rx: Rx, ssrc: nat, f: Sent, n: nat, s: nat, pkt: Packet)
    requires WellCut(depay, f) && Along(depay, rx, ssrc, f, n, s) && n < |f.frags|
    requires Carries(pt, pkt, f, n) && pkt.ssrc == ssrc && pkt.seqNo == s % TWO_16
    ensures var rx' := Handle(pt, depay, rx, pkt);
      && rx'.loss == rx.loss && rx'.rotation == RotationAfter(pkt.extensions, rx.rotation)
      && Along(depay, rx', ssrc, f, n + 1, s + 1)
      && rx'.framesOut == rx.framesOut + if n + 1 == |f.frags| then [Expected(depay, f, rx'.rotation)] else []
  {
    JoinedSnoc(depay, f.frags, n);
    NextNumber(s);
    assert f.frags[..0] == [];
    assert n == 0 ==> Joined(depay, f.frags[..1]) == [] + Body(depay, f.frags[0]);
    assert n + 1 == |f.frags| ==> f.frags[..n + 1] == f.frags;
  }

  lemma NextForeign(pt: nat, depay: Depacketizer, rx: Rx, ssrc: nat, f: Sent, n: nat, s: nat, pkt: Packet)
    requires Along(depay, rx, ssrc, f, n, s) && RoleOf(pt, pkt).Foreign? && pkt.ssrc == ssrc && pkt.seqNo == s % TWO_16
    ensures var rx' := Handle(pt, depay, rx, pkt);
      Along(depay, rx', ssrc, f, n, s + 1) && rx'.loss == rx.loss && rx'.rotation == rx.rotation
          && rx'.framesOut == rx.framesOut
  {
    NextNumber(s);
  }

  lemma ConsecutiveTail(ps: seq<Packet>, s: nat)
    requires ps != [] && Consecutive(ps, s)
    ensures ps[0].seqNo == s % TWO_16 && Consecutive(ps[1..], s + 1)
  {
    assert forall k | 0 <= k < |ps[1..]| :: ps[1..][k] == ps[k + 1];
  }

  /**
   * Between frames again, at number `s`: if `n` fragments were in, the rest made the frame, with orientation
   * `rotation`.
   */
  ghost predicate Done(depay: Depacketizer, ssrc: nat, f: Sent, n: nat, s: nat, rx: Rx, rx': Rx, rotation: nat) {
    && Idle(rx', ssrc, s) && rx'.loss == rx.loss && rx'.rotation == rotation
        && (n == |f.frags| ==> rotation == rx.rotation)
    && rx'.framesOut == rx.framesOut + if n == |f.frags| then [] else [Expected(depay, f, rotation)]
  }

  lemma SendsCons(pt: nat, ssrc: nat, f: Sent, n: nat, ps: seq<Packet>)
    requires Sends(pt, ssrc, f, n, ps) && ps != []
    ensures ps[0].ssrc == ssrc && !RoleOf(pt, ps[0]).Ignored?
    ensures RoleOf(pt, ps[0]).Foreign? ==> Sends(pt, ssrc, f, n, ps[1..])
    ensures RoleOf(pt, ps[0]).Media? ==> n < |f.frags| && Carries(pt, ps[0], f, n) && Sends(pt, ssrc, f, n + 1, ps[1..])
  {}

  /** One packet further: fragment `n` came in, if `n1` is the next number, and otherwise error correction. */
  ghost predicate Stepped(depay: Depacketizer, f: Sent, n: nat, n1: nat, rx: Rx, rx1: Rx) {
    && n <= n1 <= n + 1 && n1 <= |f.frags| && rx1.loss == rx.loss && (n1 == n ==> rx1.rotation == rx.rotation)
    && rx1.framesOut == rx.framesOut + if n1 == |f.frags| > n then [Expected(depay, f, rx1.rotation)] else []
  }

  /** The first packet of a run, and what is left to do. */
  lemma TakeFirst(pt: nat, depay: Depacketizer, rx: Rx, ssrc: nat, f: Sent, n: nat, ps: seq<Packet>, s: nat)
    returns (rx1: Rx, n1: nat)
    requires WellCut(depay, f) && n <= |f.frags| && Along(depay, rx, ssrc, f, n, s) && Sends(pt, ssrc, f, n, ps)
    requires Consecutive(ps, s) && ps != []
    ensures Stepped(depay, f, n, n1, rx, rx1) && Along(depay, rx1, ssrc, f, n1, s + 1)
    ensures Sends(pt, ssrc, f, n1, ps[1..]) && Consecutive(ps[1..], s + 1)
    ensures HandleAll(pt, depay, rx, ps) == HandleAll(pt, depay, rx1, ps[1..])
    ensures RotationOver(pt, ps, rx.rotation) == RotationOver(pt, ps[1..], rx1.rotation)
  {
    ConsecutiveTail(ps, s);
    SendsCons(pt, ssrc, f, n, ps);
    rx1 := Handle(pt, depay, rx, ps[0]);
    if RoleOf(pt, ps[0]).Foreign? {
      n1 := n;
      NextForeign(pt, depay, rx, ssrc, f, n, s, ps[0]);
      assert rx.framesOut + [] == rx.framesOut;
    } else {
      n1 := n + 1;
      NextPacket(pt, depay, rx, ssrc, f, n, s, ps[0]);
    }
  }

  lemma SteppedDone(depay: Depacketizer, ssrc: nat, f: Sent, n: nat, n1: nat, end: nat, rx: Rx, rx1: Rx, rx': Rx,
                    rotation: nat)
    requires n <= |f.frags| && Stepped(depay, f, n, n1, rx, rx1) && Done(depay, ssrc, f, n1, end, rx1, rx', rotation)
    ensures Done(depay, ssrc, f, n, end, rx, rx', rotation)
  {
    assert rx.framesOut + [] == rx.framesOut;
    assert rx1.framesOut + [] == rx1.framesOut;
  }

  /** A frame, or what is left of it, arrives. */
  lemma {:induction false} FrameDelivered(pt: nat, depay: Depacketizer, rx: Rx, ssrc: nat, f: Sent, n: nat,
                                          ps: seq<Packet>, s: nat, end: nat)
    returns (rx': Rx, told: nat)
    requires WellCut(depay, f) && n <= |f.frags| && Along(depay, rx, ssrc, f, n, s) && Sends(pt, ssrc, f, n, ps)
    requires Consecutive(ps, s) && end == s + |ps|
    ensures rx' == HandleAll(pt, depay, rx, ps) && told == RotationOver(pt, ps, rx.rotation)
    ensures Done(depay, ssrc, f, n, end, rx, rx', told)
    decreases |ps|
  {
    if ps == [] {
      rx', told := rx, rx.rotation;
      assert rx.framesOut + [] == rx.framesOut;
    } else {
      var rx1, n1 := TakeFirst(pt, depay, rx, ssrc, f, n, ps, s);
      rx', told := FrameDelivered(pt, depay, rx1, ssrc, f, n1, ps[1..], s + 1, end);
      SteppedDone(depay, ssrc, f, n, n1, end, rx, rx1, rx', told);
    }
  }

  ghost function Flat(pss: seq<seq<Packet>>): seq<Packet> { if pss == [] then [] else pss[0] + Flat(pss[1..]) }

  ghost function AllExpected(pt: nat, depay: Depacketizer, sent: seq<Sent>, pss: seq<seq<Packet>>,
                             rotation: nat): (out: seq<VideoFrame>)
    requires |pss| == |sent|
    ensures |out| == |sent|
  {
    if sent == [] then []
    else
      var r := RotationOver(pt, pss[0], rotation);
      [Expected(depay, sent[0], r)] + AllExpected(pt, depay, sent[1..], pss[1..], r)
  }

  lemma HandleAllConcat(pt: nat, depay: Depacketizer, rx: Rx, a: seq<Packet>, b: seq<Packet>)
    ensures HandleAll(pt, depay, rx, a + b) == HandleAll(pt, depay, HandleAll(pt, depay, rx, a), b)
    decreases |a|
  {
    if a == [] {
      assert a + b == b;
    } else {
      assert (a + b)[0] == a[0] && (a + b)[1..] == a[1..] + b;
      HandleAllConcat(pt, depay, Handle(pt, depay, rx, a[0]), a[1..], b);
    }
  }

  /** Each frame is well cut, and its packets bring it. */
  ghost predicate AllSend(pt: nat, depay: Depacketizer, ssrc: nat, sent: seq<Sent>, pss: seq<seq<Packet>>) {
    |pss| == |sent| && forall j | 0 <= j < |sent| :: WellCut(depay, sent[j]) && Sends(pt, ssrc, sent[j], 0, pss[j])
  }

  lemma AllSendTail(pt: nat, depay: Depacketizer, ssrc: nat, sent: seq<Sent>, pss: seq<seq<Packet>>)
    requires AllSend(pt, depay, ssrc, sent, pss) && sent != []
    ensures AllSend(pt, depay, ssrc, sent[1..], pss[1..])
  {
    assert forall j | 0 <= j < |sent| - 1 :: sent[1..][j] == sent[j + 1] && pss[1..][j] == pss[j + 1];
  }

  lemma ConsecutiveParts(a: seq<Packet>, b: seq<Packet>, s: nat)
    requires Consecutive(a + b, s)
    ensures Consecutive(a, s) && Consecutive(b, s + |a|)
  {
    assert forall k | 0 <= k < |a| :: a[k] == (a + b)[k];
    assert forall k | 0 <= k < |b| :: b[k] == (a + b)[|a| + k];
  }

  /** The receiver is between frames, and the frames `sent` come next. */
  ghost predicate Coming(pt: nat, depay: Depacketizer, rx: Rx, ssrc: nat, sent: seq<Sent>, pss: seq<seq<Packet>>,
                         s: nat) {
    AllSend(pt, depay, ssrc, sent, pss) && Idle(rx, ssrc, s) && Consecutive(Flat(pss), s)
  }

  /** The first frame of a stream, and what is left to do. */
  lemma TakeFrame(pt: nat, depay: Depacketizer, rx: Rx, ssrc: nat, sent: seq<Sent>, pss: seq<seq<Packet>>, s: nat)
    returns (rx1: Rx, end: nat)
    requires Coming(pt, depay, rx, ssrc, sent, pss, s) && sent != []
    ensures Done(depay, ssrc, sent[0], 0, end, rx, rx1, RotationOver(pt, pss[0], rx.rotation))
    ensures Coming(pt, depay, rx1, ssrc, sent[1..], pss[1..], end)
    ensures rx1 == HandleAll(pt, depay, rx, pss[0])
  {
    end := s + |pss[0]|;
    FirstSends(pt, depay, ssrc, sent, pss, s, end);
    var told: nat;
    rx1, told := FrameDelivered(pt, depay, rx, ssrc, sent[0], 0, pss[0], s, end);
  }

  lemma FirstSends(pt: nat, depay: Depacketizer, ssrc: nat, sent: seq<Sent>, pss: seq<seq<Packet>>, s: nat, end: nat)
    requires AllSend(pt, depay, ssrc, sent, pss) && sent != [] && Consecutive(Flat(pss), s) && end == s + |pss[0]|
    ensures WellCut(depay, sent[0]) && Sends(pt, ssrc, sent[0], 0, pss[0]) && Consecutive(pss[0], s)
    ensures AllSend(pt, depay, ssrc, sent[1..], pss[1..]) && Consecutive(Flat(pss[1..]), end)
  {
    ConsecutiveParts(pss[0], Flat(pss[1..]), s);
    AllSendTail(pt, depay, ssrc, sent, pss);
  }

  /** Exactly the sent frames came out, each with the orientation last told, and no loss was raised. */
  ghost predicate Brought(pt: nat, depay: Depacketizer, sent: seq<Sent>, pss: seq<seq<Packet>>, rx: Rx, rx': Rx) {
    |pss| == |sent| && rx'.framesOut == rx.framesOut + AllExpected(pt, depay, sent, pss, rx.rotation)
        && rx'.loss == rx.loss
  }

  /** A frame, and the frames after it. */
  lemma FramesJoin(pt: nat, depay: Depacketizer, ssrc: nat, sent: seq<Sent>, pss: seq<seq<Packet>>, s: nat, rx: Rx,
                   rx1: Rx, rx': Rx)
    requires |pss| == |sent| > 0 && |sent[0].frags| > 0
    requires Done(depay, ssrc, sent[0], 0, s, rx, rx1, RotationOver(pt, pss[0], rx.rotation))
    requires Brought(pt, depay, sent[1..], pss[1..], rx1, rx')
    ensures Brought(pt, depay, sent, pss, rx, rx')
  {
    Regroup(rx.framesOut, [Expected(depay, sent[0], rx1.rotation)],
            AllExpected(pt, depay, sent[1..], pss[1..], rx1.rotation));
  }

  /**
   * Nothing lost, nothing reordered: exactly the sent frames come out, in order, each with the orientation last
   * told, and no loss is raised, whatever is wrapped and whatever error correction rides along.
   */
  lemma {:induction false} FaithfulNetwork(pt: nat, depay: Depacketizer, rx: Rx, ssrc: nat, sent: seq<Sent>,
                                           pss: seq<seq<Packet>>, s: nat)
    requires Coming(pt, depay, rx, ssrc, sent, pss, s)
    ensures Brought(pt, depay, sent, pss, rx, HandleAll(pt, depay, rx, Flat(pss)))
    decreases |sent|
  {
    if sent == [] {
      assert rx.framesOut + [] == rx.framesOut;
    } else {
      var rx1, end := TakeFrame(pt, depay, rx, ssrc, sent, pss, s);
      HandleAllConcat(pt, depay, rx, pss[0], Flat(pss[1..]));
      FaithfulNetwork(pt, depay, rx1, ssrc, sent[1..], pss[1..], end);
      FramesJoin(pt, depay, ssrc, sent, pss, end, rx, rx1, HandleAll(pt, depay, rx, Flat(pss)));
    }
  }

  // ---------------------------------------------------------------- the sender's packets

  /** What the sender emits for a frame brings the frame, in consecutive places. */
  lemma {:induction false} SenderSends(pt: nat, ssrc: nat, f: Sent, rotation: Option<nat>, n: nat)
    requires pt != VP8_RTX_PAYLOAD_TYPE && |f.at| == |f.frags| && n <= |f.frags|
    ensures Sends(pt, ssrc, f, n, PacketsOf(pt, ssrc, f, rotation)[n..])
    decreases |f.frags| - n
  {
    var ps := PacketsOf(pt, ssrc, f, rotation);
    if n < |f.frags| {
      assert ps[n..][0] == ps[n] && ps[n..][1..] == ps[n + 1..];
      SenderSends(pt, ssrc, f, rotation, n + 1);
    }
  }

  lemma SenderNumbers(pt: nat, ssrc: nat, ts: nat, frags: seq<seq<Byte>>, base: nat, rotation: Option<nat>)
    ensures Consecutive(PacketsOf(pt, ssrc, Cut(ts, frags, base), rotation), base)
  {
  }

  lemma QuarterTurns(n: nat)
    ensures n * 90 % 360 == n % 4 * 90
  {
    ModUnique(n * 90, n / 4, n % 4 * 90, 360);
  }

  /** A quarter turn told is the quarter turn heard. */
  lemma OrientationBack(degrees: nat, before: nat)
    requires degrees % 90 == 0
    ensures RotationAfter(Orientation(Some(degrees)), before) == degrees % 360
    ensures RotationAfter(Orientation(None), before) == before
  {
    var exts := Orientation(Some(degrees));
    assert exts[1..] == [];
    QuarterTurns(degrees / 90);
  }

  lemma {:induction false} OrientationOver(pt: nat, ssrc: nat, f: Sent, degrees: Option<nat>, n: nat, before: nat)
    requires pt != VP8_RTX_PAYLOAD_TYPE && pt != VIDEO_RED_PAYLOAD_TYPE && |f.at| == |f.frags| && n <= |f.frags|
    requires degrees.Some? ==> degrees.value % 90 == 0
    ensures RotationOver(pt, PacketsOf(pt, ssrc, f, degrees)[n..], before) ==
            if degrees.Some? && n < |f.frags| then degrees.value % 360 else before
    decreases |f.frags| - n
  {
    var ps := PacketsOf(pt, ssrc, f, degrees);
    if n < |f.frags| {
      assert ps[n..][0] == ps[n] && ps[n..][1..] == ps[n + 1..];
      OrientationBack(if degrees.Some? then degrees.value else 0, before);
      OrientationOver(pt, ssrc, f, degrees, n + 1, RotationAfter(ps[n].extensions, before));
    }
  }

  /** What the sender emits for a frame brings it, numbered without a gap, and tells the orientation that was set. */
  lemma SenderTells(pt: nat, ssrc: nat, ts: nat, frags: seq<seq<Byte>>, base: nat, degrees: Option<nat>, before: nat)
    requires pt != VP8_RTX_PAYLOAD_TYPE && pt != VIDEO_RED_PAYLOAD_TYPE && frags != []
    requires degrees.Some? ==> degrees.value % 90 == 0
    ensures var f := Cut(ts, frags, base);
      var ps := PacketsOf(pt, ssrc, f, degrees);
      && |ps| == |frags| && Sends(pt, ssrc, f, 0, ps) && Consecutive(ps, base)
      && RotationOver(pt, ps, before) == if degrees.Some? then degrees.value % 360 else before
  {
    var f := Cut(ts, frags, base);
    var ps := PacketsOf(pt, ssrc, f, degrees);
    assert ps[0..] == ps;
    SenderSends(pt, ssrc, f, degrees, 0);
    SenderNumbers(pt, ssrc, ts, frags, base, degrees);
    OrientationOver(pt, ssrc, f, degrees, 0, before);
  }

  /** `wrapped` is `plain`, some of it behind RED with whatever redundancy. */
  ghost predicate Wraps(pt: nat, plain: Packet, wrapped: Packet) {
    wrapped == plain || exists blocks: seq<RedBlock> :: WrapsIn(pt, plain, wrapped, blocks)
  }

  ghost predicate WrapsIn(pt: nat, plain: Packet, wrapped: Packet, blocks: seq<RedBlock>) {
    && (forall b | b in blocks :: b.Valid()) && pt < 128
    && wrapped == plain.(pt := VIDEO_RED_PAYLOAD_TYPE, payload := Wrap(blocks, pt, plain.payload))
  }

  /** Behind RED the packets bring the same frame, numbers and orientations. */
  lemma {:induction false} WrappedSends(pt: nat, ssrc: nat, f: Sent, n: nat, plain: seq<Packet>, wrapped: seq<Packet>)
    requires pt < 128 && pt != VP8_RTX_PAYLOAD_TYPE && pt != VIDEO_RED_PAYLOAD_TYPE && |wrapped| == |plain|
    requires forall k | 0 <= k < |plain| :: plain[k].pt == pt && Wraps(pt, plain[k], wrapped[k])
    requires Sends(pt, ssrc, f, n, plain)
    ensures Sends(pt, ssrc, f, n, wrapped)
    decreases |plain|
  {
    if plain != [] {
      var p, w := plain[0], wrapped[0];
      if w != p {
        var blocks :| WrapsIn(pt, p, w, blocks);
        RedCarries(pt, p, w, blocks, f, n);
      }
      assert Carries(pt, w, f, n);
      assert forall k | 0 <= k < |plain| - 1 :: plain[1..][k] == plain[k + 1] && wrapped[1..][k] == wrapped[k + 1];
      WrappedSends(pt, ssrc, f, n + 1, plain[1..], wrapped[1..]);
    }
  }

  // ---------------------------------------------------------------- frames are accounted for

  /** Does this packet begin a frame in the eyes of the receiver? */
  ghost predicate Begins(pt: nat, depay: Depacketizer, rx: Rx, pkt: Packet) {
    RoleOf(pt, pkt).Media? && Lock(rx, pkt.ssrc) == Some(pkt.ssrc)
    && var v := depay(RoleOf(pt, pkt).payload); v.Some? && v.value.Start()
  }

  ghost function Begun(pt: nat, depay: Depacketizer, rx: Rx, pkts: seq<Packet>): nat
    decreases |pkts|
  {
    if pkts == [] then 0
    else (if Begins(pt, depay, rx, pkts[0]) then 1 else 0) + Begun(pt, depay, Handle(pt, depay, rx, pkts[0]), pkts[1..])
  }

  /** Frames that left, whole or broken, and the one in hand. */
  function Handled(rx: Rx): nat { rx.frames + rx.brokenFrames + if rx.assembling then 1 else 0 }

  lemma AcceptAccounts(rx: Rx, pkt: Packet, vp8: Option<Vp8>)
    requires rx.cur != [] ==> rx.assembling
    ensures var rx' := Accept(rx, pkt, vp8);
      && (rx'.cur != [] ==> rx'.assembling)
      && Handled(rx') == Handled(rx) + if vp8.Some? && vp8.value.Start() then 1 else 0
  {}

  lemma StepAccounts(pt: nat, depay: Depacketizer, rx: Rx, pkt: Packet)
    requires rx.cur != [] ==> rx.assembling
    ensures var rx' := Handle(pt, depay, rx, pkt);
      && (rx'.cur != [] ==> rx'.assembling)
      && Handled(rx') == Handled(rx) + if Begins(pt, depay, rx, pkt) then 1 else 0
  {
    match RoleOf(pt, pkt)
    case Media(payload) => AcceptAccounts(Locked(rx, pkt), pkt, depay(payload));
    case _ =>
  }

  /** Whatever arrives: every frame begun is delivered, counted as broken, or still being assembled. */
  lemma {:induction false} FramesAccounted(pt: nat, depay: Depacketizer, rx: Rx, pkts: seq<Packet>)
    requires rx.cur != [] ==> rx.assembling
    ensures Handled(HandleAll(pt, depay, rx, pkts)) == Handled(rx) + Begun(pt, depay, rx, pkts)
    decreases |pkts|
  {
    if pkts != [] {
      StepAccounts(pt, depay, rx, pkts[0]);
      FramesAccounted(pt, depay, Handle(pt, depay, rx, pkts[0]), pkts[1..]);
    }
  }

  /** How many of the packets are of source `ssrc` and for this track, in any wrapping. */
  ghost function OfSource(pt: nat, ssrc: nat, pkts: seq<Packet>): nat {
    if pkts == [] then 0
    else (if !RoleOf(pt, pkts[0]).Ignored? && pkts[0].ssrc == ssrc then 1 else 0) + OfSource(pt, ssrc, pkts[1..])
  }

  lemma AcceptCounts(rx: Rx, pkt: Packet, vp8: Option<Vp8>)
    ensures Accept(rx, pkt, vp8).packets == rx.packets && Accept(rx, pkt, vp8).ssrc == rx.ssrc
  {}

  lemma PacketCounted(pt: nat, depay: Depacketizer, rx: Rx, pkt: Packet, ssrc: nat)
    requires rx.ssrc == Some(ssrc)
    ensures var rx' := Handle(pt, depay, rx, pkt);
      && rx'.packets == rx.packets + (if !RoleOf(pt, pkt).Ignored? && pkt.ssrc == ssrc then 1 else 0)
      && rx'.ssrc == Some(ssrc)
  {
    match RoleOf(pt, pkt)
    case Media(payload) => AcceptCounts(Locked(rx, pkt), pkt, depay(payload));
    case _ =>
  }

  /** Once a source is locked, exactly its packets are counted, and it stays. */
  lemma {:induction false} PacketsCounted(pt: nat, depay: Depacketizer, rx: Rx, pkts: seq<Packet>, ssrc: nat)
    requires rx.ssrc == Some(ssrc)
    ensures var rx' := HandleAll(pt, depay, rx, pkts);
      rx'.packets == rx.packets + OfSource(pt, ssrc, pkts) && rx'.ssrc == Some(ssrc)
    decreases |pkts|
  {
    if pkts != [] {
      PacketCounted(pt, depay, rx, pkts[0], ssrc);
      PacketsCounted(pt, depay, Handle(pt, depay, rx, pkts[0]), pkts[1..], ssrc);
    }
  }
}
