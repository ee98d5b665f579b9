/**
 * The receive side of the VP8 RTP track: from packets in any order to whole frames.
 *
 * `Rx` holds the fields the receiver updates and `Handle` is one inbound packet. The VP8 payload
 * descriptor belongs to a library; it is a parameter here, a function from payload bytes to the
 * descriptor's S bit, PID and remaining bytes, or to nothing if it does not parse.
 */
module Video {
  import opened Options
  import opened Bytes
  import opened Machine
  import opened Red

  const VP8_RTX_PAYLOAD_TYPE: nat := 118
  const VIDEO_RED_PAYLOAD_TYPE: nat := 120
  const VIDEO_ORIENTATION_EXT_ID: nat := 4

  datatype Vp8 = Vp8(s: nat, pid: nat, body: seq<Byte>) {
    /** The first packet of a frame. */
    predicate Start() { s == 1 && pid == 0 }
  }

  type Depacketizer = seq<Byte> -> Option<Vp8>

  datatype Extension = Extension(id: nat, payload: seq<Byte>)

  datatype Packet = Packet(pt: nat, seqNo: nat, ts: nat, ssrc: nat, marker: bool, extensions: seq<Extension>,
                           payload: seq<Byte>)

  datatype VideoFrame = VideoFrame(data: seq<Byte>, timestamp: nat, keyframe: bool, rotation: nat)

  datatype Rx = Rx(
    ssrc: Option<nat>, prevSeq: Option<nat>, cur: seq<Byte>, curTs: nat, assembling: bool, broken: bool, loss: bool,
    framesOut: seq<VideoFrame>, rotation: nat, packets: nat, frames: nat, brokenFrames: nat)

  const FRESH := Rx(None, None, [], 0, false, false, false, [], 0, 0, 0, 0)

  /** What a packet is to this track. */
  datatype Role = Ignored | Foreign | Media(payload: seq<Byte>)

  function RoleOf(pt: nat, pkt: Packet): Role {
    if pkt.pt == VP8_RTX_PAYLOAD_TYPE then Ignored
    else if pkt.pt == pt then Media(pkt.payload)
    else if pkt.pt == VIDEO_RED_PAYLOAD_TYPE then
      match Walk(pkt.payload, 0, 0)
      case Some((primary, off)) => if primary == pt then Media(pkt.payload[off..]) else Foreign
      case None => Foreign
    else Ignored
  }

  function Next16(seqNo: nat): nat { (seqNo + 1) % TWO_16 }

  /** The CVO extension, if present, sets the rotation; otherwise it stays. */
  function RotationAfter(exts: seq<Extension>, rotation: nat): nat {
    if exts == [] then rotation
    else RotationAfter(exts[1..],
                       if exts[0].id == VIDEO_ORIENTATION_EXT_ID && exts[0].payload != []
                       then exts[0].payload[0] as nat % 4 * 90 else rotation)
  }

  function Drop(rx: Rx): Rx {
    rx.(brokenFrames := rx.brokenFrames + (if rx.assembling || rx.cur != [] then 1 else 0),
        cur := [], assembling := false, broken := false, loss := true)
  }

  function Keyframe(data: seq<Byte>): bool { data != [] && data[0] % 2 == 0 }

  /** Add a fragment to the frame being assembled; the marker ends it. */
  function Append(rx: Rx, body: seq<Byte>, marker: bool): Rx {
    var full := rx.(cur := rx.cur + body);
    if !marker then full
    else if rx.broken then Drop(full)
    else full.(framesOut := rx.framesOut + [VideoFrame(full.cur, rx.curTs, Keyframe(full.cur), rx.rotation)],
               cur := [], frames := rx.frames + 1, assembling := false)
  }

  predicate Contiguous(rx: Rx, seqNo: nat) {
    rx.prevSeq.None? || seqNo == Next16(rx.prevSeq.value)
  }

  /** A media packet of the locked stream. */
  function Accept(rx: Rx, pkt: Packet, vp8: Option<Vp8>): Rx {
    var contiguous := Contiguous(rx, pkt.seqNo);
    var seen := rx.(prevSeq := Some(pkt.seqNo));
    match vp8
    case None => Drop(seen)
    case Some(v) =>
      if v.Start() then
        var clean := if seen.assembling then Drop(seen) else seen;
        Append(clean.(cur := [], curTs := pkt.ts, assembling := true, broken := false,
                      loss := clean.loss || !contiguous),
               v.body, pkt.marker)
      else if !seen.assembling then seen.(loss := true)
      else Append(seen.(broken := seen.broken || !contiguous || pkt.ts != seen.curTs), v.body, pkt.marker)
  }

  function Lock(rx: Rx, ssrc: nat): Option<nat> {
    if rx.ssrc.None? then Some(ssrc) else rx.ssrc
  }

  /** A packet of the locked stream counts, and tells the orientation. */
  function Locked(rx: Rx, pkt: Packet): Rx {
    rx.(ssrc := Some(pkt.ssrc), packets := rx.packets + 1, rotation := RotationAfter(pkt.extensions, rx.rotation))
  }

  /** One inbound packet. */
  function Handle(pt: nat, depay: Depacketizer, rx: Rx, pkt: Packet): Rx {
    match RoleOf(pt, pkt)
    case Ignored => rx
    case Foreign =>
      var locked := rx.(ssrc := Lock(rx, pkt.ssrc));
      if locked.ssrc == Some(pkt.ssrc) then locked.(packets := rx.packets + 1, prevSeq := Some(pkt.seqNo)) else locked
    case Media(payload) =>
      if Lock(rx, pkt.ssrc) != Some(pkt.ssrc) then rx
      else Accept(Locked(rx, pkt),
                  pkt, depay(payload))
  }

  function HandleAll(pt: nat, depay: Depacketizer, rx: Rx, pkts: seq<Packet>): Rx
    decreases |pkts|
  {
    if pkts == [] then rx else HandleAll(pt, depay, Handle(pt, depay, rx, pkts[0]), pkts[1..])
  }

  // ---------------------------------------------------------------- the receiver

  class VideoStream {
    const pt: nat
    const depay: Depacketizer
    var rxSsrc: Option<nat>
    var prevSeq: Option<nat>
    var cur: seq<Byte>
    var curTs: nat
    var assembling: bool
    var broken: bool
    var loss: bool
    var framesOut: seq<VideoFrame>
    var rxRotation: nat
    var rxPackets: nat
    var rxFrames: nat
    var rxBrokenFrames: nat

    function View(): Rx
      reads this
    {
      Rx(rxSsrc, prevSeq, cur, curTs, assembling, broken, loss, framesOut, rxRotation, rxPackets, rxFrames,
         rxBrokenFrames)
    }

    constructor (pt: nat, depay: Depacketizer)
      ensures View() == FRESH && this.pt == pt && this.depay == depay
    {
      this.pt, this.depay := pt, depay;
      rxSsrc, prevSeq, cur, curTs, assembling, broken, loss := None, None, [], 0, false, false, false;
      framesOut, rxRotation, rxPackets, rxFrames, rxBrokenFrames := [], 0, 0, 0, 0;
    }

    method DropCurrent()
      modifies this
      ensures View() == Drop(old(View()))
    {
      if assembling || cur != [] {
        rxBrokenFrames := rxBrokenFrames + 1;
      }
      cur := [];
      assembling := false;
      broken := false;
      loss := true;
    }

    /** RED-wrapped ULPFEC: it uses a sequence number of the same stream. */
    method PassForeign(pkt: Packet)
      requires RoleOf(pt, pkt) == Foreign
      modifies this`rxSsrc, this`rxPackets, this`prevSeq
      ensures View() == Handle(pt, depay, old(View()), pkt)
    {
      if rxSsrc.None? {
        rxSsrc := Some(pkt.ssrc);
      }
      if rxSsrc == Some(pkt.ssrc) {
        rxPackets := rxPackets + 1;
        prevSeq := Some(pkt.seqNo);
      }
    }

    method ApplyExtensions(exts: seq<Extension>)
      modifies this`rxRotation
      ensures rxRotation == RotationAfter(exts, old(rxRotation))
    {
      for i := 0 to |exts|
        invariant RotationAfter(exts[i..], rxRotation) == RotationAfter(exts, old(rxRotation))
      {
        var ext := exts[i];
        if ext.id == VIDEO_ORIENTATION_EXT_ID && ext.payload != [] {
          rxRotation := ext.payload[0] as nat % 4 * 90;
        }
        assert exts[i..][1..] == exts[i + 1..];
      }
    }

    /** Resolve the effective VP8 payload: plain, or the RED primary block. */
    method Resolve(pkt: Packet) returns (role: Role)
      ensures role == RoleOf(pt, pkt)
    {
      if pkt.pt == VP8_RTX_PAYLOAD_TYPE {
        return Ignored;
      }
      if pkt.pt == pt {
        return Media(pkt.payload);
      }
      if pkt.pt != VIDEO_RED_PAYLOAD_TYPE {
        return Ignored;
      }
      var primary := RedPrimary(pkt.payload);
      if primary.Some? && primary.value.0 == pt {
        return Media(pkt.payload[primary.value.1..]);
      }
      return Foreign;
    }

    method HandleRtp(pkt: Packet)
      modifies this
      ensures View() == Handle(pt, depay, old(View()), pkt)
    {
      var role := Resolve(pkt);
      match role {
        case Ignored =>
        case Foreign => PassForeign(pkt);
        case Media(payload) => TakeMedia(pkt, payload);
      }
    }

    /** A media packet; the first one seen decides which stream is taken. */
    method TakeMedia(pkt: Packet, payload: seq<Byte>)
      modifies this
      ensures var rx := old(View()); View() == if Lock(rx, pkt.ssrc) != Some(pkt.ssrc) then rx
                                     else Accept(Locked(rx, pkt), pkt, depay(payload))
    {
      if rxSsrc.None? {
        rxSsrc := Some(pkt.ssrc);
      } else if rxSsrc.value != pkt.ssrc {
        return;
      }
      rxPackets := rxPackets + 1;
      ApplyExtensions(pkt.extensions);
      assert View() == Locked(old(View()), pkt);
      AcceptMedia(pkt, depay(payload));
    }

    /** A frame begins; a gap before it is a loss. */
    method BeginFrame(ts: nat, contiguous: bool)
      modifies this`cur, this`curTs, this`assembling, this`broken, this`loss
      ensures cur == [] && curTs == ts && assembling && !broken && loss == (old(loss) || !contiguous)
    {
      cur := [];
      curTs := ts;
      assembling := true;
      broken := false;
      if !contiguous {
        loss := true;
      }
    }

    /** The rest of `handle_rtp`, for a packet of the locked stream. */
    method AcceptMedia(pkt: Packet, vp8: Option<Vp8>)
      modifies this
      ensures View() == Accept(old(View()), pkt, vp8)
    {
      var contiguous := prevSeq.None? || pkt.seqNo == Next16(prevSeq.value);
      prevSeq := Some(pkt.seqNo);
      if vp8.None? {
        DropCurrent();
        return;
      }
      var start := vp8.value.Start();
      if start {
        if assembling {
          DropCurrent();
        }
        BeginFrame(pkt.ts, contiguous);
      } else if !assembling {
        loss := true;
        return;
      } else if !contiguous || pkt.ts != curTs {
        broken := true;
      }
      AppendFragment(vp8.value.body, pkt.marker);
    }

    method AppendFragment(body: seq<Byte>, marker: bool)
      modifies this
      ensures View() == Append(old(View()), body, marker)
    {
      cur := cur + body;
      if marker {
        if broken {
          DropCurrent();
        } else {
          framesOut := framesOut + [VideoFrame(cur, curTs, Keyframe(cur), rxRotation)];
          cur := [];
          rxFrames := rxFrames + 1;
          assembling := false;
        }
      }
    }

    method TakeFrame() returns (f: Option<VideoFrame>)
      modifies this`framesOut
      ensures if old(framesOut) == [] then f == None && framesOut == []
              else f == Some(old(framesOut)[0]) && framesOut == old(framesOut)[1..]
    {
      if framesOut == [] {
        return None;
      }
      f := Some(framesOut[0]);
      framesOut := framesOut[1..];
    }

    /** True once after a loss. */
    method TakeLoss() returns (was: bool)
      modifies this`loss
      ensures was == old(loss) && !loss
    {
      was := loss;
      loss := false;
    }
  }
}
