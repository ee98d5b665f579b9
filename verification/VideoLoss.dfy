/**
 * Whether the video receiver signals what the network lost.
 *
 * The flag that asks for a key frame is raised for a gap that is seen. A gap just before an error-correction packet is
 * not; the last theorem says exactly in which streams such a gap can stay unseen for good.
 */
module VideoLoss {
  import opened Options
  import opened Bytes
  import opened Machine
  import opened Video
  import opened VideoSafety
  import opened VideoDelivery
  import VideoTorn

  // ---------------------------------------------------------------- no silent loss

  /** The receiver after an arrival, together with whether loss was ever raised; each raise is taken at once. */
  datatype Watched = Watched(rx: Rx, raised: bool)

  function Watch(pt: nat, depay: Depacketizer, w: Watched, pkt: Packet): Watched {
    var rx' := Handle(pt, depay, w.rx.(loss := false), pkt);
    Watched(rx', w.raised || rx'.loss)
  }

  function WatchAll(pt: nat, depay: Depacketizer, w: Watched, pkts: seq<Packet>): Watched
    decreases |pkts|
  {
    if pkts == [] then w else WatchAll(pt, depay, Watch(pt, depay, w, pkts[0]), pkts[1..])
  }

  /** A stream in flight: packet `k` has sequence number `base + k`; media and error correction of one source. */
  ghost predicate InOrderStream(pt: nat, stream: seq<Packet>, ssrc: nat, base: nat) {
    forall k | 0 <= k < |stream| ::
      stream[k].ssrc == ssrc && stream[k].seqNo == (base + k) % TWO_16 && !RoleOf(pt, stream[k]).Ignored?
  }

  /** Which packets of the stream get through: strictly increasing, with gaps below 65536. */
  ghost predicate Survivors(stream: seq<Packet>, ks: seq<nat>) {
    && (forall i | 0 <= i < |ks| :: ks[i] < |stream|)
    && (forall i | 0 < i < |ks| :: ks[i - 1] < ks[i] < ks[i - 1] + TWO_16)
  }

  ghost function Arrivals(stream: seq<Packet>, ks: seq<nat>): (ps: seq<Packet>)
    requires forall i | 0 <= i < |ks| :: ks[i] < |stream|
    ensures |ps| == |ks| && forall i | 0 <= i < |ks| :: ps[i] == stream[ks[i]]
  {
    seq(|ks|, i requires 0 <= i < |ks| => stream[ks[i]])
  }

  /** The `i`-th arrival is a media packet, and packets just before it were missed. */
  ghost predicate MissedBefore(pt: nat, stream: seq<Packet>, ks: seq<nat>, i: nat)
    requires 0 < i < |ks| && ks[i] < |stream|
  {
    ks[i] > ks[i - 1] + 1 && RoleOf(pt, stream[ks[i]]).Media?
  }

  /**
   * After the arrivals up to packet `last` of the stream, `gap` telling whether any was missed before a media packet.
   */
  ghost predicate Aware(w: Watched, ssrc: nat, base: nat, last: nat, gap: bool) {
    && w.rx.ssrc == Some(ssrc) && w.rx.prevSeq == Some((base + last) % TWO_16)
    && (gap ==> w.raised || (w.rx.assembling && w.rx.broken))
  }

  lemma StepAware(pt: nat, depay: Depacketizer, stream: seq<Packet>, ssrc: nat, base: nat, w: Watched, last: nat,
                  gap: bool, k: nat)
    requires InOrderStream(pt, stream, ssrc, base) && last < k < |stream| && k < last + TWO_16
    requires Aware(w, ssrc, base, last, gap)
    ensures var w', now := Watch(pt, depay, w, stream[k]), gap || (k > last + 1 && RoleOf(pt, stream[k]).Media?);
            && Aware(w', ssrc, base, k, now)
            && (w.raised ==> w'.raised)
            && (Begins(pt, depay, w.rx, stream[k]) && now ==> w'.raised)
  {
    assert stream[k].ssrc == ssrc && stream[k].seqNo == (base + k) % TWO_16;
    if Next16((base + last) % TWO_16) == (base + k) % TWO_16 {
      SameResidue(base + last + 1, base + k);
    }
  }

  /** Was a packet missed between the first and the last of these arrivals, just before a media packet? */
  ghost predicate Missed(pt: nat, stream: seq<Packet>, ks: seq<nat>)
    requires forall i | 0 <= i < |ks| :: ks[i] < |stream|
  {
    exists i :: 0 < i < |ks| && MissedBefore(pt, stream, ks, i)
  }

  lemma {:induction false} RunAware(pt: nat, depay: Depacketizer, stream: seq<Packet>, ssrc: nat, base: nat,
                                    w: Watched, ks: seq<nat>)
    requires InOrderStream(pt, stream, ssrc, base) && Survivors(stream, ks) && ks != []
    requires Lock(w.rx, ssrc) == Some(ssrc)
    ensures Aware(WatchAll(pt, depay, w, Arrivals(stream, ks)), ssrc, base, ks[|ks| - 1], Missed(pt, stream, ks))
    decreases |ks|
  {
    var n := |ks| - 1;
    var init := ks[..n];
    ArrivalsSnoc(stream, ks);
    WatchSnoc(pt, depay, w, Arrivals(stream, init), stream[ks[n]]);
    if n == 0 {
      FirstAware(pt, depay, stream, ssrc, base, w, ks);
    } else {
      RunAware(pt, depay, stream, ssrc, base, w, init);
      var before := WatchAll(pt, depay, w, Arrivals(stream, init));
      StepAware(pt, depay, stream, ssrc, base, before, ks[n - 1], Missed(pt, stream, init), ks[n]);
      MissedSnoc(pt, stream, ks);
    }
  }

  lemma FirstAware(pt: nat, depay: Depacketizer, stream: seq<Packet>, ssrc: nat, base: nat, w: Watched, ks: seq<nat>)
    requires InOrderStream(pt, stream, ssrc, base) && Survivors(stream, ks) && |ks| == 1
    requires Lock(w.rx, ssrc) == Some(ssrc)
    ensures Aware(WatchAll(pt, depay, w, Arrivals(stream, ks)), ssrc, base, ks[0], Missed(pt, stream, ks))
  {
    assert stream[ks[0]].ssrc == ssrc && !RoleOf(pt, stream[ks[0]]).Ignored?;
    assert Arrivals(stream, ks)[1..] == [];
    assert WatchAll(pt, depay, w, Arrivals(stream, ks)) == Watch(pt, depay, w, stream[ks[0]]);
  }

  lemma ArrivalsSnoc(stream: seq<Packet>, ks: seq<nat>)
    requires Survivors(stream, ks) && ks != []
    ensures var init := ks[..|ks| - 1];
            Survivors(stream, init) && Arrivals(stream, ks) == Arrivals(stream, init) + [stream[ks[|ks| - 1]]]
  {
  }

  lemma MissedSnoc(pt: nat, stream: seq<Packet>, ks: seq<nat>)
    requires |ks| > 1 && forall i | 0 <= i < |ks| :: ks[i] < |stream|
    ensures Missed(pt, stream, ks) <==> Missed(pt, stream, ks[..|ks| - 1]) || MissedBefore(pt, stream, ks, |ks| - 1)
  {
    var init := ks[..|ks| - 1];
    if Missed(pt, stream, init) {
      var i :| 0 < i < |init| && MissedBefore(pt, stream, init, i);
      assert MissedBefore(pt, stream, ks, i);
    }
    if Missed(pt, stream, ks) {
      var i :| 0 < i < |ks| && MissedBefore(pt, stream, ks, i);
      assert i < |init| ==> MissedBefore(pt, stream, init, i);
    }
  }

  lemma WatchSnoc(pt: nat, depay: Depacketizer, w: Watched, ps: seq<Packet>, p: Packet)
    ensures WatchAll(pt, depay, w, ps + [p]) == Watch(pt, depay, WatchAll(pt, depay, w, ps), p)
    decreases |ps|
  {
    if ps == [] {
      assert ps + [p] == [p] && [p][1..] == [];
    } else {
      assert (ps + [p])[0] == ps[0] && (ps + [p])[1..] == ps[1..] + [p];
      WatchSnoc(pt, depay, Watch(pt, depay, w, ps[0]), ps[1..], p);
    }
  }

  /**
   * No silent loss: by the time the first packet of a frame has been processed, the loss flag has been
   * raised if any packet was missed just before a media packet since the first one received.
   */
  lemma NoSilentLoss(pt: nat, depay: Depacketizer, stream: seq<Packet>, ssrc: nat, base: nat, w: Watched, ks: seq<nat>)
    requires InOrderStream(pt, stream, ssrc, base) && Survivors(stream, ks) && |ks| > 1
    requires Lock(w.rx, ssrc) == Some(ssrc)
    requires var before := WatchAll(pt, depay, w, Arrivals(stream, ks[..|ks| - 1]));
             Begins(pt, depay, before.rx, stream[ks[|ks| - 1]])
    requires Missed(pt, stream, ks)
    ensures WatchAll(pt, depay, w, Arrivals(stream, ks)).raised
  {
    var n := |ks| - 1;
    var init := ks[..n];
    ArrivalsSnoc(stream, ks);
    RunAware(pt, depay, stream, ssrc, base, w, init);
    var before := WatchAll(pt, depay, w, Arrivals(stream, init));
    WatchSnoc(pt, depay, w, Arrivals(stream, init), stream[ks[n]]);
    StepAware(pt, depay, stream, ssrc, base, before, ks[n - 1], Missed(pt, stream, init), ks[n]);
    MissedSnoc(pt, stream, ks);
  }

  // ---------------------------------------------------------------- whole frames in a row

  predicate IsFore(pt: nat, p: Packet) { RoleOf(pt, p).Foreign? }

  predicate Starts(pt: nat, depay: Depacketizer, p: Packet) {
    RoleOf(pt, p).Media? && var v := depay(RoleOf(pt, p).payload); v.Some? && v.value.Start()
  }

  predicate Ends(pt: nat, p: Packet) { RoleOf(pt, p).Media? && p.marker }

  /** The frame that the first `n` packets leave unfinished, by its timestamp. */
  function OpenAt(pt: nat, stream: seq<Packet>, n: nat): Option<nat>
    requires n <= |stream|
  {
    if n == 0 then None
    else if !RoleOf(pt, stream[n - 1]).Media? then OpenAt(pt, stream, n - 1)
    else if stream[n - 1].marker then None else Some(stream[n - 1].ts)
  }

  /** A media packet parses; it starts a frame if none is unfinished, and otherwise continues that one. */
  ghost predicate FitsAt(pt: nat, depay: Depacketizer, stream: seq<Packet>, k: nat)
    requires k < |stream|
  {
    RoleOf(pt, stream[k]).Media? ==>
      && depay(RoleOf(pt, stream[k]).payload).Some?
      && (Starts(pt, depay, stream[k]) <==> OpenAt(pt, stream, k).None?)
      && (OpenAt(pt, stream, k).Some? ==> stream[k].ts == OpenAt(pt, stream, k).value)
  }

  /** Whole frames one after the other, with error correction anywhere, and no two of one timestamp. */
  ghost predicate WholeFrames(pt: nat, depay: Depacketizer, stream: seq<Packet>) {
    && (forall k: nat | k < |stream| :: FitsAt(pt, depay, stream, k))
    && (forall s, t | 0 <= s < t < |stream| && Starts(pt, depay, stream[s]) && Starts(pt, depay, stream[t]) ::
          stream[s].ts != stream[t].ts)
  }

  /** An unfinished frame has a start. */
  lemma {:induction false} OpenHasStart(pt: nat, depay: Depacketizer, stream: seq<Packet>, n: nat) returns (s: nat)
    requires WholeFrames(pt, depay, stream) && n <= |stream| && OpenAt(pt, stream, n).Some?
    ensures s < n && Starts(pt, depay, stream[s]) && stream[s].ts == OpenAt(pt, stream, n).value
  {
    assert FitsAt(pt, depay, stream, n - 1);
    if Starts(pt, depay, stream[n - 1]) {
      s := n - 1;
    } else {
      s := OpenHasStart(pt, depay, stream, n - 1);
    }
  }

  // ---------------------------------------------------------------- where a gap stays unseen

  /** `m` is the first media packet after `k`. */
  ghost predicate NextMedia(pt: nat, stream: seq<Packet>, k: nat, m: nat) {
    k < m < |stream| && RoleOf(pt, stream[m]).Media? && forall x | k < x < m :: IsFore(pt, stream[x])
  }

  /** A frame starts at `m` or later. */
  ghost predicate StartFrom(pt: nat, depay: Depacketizer, stream: seq<Packet>, m: nat) {
    exists z :: m <= z < |stream| && Starts(pt, depay, stream[z])
  }

  /** After `e` the receiver can be between frames. */
  predicate Closes(pt: nat, p: Packet) { IsFore(pt, p) || Ends(pt, p) }

  /**
   * The error-correction packet at `k`, with media packet `m` next, can hide that packets before it are missing. If a
   * frame starts at `m`: because an earlier packet, not just before it, ends a frame or is error correction. If `m`
   * continues a frame: because that frame starts earlier, and not just before it.
   */
  ghost predicate Hides(pt: nat, depay: Depacketizer, stream: seq<Packet>, k: nat, m: nat)
    requires k < |stream| && m < |stream|
  {
    if Starts(pt, depay, stream[m]) then
      exists e: nat :: e + 2 <= k < e + TWO_16 && Closes(pt, stream[e])
    else
      exists s: nat :: s + 2 <= k && Starts(pt, depay, stream[s]) && stream[s].ts == stream[m].ts
  }

  /** No error-correction packet that has a frame start after it hides anything. */
  ghost predicate NothingHidden(pt: nat, depay: Depacketizer, stream: seq<Packet>) {
    forall k: nat, m: nat | NextMedia(pt, stream, k, m) && IsFore(pt, stream[k]) && StartFrom(pt, depay, stream, m) ::
      !Hides(pt, depay, stream, k, m)
  }

  // ---------------------------------------------------------------- seen by the next frame start

  ghost predicate Alert(rx: Rx) { rx.loss || (rx.assembling && rx.broken) }

  ghost predicate StandsAt(rx: Rx, ssrc: nat, base: nat, l: nat) {
    rx.ssrc == Some(ssrc) && rx.prevSeq == Some((base + l) % TWO_16)
  }

  /** Up to `l` a frame started with timestamp `ts`. */
  ghost predicate Opened(pt: nat, depay: Depacketizer, stream: seq<Packet>, ts: nat, l: nat) {
    exists s: nat :: s <= l && s < |stream| && Starts(pt, depay, stream[s]) && stream[s].ts == ts
  }

  /** Where the receiver is fits packet `l`. */
  ghost predicate Fair(pt: nat, depay: Depacketizer, stream: seq<Packet>, rx: Rx, l: nat)
    requires l < |stream|
  {
    if rx.assembling then Opened(pt, depay, stream, rx.curTs, l) else Closes(pt, stream[l])
  }

  /** The last gap was from `g` to `k`, and nothing but error correction came since. */
  ghost predicate Concealed(pt: nat, depay: Depacketizer, stream: seq<Packet>, rx: Rx, l: nat, g: nat, k: nat)
    requires l < |stream|
  {
    && g + 2 <= k <= l && k < g + TWO_16
    && (forall x | k <= x <= l :: IsFore(pt, stream[x])) && Fair(pt, depay, stream, rx, g)
  }

  /** After packet `l`: what was missed was noticed, or the last of it hides behind error correction. */
  ghost predicate Noticed(pt: nat, depay: Depacketizer, stream: seq<Packet>, rx: Rx, l: nat, missed: bool)
    requires l < |stream|
  {
    Alert(rx) || (Fair(pt, depay, stream, rx, l) &&
                  (missed ==> exists g, k :: Concealed(pt, depay, stream, rx, l, g, k)))
  }

  lemma NoGap(base: nat, l: nat, x: nat)
    requires l < x < l + TWO_16
    ensures Next16((base + l) % TWO_16) == (base + x) % TWO_16 <==> x == l + 1
  {
    if Next16((base + l) % TWO_16) == (base + x) % TWO_16 {
      SameResidue(base + l + 1, base + x);
    }
  }

  lemma ForeNoticed(pt: nat, depay: Depacketizer, stream: seq<Packet>, rx: Rx, l: nat, missed: bool, x: nat)
    requires l < x < |stream| && x < l + TWO_16 && IsFore(pt, stream[x]) && rx.ssrc == Some(stream[x].ssrc)
    requires Noticed(pt, depay, stream, rx, l, missed)
    ensures Noticed(pt, depay, stream, Handle(pt, depay, rx, stream[x]), x, missed || x > l + 1)
  {
    var rx' := Handle(pt, depay, rx, stream[x]);
    if !Alert(rx) {
      assert Fair(pt, depay, stream, rx', l);
      if x > l + 1 {
        assert Concealed(pt, depay, stream, rx', x, l, x);
      } else if missed {
        var g, k :| Concealed(pt, depay, stream, rx, l, g, k);
        assert Concealed(pt, depay, stream, rx', x, g, k);
      }
    }
  }

  /** A media packet after a gap, or with something wrong already: noticed; at a frame start the flag is up. */
  lemma MediaAlert(pt: nat, depay: Depacketizer, rx: Rx, p: Packet)
    requires RoleOf(pt, p).Media? && rx.ssrc == Some(p.ssrc) && (Alert(rx) || !Contiguous(rx, p.seqNo))
    ensures var rx' := Handle(pt, depay, rx, p); Alert(rx') && (Starts(pt, depay, p) ==> rx'.loss)
  {}

  /** A media packet in sequence, all well so far. */
  lemma MediaFair(pt: nat, depay: Depacketizer, stream: seq<Packet>, rx: Rx, x: nat)
    requires x < |stream| && RoleOf(pt, stream[x]).Media? && Lock(rx, stream[x].ssrc) == Some(stream[x].ssrc)
    requires rx.assembling ==> Opened(pt, depay, stream, rx.curTs, x)
    ensures var rx' := Handle(pt, depay, rx, stream[x]); Alert(rx') || Fair(pt, depay, stream, rx', x)
  {
    var rx' := Handle(pt, depay, rx, stream[x]);
    if Starts(pt, depay, stream[x]) && rx'.assembling {
      assert rx'.curTs == stream[x].ts;
    }
  }

  /** The first media packet after a hidden gap shows it. */
  lemma MediaReveals(pt: nat, depay: Depacketizer, stream: seq<Packet>, rx: Rx, l: nat, g: nat, k: nat)
    requires NothingHidden(pt, depay, stream) && l + 1 < |stream| && StartFrom(pt, depay, stream, l + 1)
    requires RoleOf(pt, stream[l + 1]).Media? && rx.ssrc == Some(stream[l + 1].ssrc)
    requires Concealed(pt, depay, stream, rx, l, g, k)
    ensures var rx' := Handle(pt, depay, rx, stream[l + 1]);
      Alert(rx') && (Starts(pt, depay, stream[l + 1]) ==> rx'.loss)
  {
    assert NextMedia(pt, stream, k, l + 1) && !Hides(pt, depay, stream, k, l + 1);
    if Starts(pt, depay, stream[l + 1]) {
      assert rx.assembling;
    } else if rx.assembling {
      var s: nat :| s <= g && Starts(pt, depay, stream[s]) && stream[s].ts == rx.curTs;
      assert stream[s].ts != stream[l + 1].ts;
    }
  }

  lemma MediaNoticed(pt: nat, depay: Depacketizer, stream: seq<Packet>, rx: Rx, l: nat, missed: bool, x: nat)
    requires NothingHidden(pt, depay, stream) && l < x < |stream| && StartFrom(pt, depay, stream, x)
    requires RoleOf(pt, stream[x]).Media? && rx.ssrc == Some(stream[x].ssrc)
    requires (Contiguous(rx, stream[x].seqNo) <==> x == l + 1) && Noticed(pt, depay, stream, rx, l, missed)
    ensures var rx', now := Handle(pt, depay, rx, stream[x]), missed || x > l + 1;
      Noticed(pt, depay, stream, rx', x, now) && (now && Starts(pt, depay, stream[x]) ==> rx'.loss)
  {
    if Alert(rx) || x > l + 1 {
      MediaAlert(pt, depay, rx, stream[x]);
    } else if missed {
      var g, k :| Concealed(pt, depay, stream, rx, l, g, k);
      MediaReveals(pt, depay, stream, rx, l, g, k);
    } else {
      MediaFair(pt, depay, stream, rx, x);
    }
  }

  /** Whatever is handled of the locked stream, the receiver stands there afterwards. */
  lemma StandsNext(pt: nat, depay: Depacketizer, stream: seq<Packet>, ssrc: nat, base: nat, rx: Rx, x: nat)
    requires InOrderStream(pt, stream, ssrc, base) && x < |stream| && Lock(rx, ssrc) == Some(ssrc)
    ensures StandsAt(Handle(pt, depay, rx, stream[x]), ssrc, base, x)
  {
    assert stream[x].ssrc == ssrc && stream[x].seqNo == (base + x) % TWO_16;
  }

  lemma StepNoticed(pt: nat, depay: Depacketizer, stream: seq<Packet>, ssrc: nat, base: nat, rx: Rx, l: nat,
                    missed: bool, x: nat)
    requires InOrderStream(pt, stream, ssrc, base) && NothingHidden(pt, depay, stream)
    requires l < x < |stream| && x < l + TWO_16 && StartFrom(pt, depay, stream, x)
    requires StandsAt(rx, ssrc, base, l) && Noticed(pt, depay, stream, rx, l, missed)
    ensures var rx', now := Handle(pt, depay, rx, stream[x]), missed || x > l + 1;
      && StandsAt(rx', ssrc, base, x) && Noticed(pt, depay, stream, rx', x, now)
      && (now && Starts(pt, depay, stream[x]) ==> rx'.loss)
  {
    assert stream[x].ssrc == ssrc && stream[x].seqNo == (base + x) % TWO_16;
    StandsNext(pt, depay, stream, ssrc, base, rx, x);
    NoGap(base, l, x);
    if IsFore(pt, stream[x]) {
      ForeNoticed(pt, depay, stream, rx, l, missed, x);
    } else {
      MediaNoticed(pt, depay, stream, rx, l, missed, x);
    }
  }

  /** Something between the first and the last of these did not get through. */
  ghost predicate Lossy(ks: seq<nat>) { exists i :: 0 < i < |ks| && ks[i] > ks[i - 1] + 1 }

  lemma LossySnoc(ks: seq<nat>)
    requires |ks| > 1
    ensures Lossy(ks) <==> Lossy(ks[..|ks| - 1]) || ks[|ks| - 1] > ks[|ks| - 2] + 1
  {
    var init := ks[..|ks| - 1];
    if Lossy(init) {
      var i :| 0 < i < |init| && init[i] > init[i - 1] + 1;
      assert ks[i] > ks[i - 1] + 1;
    }
    if Lossy(ks) {
      var i :| 0 < i < |ks| && ks[i] > ks[i - 1] + 1;
      assert i < |init| ==> init[i] > init[i - 1] + 1;
    }
  }

  lemma HandleSnoc(pt: nat, depay: Depacketizer, rx: Rx, ps: seq<Packet>, p: Packet)
    ensures HandleAll(pt, depay, rx, ps + [p]) == Handle(pt, depay, HandleAll(pt, depay, rx, ps), p)
  {
    HandleAllConcat(pt, depay, rx, ps, [p]);
    assert [p][1..] == [];
  }

  lemma {:induction false} RunNoticed(pt: nat, depay: Depacketizer, stream: seq<Packet>, ssrc: nat, base: nat,
                                      ks: seq<nat>)
    requires InOrderStream(pt, stream, ssrc, base) && NothingHidden(pt, depay, stream)
    requires Survivors(stream, ks) && ks != [] && StartFrom(pt, depay, stream, ks[|ks| - 1])
    ensures var rx, last := HandleAll(pt, depay, FRESH, Arrivals(stream, ks)), ks[|ks| - 1];
      && StandsAt(rx, ssrc, base, last) && Noticed(pt, depay, stream, rx, last, Lossy(ks))
      && (Lossy(ks) && Starts(pt, depay, stream[last]) ==> rx.loss)
    decreases |ks|
  {
    var n := |ks| - 1;
    var init := ks[..n];
    ArrivalsSnoc(stream, ks);
    HandleSnoc(pt, depay, FRESH, Arrivals(stream, init), stream[ks[n]]);
    if n == 0 {
      assert Arrivals(stream, init) == [] && stream[ks[0]].ssrc == ssrc;
      if !IsFore(pt, stream[ks[0]]) {
        MediaFair(pt, depay, stream, FRESH, ks[0]);
      }
    } else {
      RunNoticed(pt, depay, stream, ssrc, base, init);
      LossySnoc(ks);
      StepNoticed(pt, depay, stream, ssrc, base, HandleAll(pt, depay, FRESH, Arrivals(stream, init)), ks[n - 1],
                  Lossy(init), ks[n]);
    }
  }

  // ---------------------------------------------------------------- unseen for good

  /** Nothing is wrong, and the frame that the first `n` packets leave open, if any, is being assembled. */
  ghost predicate QuietAt(pt: nat, stream: seq<Packet>, ssrc: nat, rx: Rx, n: nat)
    requires n <= |stream|
  {
    && rx.ssrc == Some(ssrc) && !rx.loss
    && match OpenAt(pt, stream, n)
       case None => !rx.assembling
       case Some(ts) => rx.assembling && !rx.broken && rx.curTs == ts
  }

  /** The same right after packet `x`. */
  ghost predicate Steady(pt: nat, stream: seq<Packet>, ssrc: nat, base: nat, rx: Rx, x: nat)
    requires x < |stream|
  {
    QuietAt(pt, stream, ssrc, rx, x + 1) && StandsAt(rx, ssrc, base, x)
  }

  lemma SteadyStep(pt: nat, depay: Depacketizer, stream: seq<Packet>, ssrc: nat, base: nat, rx: Rx, x: nat)
    requires InOrderStream(pt, stream, ssrc, base) && WholeFrames(pt, depay, stream) && x + 1 < |stream|
    requires Steady(pt, stream, ssrc, base, rx, x)
    ensures Steady(pt, stream, ssrc, base, Handle(pt, depay, rx, stream[x + 1]), x + 1)
  {
    assert stream[x + 1].ssrc == ssrc && stream[x + 1].seqNo == (base + (x + 1)) % TWO_16;
    assert FitsAt(pt, depay, stream, x + 1);
    NoGap(base, x, x + 1);
  }

  lemma {:induction false} SteadyRun(pt: nat, depay: Depacketizer, stream: seq<Packet>, ssrc: nat, base: nat, rx: Rx,
                                     x: nat, y: nat)
    requires InOrderStream(pt, stream, ssrc, base) && WholeFrames(pt, depay, stream) && x <= y < |stream|
    requires Steady(pt, stream, ssrc, base, rx, x)
    ensures Steady(pt, stream, ssrc, base, HandleAll(pt, depay, rx, stream[x + 1..y + 1]), y)
    decreases y - x
  {
    if x < y {
      SteadyStep(pt, depay, stream, ssrc, base, rx, x);
      assert stream[x + 1..y + 1][1..] == stream[x + 2..y + 1];
      SteadyRun(pt, depay, stream, ssrc, base, Handle(pt, depay, rx, stream[x + 1]), x + 1, y);
    }
  }

  /** From the start of a frame on. */
  lemma SteadyFrom(pt: nat, depay: Depacketizer, stream: seq<Packet>, ssrc: nat, base: nat, s: nat, y: nat)
    requires InOrderStream(pt, stream, ssrc, base) && WholeFrames(pt, depay, stream) && s <= y < |stream|
    requires Starts(pt, depay, stream[s])
    ensures Steady(pt, stream, ssrc, base, HandleAll(pt, depay, FRESH, stream[s..y + 1]), y)
  {
    assert stream[s].ssrc == ssrc && stream[s].seqNo == (base + s) % TWO_16;
    assert stream[s..y + 1][0] == stream[s] && stream[s..y + 1][1..] == stream[s + 1..y + 1];
    SteadyRun(pt, depay, stream, ssrc, base, Handle(pt, depay, FRESH, stream[s]), s, y);
  }

  function Range(a: nat, b: nat): (ks: seq<nat>)
    requires a <= b
  {
    seq(b - a, i => a + i)
  }

  /** All from `a` to `g`, and all from `k` to `z`. */
  function Skipping(a: nat, g: nat, k: nat, z: nat): seq<nat>
    requires a <= g && k <= z
  {
    Range(a, g + 1) + Range(k, z + 1)
  }

  lemma SkippingSurvives(stream: seq<Packet>, a: nat, g: nat, k: nat, z: nat)
    requires a <= g && g + 2 <= k <= z < |stream| && k < g + TWO_16
    ensures var ks := Skipping(a, g, k, z); Survivors(stream, ks) && Lossy(ks) && |ks| > 1 && ks[|ks| - 1] == z
  {
    var ks := Skipping(a, g, k, z);
    var n := g + 1 - a;
    assert forall i | 0 <= i < n :: ks[i] == a + i;
    assert forall i | n <= i < |ks| :: ks[i] == k + (i - n);
    assert ks[n] == k && ks[n - 1] == g;
  }

  lemma SkippingArrivals(stream: seq<Packet>, a: nat, g: nat, k: nat, z: nat)
    requires a <= g < |stream| && k <= z < |stream|
    requires var ks := Skipping(a, g, k, z); forall i | 0 <= i < |ks| :: ks[i] < |stream|
    ensures Arrivals(stream, Skipping(a, g, k, z)) == stream[a..g + 1] + stream[k..z + 1]
  {}

  /** The receiver after error-correction packet `k`: what came before `k`, it does not miss. */
  lemma SteadyAcross(pt: nat, depay: Depacketizer, stream: seq<Packet>, ssrc: nat, base: nat, rx: Rx, k: nat)
    requires InOrderStream(pt, stream, ssrc, base) && k < |stream| && IsFore(pt, stream[k])
    requires QuietAt(pt, stream, ssrc, rx, k)
    ensures Steady(pt, stream, ssrc, base, Handle(pt, depay, rx, stream[k]), k)
  {
    assert stream[k].ssrc == ssrc && stream[k].seqNo == (base + k) % TWO_16;
  }

  lemma {:induction false} OpenOverFore(pt: nat, stream: seq<Packet>, k: nat, m: nat)
    requires k <= m <= |stream| && forall x | k <= x < m :: IsFore(pt, stream[x])
    ensures OpenAt(pt, stream, m) == OpenAt(pt, stream, k)
    decreases m - k
  {
    if k < m {
      OpenOverFore(pt, stream, k, m - 1);
    }
  }

  /**
   * In a stream of whole frames only the frame that is open at `k` can be between `k - 2` and a media packet right
   * after `k`.
   */
  lemma OpenBefore(pt: nat, depay: Depacketizer, stream: seq<Packet>, s: nat, k: nat, m: nat)
    requires WholeFrames(pt, depay, stream) && NextMedia(pt, stream, k, m) && IsFore(pt, stream[k])
    requires !Starts(pt, depay, stream[m])
    requires s + 2 <= k && Starts(pt, depay, stream[s]) && stream[s].ts == stream[m].ts
    ensures OpenAt(pt, stream, k) == Some(stream[m].ts) == OpenAt(pt, stream, k - 1)
  {
    assert FitsAt(pt, depay, stream, m) && FitsAt(pt, depay, stream, k - 1);
    OpenOverFore(pt, stream, k, m);
  }

  /** A run that ends between frames. */
  lemma QuietClose(pt: nat, depay: Depacketizer, stream: seq<Packet>, ssrc: nat, base: nat, e: nat) returns (a: nat)
    requires InOrderStream(pt, stream, ssrc, base) && WholeFrames(pt, depay, stream)
    requires e < |stream| && Closes(pt, stream[e])
    ensures a <= e
    ensures var rx := HandleAll(pt, depay, FRESH, stream[a..e + 1]); rx.ssrc == Some(ssrc) && !rx.loss && !rx.assembling
  {
    assert stream[e].ssrc == ssrc;
    if IsFore(pt, stream[e]) {
      a := e;
      assert stream[e..e + 1] == [stream[e]] && [stream[e]][1..] == [];
    } else {
      assert FitsAt(pt, depay, stream, e);
      a := e;
      if !Starts(pt, depay, stream[e]) {
        a := OpenHasStart(pt, depay, stream, e);
      }
      SteadyFrom(pt, depay, stream, ssrc, base, a, e);
    }
  }

  /** Nothing is open where a frame starts after error correction. */
  lemma NoneOpen(pt: nat, depay: Depacketizer, stream: seq<Packet>, k: nat, m: nat)
    requires WholeFrames(pt, depay, stream) && NextMedia(pt, stream, k, m) && IsFore(pt, stream[k])
             && Starts(pt, depay, stream[m])
    ensures OpenAt(pt, stream, k) == None
  {
    assert FitsAt(pt, depay, stream, m);
    OpenOverFore(pt, stream, k, m);
  }

  lemma SkippingHandled(pt: nat, depay: Depacketizer, stream: seq<Packet>, a: nat, g: nat, k: nat, z: nat)
    requires a <= g < |stream| && k <= z < |stream|
    ensures HandleAll(pt, depay, FRESH, stream[a..g + 1] + stream[k..z + 1]) ==
            HandleAll(pt, depay, Handle(pt, depay, HandleAll(pt, depay, FRESH, stream[a..g + 1]), stream[k]),
                      stream[k + 1..z + 1])
  {
    HandleAllConcat(pt, depay, FRESH, stream[a..g + 1], stream[k..z + 1]);
    assert stream[k..z + 1][0] == stream[k] && stream[k..z + 1][1..] == stream[k + 1..z + 1];
  }

  lemma SkippingQuiet(pt: nat, depay: Depacketizer, stream: seq<Packet>, ssrc: nat, base: nat, a: nat, g: nat, k: nat,
                      z: nat)
    requires InOrderStream(pt, stream, ssrc, base) && WholeFrames(pt, depay, stream)
    requires a <= g < |stream| && k <= z < |stream| && IsFore(pt, stream[k])
    requires QuietAt(pt, stream, ssrc, HandleAll(pt, depay, FRESH, stream[a..g + 1]), k)
    ensures !HandleAll(pt, depay, FRESH, stream[a..g + 1] + stream[k..z + 1]).loss
  {
    var before := HandleAll(pt, depay, FRESH, stream[a..g + 1]);
    SteadyAcross(pt, depay, stream, ssrc, base, before, k);
    SkippingHandled(pt, depay, stream, a, g, k, z);
    SteadyRun(pt, depay, stream, ssrc, base, Handle(pt, depay, before, stream[k]), k, z);
  }

  /** A delivery that misses packets, comes to the start of a frame, and has not raised the flag. */
  ghost predicate Unseen(pt: nat, depay: Depacketizer, stream: seq<Packet>, ks: seq<nat>) {
    && Survivors(stream, ks) && Lossy(ks) && |ks| > 1 && Starts(pt, depay, stream[ks[|ks| - 1]])
    && !HandleAll(pt, depay, FRESH, Arrivals(stream, ks)).loss
  }

  lemma SkippingUnseen(pt: nat, depay: Depacketizer, stream: seq<Packet>, ssrc: nat, base: nat, a: nat, g: nat, k: nat,
                       z: nat)
    requires InOrderStream(pt, stream, ssrc, base) && WholeFrames(pt, depay, stream)
    requires a <= g && g + 2 <= k <= z < |stream| && k < g + TWO_16
    requires IsFore(pt, stream[k]) && Starts(pt, depay, stream[z])
    requires QuietAt(pt, stream, ssrc, HandleAll(pt, depay, FRESH, stream[a..g + 1]), k)
    ensures Unseen(pt, depay, stream, Skipping(a, g, k, z))
  {
    SkippingSurvives(stream, a, g, k, z);
    SkippingArrivals(stream, a, g, k, z);
    SkippingQuiet(pt, depay, stream, ssrc, base, a, g, k, z);
  }

  /** Where a start hides something, there is such a delivery. */
  lemma StartUnseen(pt: nat, depay: Depacketizer, stream: seq<Packet>, ssrc: nat, base: nat, g: nat, k: nat, m: nat,
                    z: nat)
    returns (ks: seq<nat>)
    requires InOrderStream(pt, stream, ssrc, base) && WholeFrames(pt, depay, stream)
    requires NextMedia(pt, stream, k, m) && IsFore(pt, stream[k]) && m <= z < |stream| && Starts(pt, depay, stream[z])
    requires Starts(pt, depay, stream[m]) && g + 2 <= k < g + TWO_16 && Closes(pt, stream[g])
    ensures Unseen(pt, depay, stream, ks)
  {
    var a := QuietClose(pt, depay, stream, ssrc, base, g);
    NoneOpen(pt, depay, stream, k, m);
    ks := Skipping(a, g, k, z);
    SkippingUnseen(pt, depay, stream, ssrc, base, a, g, k, z);
  }

  lemma RestQuiet(pt: nat, depay: Depacketizer, stream: seq<Packet>, ssrc: nat, base: nat, k: nat, m: nat, a: nat)
    requires InOrderStream(pt, stream, ssrc, base) && WholeFrames(pt, depay, stream)
    requires NextMedia(pt, stream, k, m) && IsFore(pt, stream[k]) && !Starts(pt, depay, stream[m])
    requires a + 2 <= k && Starts(pt, depay, stream[a]) && stream[a].ts == stream[m].ts
    ensures QuietAt(pt, stream, ssrc, HandleAll(pt, depay, FRESH, stream[a..k - 1]), k)
  {
    OpenBefore(pt, depay, stream, a, k, m);
    SteadyFrom(pt, depay, stream, ssrc, base, a, k - 2);
  }

  /** Where the rest of a frame does, there is one. */
  lemma RestUnseen(pt: nat, depay: Depacketizer, stream: seq<Packet>, ssrc: nat, base: nat, a: nat, k: nat, m: nat,
                   z: nat)
    returns (ks: seq<nat>)
    requires InOrderStream(pt, stream, ssrc, base) && WholeFrames(pt, depay, stream)
    requires NextMedia(pt, stream, k, m) && IsFore(pt, stream[k]) && m <= z < |stream| && Starts(pt, depay, stream[z])
    requires !Starts(pt, depay, stream[m])
    requires a + 2 <= k && Starts(pt, depay, stream[a]) && stream[a].ts == stream[m].ts
    ensures Unseen(pt, depay, stream, ks)
  {
    RestQuiet(pt, depay, stream, ssrc, base, k, m, a);
    ks := Skipping(a, k - 2, k, z);
    SkippingUnseen(pt, depay, stream, ssrc, base, a, k - 2, k, z);
  }

  /** An error-correction packet that can hide a gap does so, for good, in some delivery. */
  lemma ForeignHidesGap(pt: nat, depay: Depacketizer, stream: seq<Packet>, ssrc: nat, base: nat, k: nat, m: nat)
    returns (ks: seq<nat>)
    requires InOrderStream(pt, stream, ssrc, base) && WholeFrames(pt, depay, stream)
    requires NextMedia(pt, stream, k, m) && IsFore(pt, stream[k]) && StartFrom(pt, depay, stream, m)
    requires Hides(pt, depay, stream, k, m)
    ensures Unseen(pt, depay, stream, ks)
  {
    var z :| m <= z < |stream| && Starts(pt, depay, stream[z]);
    if Starts(pt, depay, stream[m]) {
      var g: nat :| g + 2 <= k < g + TWO_16 && Closes(pt, stream[g]);
      ks := StartUnseen(pt, depay, stream, ssrc, base, g, k, m, z);
    } else {
      var a: nat :| a + 2 <= k && Starts(pt, depay, stream[a]) && stream[a].ts == stream[m].ts;
      ks := RestUnseen(pt, depay, stream, ssrc, base, a, k, m, z);
    }
  }

  // ---------------------------------------------------------------- exactly when

  lemma AppendFlag(rx: Rx, body: seq<Byte>, marker: bool)
    ensures var rx' := Append(rx.(loss := false), body, marker);
      Append(rx, body, marker) == rx'.(loss := rx.loss || rx'.loss)
  {}

  lemma AcceptFlag(rx: Rx, p: Packet, vp8: Option<Vp8>)
    ensures var rx' := Accept(rx.(loss := false), p, vp8); Accept(rx, p, vp8) == rx'.(loss := rx.loss || rx'.loss)
  {
    var contiguous, seen := Contiguous(rx, p.seqNo), rx.(prevSeq := Some(p.seqNo));
    if vp8.Some? {
      if vp8.value.Start() {
        var clean := if seen.assembling then Drop(seen) else seen;
        var begun := clean.(cur := [], curTs := p.ts, assembling := true, broken := false,
                                  loss := clean.loss || !contiguous);
        AppendFlag(begun, vp8.value.body, p.marker);
      } else if seen.assembling {
        AppendFlag(seen.(broken := seen.broken || !contiguous || p.ts != seen.curTs), vp8.value.body, p.marker);
      }
    }
  }

  lemma HandleAccepts(pt: nat, depay: Depacketizer, rx: Rx, p: Packet, payload: seq<Byte>)
    requires RoleOf(pt, p) == Media(payload) && Lock(rx, p.ssrc) == Some(p.ssrc)
    ensures Handle(pt, depay, rx, p) == Accept(Locked(rx, p), p, depay(payload))
  {}

  lemma LossFlag(pt: nat, depay: Depacketizer, rx: Rx, p: Packet)
    ensures var rx' := Handle(pt, depay, rx.(loss := false), p);
      Handle(pt, depay, rx, p) == rx'.(loss := rx.loss || rx'.loss)
  {
    var role, off := RoleOf(pt, p), rx.(loss := false);
    if role.Media? && Lock(rx, p.ssrc) == Some(p.ssrc) {
      HandleAccepts(pt, depay, rx, p, role.payload);
      HandleAccepts(pt, depay, off, p, role.payload);
      AcceptFlag(Locked(rx, p), p, depay(role.payload));
      assert Locked(off, p) == Locked(rx, p).(loss := false);
    }
  }

  /**
   * Taking the flag whenever it is raised changes nothing else: it was ever raised iff it is up when nobody takes it.
   */
  lemma {:induction false} RaisedIsLoss(pt: nat, depay: Depacketizer, w: Watched, rx: Rx, ps: seq<Packet>)
    requires rx == w.rx.(loss := w.raised) && (w.rx.loss ==> w.raised)
    ensures WatchAll(pt, depay, w, ps).raised == HandleAll(pt, depay, rx, ps).loss
    decreases |ps|
  {
    if ps != [] {
      LossFlag(pt, depay, rx, ps[0]);
      assert rx.(loss := false) == w.rx.(loss := false);
      RaisedIsLoss(pt, depay, Watch(pt, depay, w, ps[0]), Handle(pt, depay, rx, ps[0]), ps[1..]);
    }
  }

  /**
   * A delivery in order, to a new receiver, that misses something and comes to the start of a frame: is the flag up by
   * then?
   */
  ghost predicate Seen(pt: nat, depay: Depacketizer, stream: seq<Packet>, ks: seq<nat>)
    requires Survivors(stream, ks)
  {
    Lossy(ks) && Starts(pt, depay, stream[ks[|ks| - 1]]) ==>
      WatchAll(pt, depay, Watched(FRESH, false), Arrivals(stream, ks)).raised
  }

  /**
   * Every loss is signalled by the next frame start, whatever is lost from a stream of whole frames, if and only if no
   * error-correction packet with a frame start after it hides a gap before it.
   */
  lemma LossSeenIff(pt: nat, depay: Depacketizer, stream: seq<Packet>, ssrc: nat, base: nat)
    requires InOrderStream(pt, stream, ssrc, base) && WholeFrames(pt, depay, stream)
    ensures (forall ks: seq<nat> | Survivors(stream, ks) :: Seen(pt, depay, stream, ks)) <==>
            NothingHidden(pt, depay, stream)
  {
    if NothingHidden(pt, depay, stream) {
      forall ks: seq<nat> | Survivors(stream, ks) ensures Seen(pt, depay, stream, ks) {
        if Lossy(ks) && Starts(pt, depay, stream[ks[|ks| - 1]]) {
          RunNoticed(pt, depay, stream, ssrc, base, ks);
          RaisedIsLoss(pt, depay, Watched(FRESH, false), FRESH, Arrivals(stream, ks));
        }
      }
    } else {
      var k: nat, m: nat :| NextMedia(pt, stream, k, m) && IsFore(pt, stream[k]) && StartFrom(pt, depay, stream, m)
                            && Hides(pt, depay, stream, k, m);
      var ks := ForeignHidesGap(pt, depay, stream, ssrc, base, k, m);
      RaisedIsLoss(pt, depay, Watched(FRESH, false), FRESH, Arrivals(stream, ks));
      assert !Seen(pt, depay, stream, ks);
    }
  }

  // ---------------------------------------------------------------- an example

  /** Three frames of one packet each, with error correction between the second and the third. */
  const STREAM := [
    Packet(108, 0, 1, 5, true, [], [1, 10]),
    Packet(108, 1, 2, 5, true, [], [1, 20]),
    Packet(120, 2, 0, 5, false, [], []),
    Packet(108, 3, 3, 5, true, [], [1, 30])]

  lemma StreamIsWhole()
    ensures InOrderStream(108, STREAM, 5, 0) && WholeFrames(108, VideoTorn.ToyDepay, STREAM)
    ensures IsFore(108, STREAM[2]) && forall k | 0 <= k < 4 && k != 2 :: Starts(108, VideoTorn.ToyDepay, STREAM[k])
  {
    assert OpenAt(108, STREAM, 1) == None && OpenAt(108, STREAM, 2) == None && OpenAt(108, STREAM, 3) == None;
    assert forall k: nat | k < 4 :: FitsAt(108, VideoTorn.ToyDepay, STREAM, k);
  }

  /** The second of them is lost, the third starts, and the flag was never raised. */
  lemma LostFrameUnseen(ks: seq<nat>)
    requires ks == [0, 2, 3]
    ensures Survivors(STREAM, ks) && Lossy(ks) && Starts(108, VideoTorn.ToyDepay, STREAM[3])
    ensures !WatchAll(108, VideoTorn.ToyDepay, Watched(FRESH, false), Arrivals(STREAM, ks)).raised
  {
    StreamIsWhole();
    var i := 1;
    assert ks[i] > ks[i - 1] + 1;
    var ps := Arrivals(STREAM, ks);
    assert ps == [STREAM[0], STREAM[2], STREAM[3]];
    var w1 := Watch(108, VideoTorn.ToyDepay, Watched(FRESH, false), STREAM[0]);
    assert !w1.raised && !w1.rx.assembling && w1.rx.prevSeq == Some(0) && w1.rx.ssrc == Some(5);
    var w2 := Watch(108, VideoTorn.ToyDepay, w1, STREAM[2]);
    assert !w2.raised && !w2.rx.assembling && w2.rx.prevSeq == Some(2) && w2.rx.ssrc == Some(5);
    assert !Watch(108, VideoTorn.ToyDepay, w2, STREAM[3]).raised;
    WatchThree(108, VideoTorn.ToyDepay, Watched(FRESH, false), STREAM[0], STREAM[2], STREAM[3]);
  }

  lemma WatchThree(pt: nat, depay: Depacketizer, w: Watched, a: Packet, b: Packet, c: Packet)
    ensures WatchAll(pt, depay, w, [a, b, c]) == Watch(pt, depay, Watch(pt, depay, Watch(pt, depay, w, a), b), c)
  {
    var none: seq<Packet> := [];
    assert none + [a] == [a] && [a] + [b] == [a, b] && [a, b] + [c] == [a, b, c];
    WatchSnoc(pt, depay, w, none, a);
    WatchSnoc(pt, depay, w, [a], b);
    WatchSnoc(pt, depay, w, [a, b], c);
  }

  // ---------------------------------------------------------------- the streams that are sent

  lemma {:induction false} OpenPrefix(pt: nat, a: seq<Packet>, b: seq<Packet>, n: nat)
    requires n <= |a|
    ensures OpenAt(pt, a + b, n) == OpenAt(pt, a, n)
  {
    if n > 0 {
      OpenPrefix(pt, a, b, n - 1);
    }
  }

  ghost predicate AllFit(pt: nat, depay: Depacketizer, stream: seq<Packet>) {
    forall k: nat | k < |stream| :: FitsAt(pt, depay, stream, k)
  }

  /** The frame open after the first `n` fragments of `f`. */
  function Unfinished(f: Sent, n: nat): Option<nat> { if n == 0 || n == |f.frags| then None else Some(f.ts) }

  lemma FitsNext(pt: nat, depay: Depacketizer, ssrc: nat, f: Sent, n: nat, before: seq<Packet>, ps: seq<Packet>)
    requires WellCut(depay, f) && n <= |f.frags| && Sends(pt, ssrc, f, n, ps) && ps != []
    requires OpenAt(pt, before, |before|) == Unfinished(f, n) && AllFit(pt, depay, before)
    ensures var n' := if IsFore(pt, ps[0]) then n else n + 1;
      && n' <= |f.frags| && Sends(pt, ssrc, f, n', ps[1..])
      && AllFit(pt, depay, before + [ps[0]]) && OpenAt(pt, before + [ps[0]], |before| + 1) == Unfinished(f, n')
      && (Starts(pt, depay, ps[0]) ==> n == 0 && ps[0].ts == f.ts)
  {
    var next := before + [ps[0]];
    SendsCons(pt, ssrc, f, n, ps);
    OpenPrefix(pt, before, [ps[0]], |before|);
    forall k: nat | k < |next| ensures FitsAt(pt, depay, next, k) {
      if k < |before| {
        OpenPrefix(pt, before, [ps[0]], k);
        assert FitsAt(pt, depay, before, k);
      }
    }
  }

  /** The packets of one frame: they fit, and only the first fragment is a start. */
  lemma {:induction false} FrameFits(pt: nat, depay: Depacketizer, ssrc: nat, f: Sent, n: nat, before: seq<Packet>,
                                     ps: seq<Packet>)
    requires WellCut(depay, f) && n <= |f.frags| && Sends(pt, ssrc, f, n, ps)
    requires OpenAt(pt, before, |before|) == Unfinished(f, n) && AllFit(pt, depay, before)
    ensures AllFit(pt, depay, before + ps) && OpenAt(pt, before + ps, |before + ps|) == None
    ensures forall k | 0 <= k < |ps| && Starts(pt, depay, ps[k]) :: n == 0 && ps[k].ts == f.ts
    ensures forall j, k | 0 <= j < k < |ps| && Starts(pt, depay, ps[j]) :: !Starts(pt, depay, ps[k])
    decreases |ps|
  {
    if ps == [] {
      assert before + ps == before;
    } else {
      FitsNext(pt, depay, ssrc, f, n, before, ps);
      assert before + [ps[0]] + ps[1..] == before + ps;
      FrameFits(pt, depay, ssrc, f, if IsFore(pt, ps[0]) then n else n + 1, before + [ps[0]], ps[1..]);
      assert forall k | 0 < k < |ps| :: ps[k] == ps[1..][k - 1];
    }
  }

  /** Every start in `stream` is a start of one of `sent`, each has at most one, and no two are of one timestamp. */
  ghost predicate StartsOf(pt: nat, depay: Depacketizer, sent: seq<Sent>, stream: seq<Packet>) {
    && (forall k | 0 <= k < |stream| && Starts(pt, depay, stream[k]) :: exists j ::
        0 <= j < |sent| && sent[j].ts == stream[k].ts)
    && (forall s, t | 0 <= s < t < |stream| && Starts(pt, depay, stream[s]) && Starts(pt, depay, stream[t]) ::
          stream[s].ts != stream[t].ts)
  }

  lemma StartsCons(pt: nat, depay: Depacketizer, sent: seq<Sent>, ps: seq<Packet>, rest: seq<Packet>)
    requires sent != [] && forall j, k | 0 <= j < k < |sent| :: sent[j].ts != sent[k].ts
    requires forall k | 0 <= k < |ps| && Starts(pt, depay, ps[k]) :: ps[k].ts == sent[0].ts
    requires forall j, k | 0 <= j < k < |ps| && Starts(pt, depay, ps[j]) :: !Starts(pt, depay, ps[k])
    requires StartsOf(pt, depay, sent[1..], rest)
    ensures StartsOf(pt, depay, sent, ps + rest)
  {
    var all := ps + rest;
    forall k | 0 <= k < |all| && Starts(pt, depay, all[k])
      ensures exists j :: 0 <= j < |sent| && sent[j].ts == all[k].ts
    {
      if k >= |ps| {
        var j :| 0 <= j < |sent[1..]| && sent[1..][j].ts == rest[k - |ps|].ts;
        assert sent[j + 1].ts == all[k].ts;
      }
    }
    forall s, t | 0 <= s < t < |all| && Starts(pt, depay, all[s]) && Starts(pt, depay, all[t])
      ensures all[s].ts != all[t].ts
    {
      if s < |ps| <= t {
        var j :| 0 <= j < |sent[1..]| && sent[1..][j].ts == rest[t - |ps|].ts;
        assert sent[0].ts != sent[j + 1].ts;
      }
    }
  }

  lemma {:induction false} FramesFit(pt: nat, depay: Depacketizer, ssrc: nat, sent: seq<Sent>, pss: seq<seq<Packet>>,
                                     before: seq<Packet>)
    requires AllSend(pt, depay, ssrc, sent, pss) && forall j, k | 0 <= j < k < |sent| :: sent[j].ts != sent[k].ts
    requires AllFit(pt, depay, before) && OpenAt(pt, before, |before|) == None
    ensures AllFit(pt, depay, before + Flat(pss)) && StartsOf(pt, depay, sent, Flat(pss))
    decreases |sent|
  {
    if sent == [] {
      assert before + Flat(pss) == before;
    } else {
      FrameFits(pt, depay, ssrc, sent[0], 0, before, pss[0]);
      AllSendTail(pt, depay, ssrc, sent, pss);
      FramesFit(pt, depay, ssrc, sent[1..], pss[1..], before + pss[0]);
      assert before + pss[0] + Flat(pss[1..]) == before + Flat(pss);
      StartsCons(pt, depay, sent, pss[0], Flat(pss[1..]));
    }
  }

  /** What brings well-cut frames of distinct timestamps, one after the other, is a stream of whole frames. */
  lemma SentIsWhole(pt: nat, depay: Depacketizer, ssrc: nat, sent: seq<Sent>, pss: seq<seq<Packet>>)
    requires AllSend(pt, depay, ssrc, sent, pss) && forall j, k | 0 <= j < k < |sent| :: sent[j].ts != sent[k].ts
    ensures WholeFrames(pt, depay, Flat(pss))
  {
    var none: seq<Packet> := [];
    FramesFit(pt, depay, ssrc, sent, pss, none);
    assert none + Flat(pss) == Flat(pss);
  }
}
