/** From lost packets to the indication that asks for a key frame: the receiver and the pacing put together. */
module LossAnswered {
  import opened Options
  import opened Video
  import opened VideoSafety
  import opened VideoLoss
  import Pli

  /** What the session sees of the arrivals: each is one datagram, whose raised flag is taken at once. */
  function Datagrams(pt: nat, depay: Depacketizer, rx: Rx, pkts: seq<Packet>): seq<Pli.Event>
    decreases |pkts|
  {
    if pkts == [] then []
    else
      var rx' := Handle(pt, depay, rx.(loss := false), pkts[0]);
      [Pli.Datagram(rx'.loss)] + Datagrams(pt, depay, rx', pkts[1..])
  }

  /** The datagrams among the events, in order. */
  function OnlyDatagrams(evs: seq<Pli.Event>): seq<Pli.Event> {
    if evs == [] then [] else (if evs[0].Datagram? then [evs[0]] else []) + OnlyDatagrams(evs[1..])
  }

  lemma {:induction false} RaisedIsSeen(pt: nat, depay: Depacketizer, w: Watched, pkts: seq<Packet>)
    ensures WatchAll(pt, depay, w, pkts).raised <==> w.raised || Pli.Datagram(true) in Datagrams(pt, depay, w.rx, pkts)
    decreases |pkts|
  {
    if pkts != [] {
      RaisedIsSeen(pt, depay, Watch(pt, depay, w, pkts[0]), pkts[1..]);
    }
  }

  lemma {:induction false} AmongEvents(evs: seq<Pli.Event>, ev: Pli.Event)
    requires ev in OnlyDatagrams(evs)
    ensures ev in evs
  {
    if evs[0] != ev {
      AmongEvents(evs[1..], ev);
    }
  }

  /**
   * A stream of whole frames in which error correction hides nothing is delivered in order with something missing, up
   * to the start of a frame, and the session's timer fires in between however it likes. Then an indication has left, or
   * leaves at the first timer that can send one.
   */
  lemma LossIsAnswered(pt: nat, depay: Depacketizer, stream: seq<Packet>, ssrc: nat, base: nat, ks: seq<nat>,
                       evs: seq<Pli.Event>, now: nat)
    requires InOrderStream(pt, stream, ssrc, base) && WholeFrames(pt, depay, stream) && NothingHidden(pt, depay, stream)
    requires Survivors(stream, ks) && Lossy(ks) && Starts(pt, depay, stream[ks[|ks| - 1]])
    requires OnlyDatagrams(evs) == Datagrams(pt, depay, FRESH, Arrivals(stream, ks))
    ensures Pli.SendTimes(Pli.NEW, evs) != [] ||
            Pli.SendTimes(Pli.NEW, evs + [Pli.Timer(now, Some(ssrc), true)]) == [now]
  {
    LossSeenIff(pt, depay, stream, ssrc, base);
    assert Seen(pt, depay, stream, ks);
    RaisedIsSeen(pt, depay, Watched(FRESH, false), Arrivals(stream, ks));
    AmongEvents(evs, Pli.Datagram(true));
    var i :| 0 <= i < |evs| && evs[i] == Pli.Datagram(true);
    Pli.SentBefore(Pli.NEW, evs, i);
    if Pli.SendTimes(Pli.NEW, evs) == [] {
      assert Pli.RaisedAt(evs, i);
      Pli.AnsweredIff(evs, now, Some(ssrc), true);
    }
  }
}
