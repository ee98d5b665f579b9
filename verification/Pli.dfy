/**
 * How a session turns raised losses into paced picture-loss indications.
 *
 * Instants are nanoseconds on the session's clock.
 */
module Pli {
  import opened Options

  const PLI_MIN_INTERVAL_MS: nat := 300
  const NS_PER_MS: nat := 1_000_000

  /** `now.duration_since(t).as_millis()`, which is zero for an instant that lies ahead. */
  function MillisSince(now: nat, t: nat): nat {
    if now < t then 0 else (now - t) / NS_PER_MS
  }

  datatype Pacer = Pacer(wanted: bool, lastTx: Option<nat>)

  /** A datagram was handled (`loss`: what the video plane raised), or the timer fired. */
  datatype Event =
    | Datagram(loss: bool)
    | Timer(now: nat, mediaSsrc: Option<nat>, sendable: bool)

  /** No indication has left yet, or the last one is at least 300 ms old. */
  predicate Rested(last: Option<nat>, now: nat) { last.None? || now >= last.value + PLI_MIN_INTERVAL_MS * NS_PER_MS }

  predicate Due(p: Pacer, now: nat) {
    p.lastTx.None? || MillisSince(now, p.lastTx.value) >= PLI_MIN_INTERVAL_MS
  }

  predicate Sends(p: Pacer, ev: Event) {
    ev.Timer? && p.wanted && Due(p, ev.now) && ev.mediaSsrc.Some? && ev.sendable
  }

  function Next(p: Pacer, ev: Event): Pacer {
    match ev
    case Datagram(loss) => p.(wanted := p.wanted || loss)
    case Timer(now, _, _) => if Sends(p, ev) then Pacer(false, Some(now)) else p
  }

  class PeerSession {
    var pliWanted: bool
    var lastPliTx: Option<nat>
    var pliTx: nat

    function View(): Pacer
      reads this
    {
      Pacer(pliWanted, lastPliTx)
    }

    constructor ()
      ensures View() == Pacer(false, None) && pliTx == 0
    {
      pliWanted, lastPliTx, pliTx := false, None, 0;
    }

    /** The loss-to-PLI part of `handle_datagram`. */
    method HandleDatagram(videoLoss: bool)
      modifies this
      ensures View() == Next(old(View()), Datagram(videoLoss)) && pliTx == old(pliTx)
      ensures pliWanted == (old(pliWanted) || videoLoss) && lastPliTx == old(lastPliTx)
    {
      if videoLoss {
        pliWanted := true;
      }
    }

    /**
     * The PLI part of `pump_rtcp`. `mediaSsrc` is the peer's video source once it is known, `sendable`
     * whether the packet could be built and protected.
     */
    method PumpRtcp(now: nat, mediaSsrc: Option<nat>, sendable: bool) returns (sent: bool)
      modifies this
      ensures sent == Sends(old(View()), Timer(now, mediaSsrc, sendable))
      ensures View() == Next(old(View()), Timer(now, mediaSsrc, sendable))
      ensures pliTx == old(pliTx) + if sent then 1 else 0
      ensures sent == (old(pliWanted) && mediaSsrc.Some? && sendable && Rested(old(lastPliTx), now))
      ensures pliWanted == (old(pliWanted) && !sent) && lastPliTx == if sent then Some(now) else old(lastPliTx)
    {
      sent := false;
      if pliWanted {
        var due := lastPliTx.None? || MillisSince(now, lastPliTx.value) >= PLI_MIN_INTERVAL_MS;
        if due && mediaSsrc.Some? && sendable {
          pliTx := pliTx + 1;
          lastPliTx := Some(now);
          pliWanted := false;
          sent := true;
        }
      }
    }
  }

  // ---------------------------------------------------------------- whole runs

  /** The instants at which indications leave. */
  function SendTimes(p: Pacer, evs: seq<Event>): seq<nat>
    decreases |evs|
  {
    if evs == [] then [] else (if Sends(p, evs[0]) then [evs[0].now] else []) + SendTimes(Next(p, evs[0]), evs[1..])
  }

  function After(p: Pacer, evs: seq<Event>): Pacer
    decreases |evs|
  {
    if evs == [] then p else After(Next(p, evs[0]), evs[1..])
  }

  ghost predicate Spaced(times: seq<nat>) {
    forall i | 0 < i < |times| :: times[i] >= times[i - 1] + PLI_MIN_INTERVAL_MS * NS_PER_MS
  }

  /** Whatever happens, and even if the clock stood still, indications are at least 300 ms apart. */
  lemma {:induction false} PlisPaced(p: Pacer, evs: seq<Event>)
    ensures Spaced(SendTimes(p, evs))
    ensures p.lastTx.Some? && SendTimes(p, evs) != [] ==>
              SendTimes(p, evs)[0] >= p.lastTx.value + PLI_MIN_INTERVAL_MS * NS_PER_MS
    decreases |evs|
  {
    if evs != [] {
      var next := Next(p, evs[0]);
      PlisPaced(next, evs[1..]);
      var rest := SendTimes(next, evs[1..]);
      if Sends(p, evs[0]) {
        forall i | 0 < i < |SendTimes(p, evs)|
          ensures SendTimes(p, evs)[i] >= SendTimes(p, evs)[i - 1] + PLI_MIN_INTERVAL_MS * NS_PER_MS
        {
          assert SendTimes(p, evs)[i] == rest[i - 1];
          assert i > 1 ==> SendTimes(p, evs)[i - 1] == rest[i - 2];
        }
      }
    }
  }

  /** An owed indication stays owed until one is sent: it is never forgotten. */
  lemma {:induction false} OwedUntilSent(p: Pacer, evs: seq<Event>)
    requires p.wanted
    ensures After(p, evs).wanted || SendTimes(p, evs) != []
    decreases |evs|
  {
    if evs != [] && !Sends(p, evs[0]) {
      OwedUntilSent(Next(p, evs[0]), evs[1..]);
    }
  }

  /** And it goes out at the first timer that finds it due, the source known and the packet sendable. */
  lemma {:induction false} OwedIsSent(p: Pacer, evs: seq<Event>, now: nat, ssrc: nat)
    requires p.wanted && SendTimes(p, evs) == [] && Due(p, now)
    ensures SendTimes(p, evs + [Timer(now, Some(ssrc), true)]) == [now]
    decreases |evs|
  {
    var tick := Timer(now, Some(ssrc), true);
    if evs == [] {
      assert evs + [tick] == [tick] && [tick][1..] == [];
    } else {
      assert (evs + [tick])[0] == evs[0] && (evs + [tick])[1..] == evs[1..] + [tick];
      OwedIsSent(Next(p, evs[0]), evs[1..], now, ssrc);
    }
  }

  /**
   * No loss, no indication: the number sent never exceeds the number of losses raised, give or take one already owed.
   */
  lemma {:induction false} NoSpuriousPli(p: Pacer, evs: seq<Event>)
    ensures |SendTimes(p, evs)| <= Losses(evs) + if p.wanted then 1 else 0
    decreases |evs|
  {
    if evs != [] {
      NoSpuriousPli(Next(p, evs[0]), evs[1..]);
    }
  }

  function Losses(evs: seq<Event>): nat {
    if evs == [] then 0 else (if evs[0].Datagram? && evs[0].loss then 1 else 0) + Losses(evs[1..])
  }

  // ---------------------------------------------------------------- exactly when an indication leaves

  /** A session that was just set up. */
  const NEW := Pacer(false, None)

  lemma {:induction false} RunSnoc(p: Pacer, evs: seq<Event>, ev: Event)
    ensures After(p, evs + [ev]) == Next(After(p, evs), ev)
    ensures SendTimes(p, evs + [ev]) == SendTimes(p, evs) + if Sends(After(p, evs), ev) then [ev.now] else []
    decreases |evs|
  {
    if evs == [] {
      assert evs + [ev] == [ev] && [ev][1..] == [];
    } else {
      assert (evs + [ev])[0] == evs[0] && (evs + [ev])[1..] == evs[1..] + [ev];
      RunSnoc(Next(p, evs[0]), evs[1..], ev);
    }
  }

  lemma {:induction false} SentBefore(p: Pacer, evs: seq<Event>, i: nat)
    requires i <= |evs|
    ensures |SendTimes(p, evs[..i])| <= |SendTimes(p, evs)|
    decreases |evs|
  {
    if i == |evs| {
      assert evs[..i] == evs;
    } else {
      var init := evs[..|evs| - 1];
      SentBefore(p, init, i);
      assert init[..i] == evs[..i] && evs == init + [evs[|evs| - 1]];
      RunSnoc(p, init, evs[|evs| - 1]);
    }
  }

  ghost predicate RaisedAt(evs: seq<Event>, i: nat) {
    i < |evs| && evs[i] == Datagram(true) && SendTimes(NEW, evs[..i]) == SendTimes(NEW, evs)
  }

  /** A loss was raised, and no indication has left since. */
  ghost predicate Unanswered(evs: seq<Event>) { exists i: nat :: RaisedAt(evs, i) }

  ghost function LastSent(evs: seq<Event>): Option<nat> {
    var times := SendTimes(NEW, evs);
    if times == [] then None else Some(times[|times| - 1])
  }

  lemma UnansweredNext(evs: seq<Event>, ev: Event)
    ensures Unanswered(evs + [ev]) <==> ev == Datagram(true) || (Unanswered(evs) && !Sends(After(NEW, evs), ev))
  {
    var all := evs + [ev];
    RunSnoc(NEW, evs, ev);
    if i: nat :| RaisedAt(all, i) {
      if i < |evs| {
        assert all[..i] == evs[..i];
        SentBefore(NEW, evs, i);
        assert RaisedAt(evs, i);
      }
    }
    if ev == Datagram(true) {
      assert all[..|evs|] == evs;
      assert RaisedAt(all, |evs|);
    }
    if i: nat :| RaisedAt(evs, i) {
      assert all[..i] == evs[..i];
      if !Sends(After(NEW, evs), ev) {
        assert RaisedAt(all, i);
      }
    }
  }

  lemma {:induction false} OwedIff(evs: seq<Event>)
    ensures After(NEW, evs).wanted <==> Unanswered(evs)
    ensures After(NEW, evs).lastTx == LastSent(evs)
    decreases |evs|
  {
    if evs != [] {
      var init, ev := evs[..|evs| - 1], evs[|evs| - 1];
      assert evs == init + [ev];
      OwedIff(init);
      RunSnoc(NEW, init, ev);
      UnansweredNext(init, ev);
    }
  }

  /**
   * In any run an indication leaves at a timer if and only if a loss was raised after the last one left, that one is
   * at least 300 ms old, the source is known and the packet can be sent.
   */
  lemma AnsweredIff(evs: seq<Event>, now: nat, source: Option<nat>, sendable: bool)
    ensures SendTimes(NEW, evs + [Timer(now, source, sendable)]) == SendTimes(NEW, evs)
            + if source.Some? && sendable && Unanswered(evs) && Rested(LastSent(evs), now) then [now] else []
  {
    OwedIff(evs);
    RunSnoc(NEW, evs, Timer(now, source, sendable));
  }

  /** A raised loss is answered: unless an indication leaves before, one does at the first timer that may send it. */
  lemma RaisedIsAnswered(evs: seq<Event>, quiet: seq<Event>, now: nat, ssrc: nat)
    requires SendTimes(NEW, evs + [Datagram(true)] + quiet) == SendTimes(NEW, evs) && Rested(LastSent(evs), now)
    ensures SendTimes(NEW, evs + [Datagram(true)] + quiet + [Timer(now, Some(ssrc), true)]) ==
            SendTimes(NEW, evs) + [now]
  {
    var all := evs + [Datagram(true)] + quiet;
    assert all[..|evs|] == evs && all[|evs|] == Datagram(true);
    assert RaisedAt(all, |evs|);
    AnsweredIff(all, now, Some(ssrc), true);
  }
}
