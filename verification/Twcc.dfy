/**
 * Transport-wide congestion feedback: what the receiver records, the packet it builds, and how a sender reads it.
 *
 * Sequence numbers are 16-bit naturals, times are microseconds since the tracker was made.
 */
module Twcc {
  import opened Sequences

  datatype Arrival = Arrival(seqNo: nat, at: nat)

  datatype Symbol = NotReceived | SmallDelta | LargeDelta

  datatype Feedback = Feedback(
    senderSsrc: nat, mediaSsrc: nat, base: nat, count: nat, reference: nat, fbCount: nat,
    chunks: seq<seq<Symbol>>, deltas: seq<int>)

  const MAX_SPAN := 0x7FFF
  const TICK := 250
  const REFERENCE_UNIT := 64_000
  const REFERENCE_WRAP := 0x100_0000
  const BATCH_CAP := 2048
  const FEEDBACK_INTERVAL := 100_000

  predicate Numbers(pkts: seq<Arrival>) { forall i | 0 <= i < |pkts| :: pkts[i].seqNo < 65536 }

  /** `s.wrapping_sub(first) as i16`. */
  function Off(s: nat, first: nat): int {
    var d := (s - first) % 65536; if d >= 32768 then d - 65536 else d
  }

  lemma OffInjective(s: nat, t: nat, first: nat)
    requires s < 65536 && t < 65536 && Off(s, first) == Off(t, first)
    ensures s == t
  {}

  /** A number is its offset counted from a base that is itself an offset away. */
  lemma OffBack(s: nat, first: nat, low: int)
    requires s < 65536
    ensures ((first + low) % 65536 + (Off(s, first) - low)) % 65536 == s
  {}

  /** The sort key of a batch whose first arrival has number `first`. */
  function KeyOf(first: nat): nat -> int { (s: nat) => Off(s, first) }

  // ---------------------------------------------------------------- sort and dedup

  /** The stable sort, one arrival at a time: a new one goes behind those with the same key. */
  function Insert(l: seq<Arrival>, p: Arrival, key: nat -> int): seq<Arrival> {
    if l == [] || key(l[0].seqNo) > key(p.seqNo) then [p] + l else [l[0]] + Insert(l[1..], p, key)
  }

  function Sort(pkts: seq<Arrival>, key: nat -> int): seq<Arrival> {
    if pkts == [] then [] else Insert(Sort(pkts[..|pkts| - 1], key), pkts[|pkts| - 1], key)
  }

  /** Drops an arrival whose number is that of the one kept before it. */
  function Dedup(last: int, l: seq<Arrival>): seq<Arrival>
    decreases |l|
  {
    if l == [] then []
    else if l[0].seqNo == last then Dedup(last, l[1..])
    else [l[0]] + Dedup(l[0].seqNo, l[1..])
  }

  function Batch(pkts: seq<Arrival>): seq<Arrival>
    requires pkts != []
  {
    Dedup(-1, Sort(pkts, KeyOf(pkts[0].seqNo)))
  }

  ghost predicate Above(low: int, l: seq<Arrival>, key: nat -> int) {
    forall i | 0 <= i < |l| :: low <= key(l[i].seqNo)
  }

  ghost predicate StrictlyAbove(low: int, l: seq<Arrival>, key: nat -> int) {
    forall i | 0 <= i < |l| :: low < key(l[i].seqNo)
  }

  ghost predicate Ascending(l: seq<Arrival>, key: nat -> int) {
    forall i, j | 0 <= i < j < |l| :: key(l[i].seqNo) <= key(l[j].seqNo)
  }

  ghost predicate StrictlyAscending(l: seq<Arrival>, key: nat -> int) {
    forall i, j | 0 <= i < j < |l| :: key(l[i].seqNo) < key(l[j].seqNo)
  }

  ghost predicate Injective(key: nat -> int) {
    forall s: nat, t: nat | s < 65536 && t < 65536 && key(s) == key(t) :: s == t
  }

  lemma KeyInjective(first: nat)
    ensures Injective(KeyOf(first))
  {
    forall s: nat, t: nat | s < 65536 && t < 65536 && KeyOf(first)(s) == KeyOf(first)(t) ensures s == t {
      OffInjective(s, t, first);
    }
  }

  /** The arrival times of number `s`, in order of arrival. */
  function Only(l: seq<Arrival>, s: nat): seq<nat> {
    if l == [] then [] else (if l[0].seqNo == s then [l[0].at] else []) + Only(l[1..], s)
  }

  function FirstOf(times: seq<nat>): seq<nat> { if times == [] then [] else [times[0]] }

  lemma {:induction false} OnlyNone(l: seq<Arrival>, s: nat)
    requires forall i | 0 <= i < |l| :: l[i].seqNo != s
    ensures Only(l, s) == []
  {
    if l != [] {
      OnlyNone(l[1..], s);
    }
  }

  lemma {:induction false} OnlySnoc(l: seq<Arrival>, p: Arrival, s: nat)
    ensures Only(l + [p], s) == Only(l, s) + if p.seqNo == s then [p.at] else []
  {
    if l == [] {
      assert [p][1..] == [];
      assert l + [p] == [p];
    } else {
      assert (l + [p])[1..] == l[1..] + [p];
      OnlySnoc(l[1..], p, s);
      Regroup(if l[0].seqNo == s then [l[0].at] else [], Only(l[1..], s), if p.seqNo == s then [p.at] else []);
    }
  }

  lemma OnlyCons(p: Arrival, l: seq<Arrival>, s: nat)
    ensures Only([p] + l, s) == (if p.seqNo == s then [p.at] else []) + Only(l, s)
  {
    assert ([p] + l)[1..] == l;
  }

  lemma {:induction false} InsertAbove(low: int, l: seq<Arrival>, p: Arrival, key: nat -> int)
    requires Above(low, l, key) && low <= key(p.seqNo)
    ensures Above(low, Insert(l, p, key), key)
  {
    if l != [] {
      InsertAbove(low, l[1..], p, key);
    }
  }

  lemma AscendingCons(p: Arrival, l: seq<Arrival>, key: nat -> int)
    requires Ascending(l, key) && Above(key(p.seqNo), l, key)
    ensures Ascending([p] + l, key)
  {}

  lemma {:induction false} InsertOk(l: seq<Arrival>, p: Arrival, key: nat -> int)
    requires Ascending(l, key) && Numbers(l) && p.seqNo < 65536
    ensures var r := Insert(l, p, key); Ascending(r, key) && Numbers(r) && |r| == |l| + 1
  {
    if l == [] || key(l[0].seqNo) > key(p.seqNo) {
      AscendingCons(p, l, key);
    } else {
      InsertOk(l[1..], p, key);
      InsertAbove(key(l[0].seqNo), l[1..], p, key);
      AscendingCons(l[0], Insert(l[1..], p, key), key);
    }
  }

  /** Insertion is stable: the new arrival is the last of its number. */
  lemma {:induction false} InsertOnly(l: seq<Arrival>, p: Arrival, key: nat -> int, s: nat)
    requires Ascending(l, key)
    ensures Only(Insert(l, p, key), s) == Only(l, s) + if p.seqNo == s then [p.at] else []
  {
    if l == [] || key(l[0].seqNo) > key(p.seqNo) {
      OnlyCons(p, l, s);
      if p.seqNo == s {
        OnlyNone(l, s);
      }
    } else {
      InsertOnly(l[1..], p, key, s);
      OnlyCons(l[0], Insert(l[1..], p, key), s);
    }
  }

  /** The sort is a stable permutation: ascending, and every number's arrivals in their order. */
  lemma {:induction false} SortOk(pkts: seq<Arrival>, key: nat -> int)
    requires Numbers(pkts)
    ensures var l := Sort(pkts, key); Ascending(l, key) && Numbers(l) && |l| == |pkts|
    ensures forall s: nat :: Only(Sort(pkts, key), s) == Only(pkts, s)
  {
    if pkts != [] {
      var n := |pkts| - 1;
      SortOk(pkts[..n], key);
      InsertOk(Sort(pkts[..n], key), pkts[n], key);
      forall s: nat ensures Only(Sort(pkts, key), s) == Only(pkts, s) {
        InsertOnly(Sort(pkts[..n], key), pkts[n], key, s);
        OnlySnoc(pkts[..n], pkts[n], s);
        assert pkts == pkts[..n] + [pkts[n]];
      }
    }
  }

  lemma StrictlyCons(p: Arrival, l: seq<Arrival>, key: nat -> int)
    requires StrictlyAscending(l, key) && StrictlyAbove(key(p.seqNo), l, key)
    ensures StrictlyAscending([p] + l, key)
  {}

  /** What follows an arrival with number `last` in an ascending list, deduplicated, is beyond it. */
  lemma {:induction false} DedupAscends(last: nat, l: seq<Arrival>, key: nat -> int)
    requires Ascending(l, key) && Numbers(l) && Injective(key) && last < 65536 && Above(key(last), l, key)
    ensures var r := Dedup(last, l); StrictlyAscending(r, key) && Numbers(r) && StrictlyAbove(key(last), r, key)
    decreases |l|
  {
    if l != [] {
      var p, tail := l[0], l[1..];
      assert Above(key(p.seqNo), tail, key);
      DedupAscends(p.seqNo, tail, key);
      if p.seqNo != last {
        assert key(last) < key(p.seqNo);
        StrictlyCons(p, Dedup(p.seqNo, tail), key);
      }
    }
  }

  /** Each number keeps its first arrival; `last` has had its own. */
  lemma {:induction false} DedupOnly(last: nat, l: seq<Arrival>, key: nat -> int, s: nat)
    requires Ascending(l, key) && Numbers(l) && Injective(key) && last < 65536 && Above(key(last), l, key)
    ensures Only(Dedup(last, l), s) == if s == last then [] else FirstOf(Only(l, s))
    decreases |l|
  {
    if l != [] {
      var p, tail := l[0], l[1..];
      assert Above(key(p.seqNo), tail, key);
      DedupOnly(p.seqNo, tail, key, s);
      OnlyCons(p, tail, s);
      assert l == [p] + tail;
      if p.seqNo != last {
        assert key(last) < key(p.seqNo);
        OnlyCons(p, Dedup(p.seqNo, tail), s);
        if s == last {
          OnlyNone(tail, s);
        }
      }
    }
  }

  lemma DedupSplits(l: seq<Arrival>)
    requires l != []
    ensures Dedup(-1, l) == [l[0]] + Dedup(l[0].seqNo, l[1..]) && l == [l[0]] + l[1..]
  {}

  lemma HeadAbove(l: seq<Arrival>, key: nat -> int)
    requires l != [] && Ascending(l, key) && Numbers(l)
    ensures Above(key(l[0].seqNo), l[1..], key) && Ascending(l[1..], key) && Numbers(l[1..])
  {}

  lemma FirstOfCons(a: seq<nat>, rest: seq<nat>)
    ensures FirstOf(a + rest) == if a == [] then FirstOf(rest) else [a[0]]
  {}

  lemma DedupHeadOnly(l: seq<Arrival>, key: nat -> int, s: nat)
    requires l != [] && Ascending(l, key) && Numbers(l) && Injective(key)
    ensures Only(Dedup(-1, l), s) == FirstOf(Only(l, s))
  {
    var p, tail := l[0], l[1..];
    DedupSplits(l);
    HeadAbove(l, key);
    DedupOnly(p.seqNo, tail, key, s);
    OnlyCons(p, Dedup(p.seqNo, tail), s);
    OnlyCons(p, tail, s);
    FirstOfCons(if p.seqNo == s then [p.at] else [], Only(tail, s));
  }

  lemma DedupHead(l: seq<Arrival>, key: nat -> int)
    requires l != [] && Ascending(l, key) && Numbers(l) && Injective(key)
    ensures var b := Dedup(-1, l); StrictlyAscending(b, key) && Numbers(b) && b != []
  {
    DedupSplits(l);
    HeadAbove(l, key);
    DedupAscends(l[0].seqNo, l[1..], key);
    StrictlyCons(l[0], Dedup(l[0].seqNo, l[1..]), key);
  }

  lemma BatchByKey(pkts: seq<Arrival>, key: nat -> int, s: nat)
    requires pkts != [] && Numbers(pkts) && Injective(key)
    ensures var b := Dedup(-1, Sort(pkts, key)); StrictlyAscending(b, key) && Numbers(b) && b != []
    ensures Only(Dedup(-1, Sort(pkts, key)), s) == FirstOf(Only(pkts, s))
  {
    SortOk(pkts, key);
    DedupHead(Sort(pkts, key), key);
    DedupHeadOnly(Sort(pkts, key), key, s);
  }

  /** The batch reports exactly the recorded numbers, each once, at its first arrival, by ascending offset. */
  lemma BatchOk(pkts: seq<Arrival>, s: nat)
    requires pkts != [] && Numbers(pkts)
    ensures var b := Batch(pkts); StrictlyAscending(b, KeyOf(pkts[0].seqNo)) && Numbers(b) && b != []
    ensures Only(Batch(pkts), s) == FirstOf(Only(pkts, s))
  {
    KeyInjective(pkts[0].seqNo);
    BatchByKey(pkts, KeyOf(pkts[0].seqNo), s);
  }
}
