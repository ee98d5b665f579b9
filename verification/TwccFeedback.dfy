/** The feedback packet of a batch, its decoding, and the tracker that sends it. */
module TwccFeedback {
  import opened Machine
  import opened Options
  import opened Twcc

  const MAX_DELTA: int := 32767 * TICK
  const MIN_DELTA: int := -32768 * TICK
  const MAX_SMALL: int := 255 * TICK

  // ---------------------------------------------------------------- the packet

  function Clamp(d: int): int { if d < MIN_DELTA then MIN_DELTA else if d > MAX_DELTA then MAX_DELTA else d }

  /** Each delta is taken from the arrival before, and clamped. */
  function Deltas(prev: int, l: seq<Arrival>): (r: seq<int>)
    ensures |r| == |l|
    decreases |l|
  {
    if l == [] then [] else [Clamp(l[0].at - prev)] + Deltas(l[0].at, l[1..])
  }

  function SymbolFor(d: int): Symbol { if 0 <= d <= MAX_SMALL then SmallDelta else LargeDelta }

  function Reference(t: nat): nat { t / REFERENCE_UNIT % REFERENCE_WRAP }

  function Span(l: seq<Arrival>, first: nat): int
    requires l != []
  {
    Off(l[|l| - 1].seqNo, first) - Off(l[0].seqNo, first) + 1
  }

  function Pad(c: seq<Symbol>): seq<Symbol>
    requires |c| <= 7
  {
    c + seq(7 - |c|, i => NotReceived)
  }

  /** Status vector chunks of seven symbols, the last one padded. */
  function Chunks(symbols: seq<Symbol>): seq<seq<Symbol>> {
    if symbols == [] then [] else if |symbols| <= 7 then [Pad(symbols)] else [symbols[..7]] + Chunks(symbols[7..])
  }

  /** The symbols mark the batch: the k-th arrival's slot its delta's size, every other slot not received. */
  ghost predicate Marks(symbols: seq<Symbol>, slots: seq<int>, deltas: seq<int>) {
    && |deltas| == |slots|
    && (forall k | 0 <= k < |slots| :: 0 <= slots[k] < |symbols| && symbols[slots[k]] == SymbolFor(deltas[k]))
    && (forall i | 0 <= i < |symbols| && symbols[i] != NotReceived :: i in slots)
  }

  /** Where the numbers go: in order, each at its distance from the base. */
  ghost predicate Placed(l: seq<Arrival>, slots: seq<int>, base: nat) {
    && |slots| == |l|
    && (forall j, k | 0 <= j < k < |slots| :: slots[j] < slots[k])
    && (forall k | 0 <= k < |slots| :: slots[k] >= 0 && NumberAt(base, slots[k]) == l[k].seqNo)
  }

  function NumberAt(base: nat, slot: int): nat { (base + slot) % 65536 }

  function Slots(l: seq<Arrival>, first: nat): seq<int> {
    seq(|l|, i requires 0 <= i < |l| => Off(l[i].seqNo, first) - Off(l[0].seqNo, first))
  }

  function Base(l: seq<Arrival>, first: nat): nat
    requires l != []
  {
    (first + Off(l[0].seqNo, first)) % 65536
  }

  /** `fb` reports batch `l`, whose first arrival had number `first`. */
  ghost predicate Encodes(fb: Feedback, l: seq<Arrival>, first: nat)
    requires l != []
  {
    && fb.base == Base(l, first) && fb.count == Span(l, first) && fb.reference == Reference(l[0].at)
    && fb.deltas == Deltas(fb.reference * REFERENCE_UNIT, l)
    && exists symbols :: fb.chunks == Chunks(symbols) && |symbols| == fb.count
        && Marks(symbols, Slots(l, first), fb.deltas)
  }

  lemma SlotsPlaced(l: seq<Arrival>, first: nat)
    requires l != [] && Numbers(l) && StrictlyAscending(l, KeyOf(first))
    ensures Placed(l, Slots(l, first), Base(l, first))
    ensures forall k | 0 <= k < |l| :: 0 <= Slots(l, first)[k] < Span(l, first)
  {
    var slots, key := Slots(l, first), KeyOf(first);
    forall k | 0 <= k < |slots|
      ensures 0 <= slots[k] < Span(l, first) && NumberAt(Base(l, first), slots[k]) == l[k].seqNo
    {
      assert key(l[0].seqNo) <= key(l[k].seqNo) <= key(l[|l| - 1].seqNo);
      OffBack(l[k].seqNo, first, Off(l[0].seqNo, first));
    }
    forall j, k | 0 <= j < k < |slots| ensures slots[j] < slots[k] {
      assert key(l[j].seqNo) < key(l[k].seqNo);
    }
  }

  // ---------------------------------------------------------------- reading it

  datatype Report = Report(seqNo: nat, at: int)

  function Flat(chunks: seq<seq<Symbol>>): seq<Symbol> { if chunks == [] then [] else chunks[0] + Flat(chunks[1..]) }

  /** The sender's reading: one number per symbol from the base on, one delta per received one, times adding up. */
  function Read(symbols: seq<Symbol>, i: nat, base: nat, deltas: seq<int>, time: int): seq<Report>
    requires i <= |symbols|
    decreases |symbols| - i
  {
    if i == |symbols| || deltas == [] then []
    else if symbols[i].NotReceived? then Read(symbols, i + 1, base, deltas, time)
    else [Report(NumberAt(base, i), time + deltas[0])] + Read(symbols, i + 1, base, deltas[1..], time + deltas[0])
  }

  function Decode(fb: Feedback): seq<Report> {
    var all := Flat(fb.chunks);
    Read(if fb.count <= |all| then all[..fb.count] else all, 0, fb.base, fb.deltas, fb.reference * REFERENCE_UNIT)
  }

  lemma {:induction false} ChunksFlat(symbols: seq<Symbol>)
    ensures |symbols| <= |Flat(Chunks(symbols))| < |symbols| + 7 && Flat(Chunks(symbols))[..|symbols|] == symbols
    ensures forall k | 0 <= k < |Chunks(symbols)| :: |Chunks(symbols)[k]| == 7
    decreases |symbols|
  {
    if 0 < |symbols| <= 7 {
      assert [Pad(symbols)][1..] == [] && Flat([Pad(symbols)]) == Pad(symbols) + [];
    } else if |symbols| > 7 {
      ChunksFlat(symbols[7..]);
      var rest := Chunks(symbols[7..]);
      assert ([symbols[..7]] + rest)[1..] == rest;
      assert symbols == symbols[..7] + symbols[7..];
    }
  }

  /** The batch as a reader sees it who adds `deltas` up from `time`. */
  function Stamped(l: seq<Arrival>, deltas: seq<int>, time: int): seq<Report>
    requires |deltas| == |l|
  {
    if l == [] then []
    else [Report(l[0].seqNo, time + deltas[0])] + Stamped(l[1..], deltas[1..], time + deltas[0])
  }

  /** Whatever deltas are read, one for each slot that is marked, they are stamped on the batch. */
  lemma {:induction false} ReadMarks(symbols: seq<Symbol>, l: seq<Arrival>, slots: seq<int>, base: nat,
                                     marked: seq<int>, deltas: seq<int>, i: nat, k: nat, time: int)
    requires Placed(l, slots, base) && Marks(symbols, slots, marked) && |deltas| == |l|
    requires i <= |symbols| && k <= |l|
    requires (forall j | 0 <= j < k :: slots[j] < i) && (forall j | k <= j < |l| :: slots[j] >= i)
    ensures Read(symbols, i, base, deltas[k..], time) == Stamped(l[k..], deltas[k..], time)
    decreases |symbols| - i
  {
    if i < |symbols| && k < |l| {
      if slots[k] == i {
        assert deltas[k..][1..] == deltas[k + 1..] && l[k..][1..] == l[k + 1..];
        ReadMarks(symbols, l, slots, base, marked, deltas, i + 1, k + 1, time + deltas[k]);
      } else {
        assert i !in slots;
        ReadMarks(symbols, l, slots, base, marked, deltas, i + 1, k, time);
      }
    }
  }

  /** The feedback with other deltas, as many, decodes to its batch with those. */
  lemma DecodeWith(fb: Feedback, l: seq<Arrival>, first: nat, deltas: seq<int>)
    requires l != [] && Numbers(l) && StrictlyAscending(l, KeyOf(first)) && Encodes(fb, l, first) && |deltas| == |l|
    ensures Decode(fb.(deltas := deltas)) == Stamped(l, deltas, fb.reference * REFERENCE_UNIT)
  {
    var symbols :| fb.chunks == Chunks(symbols) && |symbols| == fb.count && Marks(symbols, Slots(l, first), fb.deltas);
    ChunksFlat(symbols);
    SlotsPlaced(l, first);
    assert deltas[0..] == deltas && l[0..] == l;
    ReadMarks(symbols, l, Slots(l, first), fb.base, fb.deltas, deltas, 0, 0, fb.reference * REFERENCE_UNIT);
  }

  /**
   * The feedback decodes to its batch: exactly the batch's numbers, in order, and one delta each; the times are the
   * reference plus the deltas so far.
   */
  lemma DecodeEncode(fb: Feedback, l: seq<Arrival>, first: nat)
    requires l != [] && Numbers(l) && StrictlyAscending(l, KeyOf(first)) && Encodes(fb, l, first)
    ensures |fb.deltas| == |l| && Decode(fb) == Stamped(l, fb.deltas, fb.reference * REFERENCE_UNIT)
  {
    DecodeWith(fb, l, first, fb.deltas);
    assert fb.(deltas := fb.deltas) == fb;
  }

  lemma {:induction false} StampedNumbers(l: seq<Arrival>, deltas: seq<int>, time: int)
    requires |deltas| == |l|
    ensures |Stamped(l, deltas, time)| == |l| && forall k | 0 <= k < |l| ::
            Stamped(l, deltas, time)[k].seqNo == l[k].seqNo
  {
    if l != [] {
      StampedNumbers(l[1..], deltas[1..], time + deltas[0]);
    }
  }

  // ---------------------------------------------------------------- when the times are right

  /** No delta had to be clamped. */
  predicate Unclamped(prev: int, l: seq<Arrival>)
    decreases |l|
  {
    l == [] || (MIN_DELTA <= l[0].at - prev <= MAX_DELTA && Unclamped(l[0].at, l[1..]))
  }

  ghost predicate SameTimes(reports: seq<Report>, l: seq<Arrival>) {
    |reports| == |l| && forall k | 0 <= k < |l| :: reports[k].at == l[k].at
  }

  lemma {:induction false} StampedExactIff(prev: int, l: seq<Arrival>)
    ensures SameTimes(Stamped(l, Deltas(prev, l), prev), l) <==> Unclamped(prev, l)
    decreases |l|
  {
    if l != [] {
      var all, rest := Stamped(l, Deltas(prev, l), prev), l[1..];
      StampedExactIff(l[0].at, rest);
      StampedNumbers(l, Deltas(prev, l), prev);
      assert all[0].at == prev + Clamp(l[0].at - prev);
      assert Deltas(prev, l)[1..] == Deltas(l[0].at, rest);
      if all[0].at == l[0].at {
        assert all[1..] == Stamped(rest, Deltas(l[0].at, rest), l[0].at);
        if SameTimes(all, l) {
          assert forall k | 0 <= k < |rest| :: all[1..][k].at == all[k + 1].at && rest[k] == l[k + 1];
        }
        if SameTimes(all[1..], rest) {
          assert forall k | 0 < k < |l| :: all[k] == all[1..][k - 1] && l[k] == rest[k - 1];
        }
      }
    }
  }

  /** The batch can be told exactly: its reference fits in 24 bits, and no two neighbours arrived too far apart. */
  predicate TimesFit(l: seq<Arrival>)
    requires l != []
  {
    l[0].at / REFERENCE_UNIT < REFERENCE_WRAP && Unclamped(l[0].at, l[1..])
  }

  /**
   * The decoded times are the arrival times exactly if the 24-bit reference did not wrap and no two neighbours in the
   * batch arrived further apart than a 16-bit delta can say.
   */
  lemma TimesExactIff(fb: Feedback, l: seq<Arrival>, first: nat)
    requires l != [] && Numbers(l) && StrictlyAscending(l, KeyOf(first)) && Encodes(fb, l, first)
    ensures SameTimes(Decode(fb), l) <==> TimesFit(l)
  {
    DecodeEncode(fb, l, first);
    StampedExactIff(fb.reference * REFERENCE_UNIT, l);
    ReferenceFits(l);
  }

  lemma ReferenceFits(l: seq<Arrival>)
    requires l != []
    ensures Unclamped(Reference(l[0].at) * REFERENCE_UNIT, l) <==> TimesFit(l)
  {
    ReferenceNear(l[0].at);
  }

  lemma ReferenceNear(t: nat)
    ensures MIN_DELTA <= t - Reference(t) * REFERENCE_UNIT <= MAX_DELTA <==> t / REFERENCE_UNIT < REFERENCE_WRAP
  {
    var q := t / REFERENCE_UNIT;
    assert q * REFERENCE_UNIT <= t < q * REFERENCE_UNIT + REFERENCE_UNIT;
    if q >= REFERENCE_WRAP {
      assert q % REFERENCE_WRAP <= q - REFERENCE_WRAP;
    }
  }

  // ---------------------------------------------------------------- ticks

  /** A delta as it travels: a whole number of ticks, cut toward zero. */
  function CutToTick(d: int): int { TruncDiv(d, TICK) * TICK }

  function CutAll(deltas: seq<int>): (r: seq<int>)
    ensures |r| == |deltas|
    decreases |deltas|
  {
    if deltas == [] then [] else [CutToTick(deltas[0])] + CutAll(deltas[1..])
  }

  /** The symbol says how wide the delta's ticks are: one byte, or two with a sign. */
  lemma SymbolFits(prev: int, l: seq<Arrival>, k: nat)
    requires k < |l|
    ensures var d := Deltas(prev, l)[k];
      && (SymbolFor(d).SmallDelta? ==> 0 <= TruncDiv(d, TICK) < 256)
      && (SymbolFor(d).LargeDelta? ==> -0x8000 <= TruncDiv(d, TICK) < 0x8000)
      && (0 <= TruncDiv(d, TICK) < 255 && d >= 0 ==> SymbolFor(d).SmallDelta?) && !SymbolFor(d).NotReceived?
    decreases k
  {
    if k > 0 {
      SymbolFits(l[0].at, l[1..], k - 1);
    }
  }

  /** The feedback as it travels. */
  function OnWire(fb: Feedback): Feedback { fb.(deltas := CutAll(fb.deltas)) }

  lemma CutNear(d: int)
    ensures -TICK < d - CutToTick(d) < TICK
    ensures CutToTick(d) == d <==> d % TICK == 0
  {
    if d < 0 {
      assert -d == -d / TICK * TICK + -d % TICK;
    }
  }

  /** A clamped delta that also loses nothing to the ticks was neither clamped nor cut. */
  lemma ClampedTicks(d: int)
    ensures CutToTick(Clamp(d)) == d <==> MIN_DELTA <= d <= MAX_DELTA && d % TICK == 0
  {
    CutNear(Clamp(d));
  }

  /** All arrivals at whole ticks. */
  predicate OnTicks(l: seq<Arrival>) { forall k | 0 <= k < |l| :: l[k].at % TICK == 0 }

  lemma TickChain(prev: int, t: int)
    requires prev % TICK == 0
    ensures (t - prev) % TICK == 0 <==> t % TICK == 0
  {}

  lemma {:induction false} CutExactIff(prev: int, l: seq<Arrival>)
    requires prev % TICK == 0
    ensures SameTimes(Stamped(l, CutAll(Deltas(prev, l)), prev), l) <==> Unclamped(prev, l) && OnTicks(l)
    decreases |l|
  {
    if l != [] {
      var all, rest := Stamped(l, CutAll(Deltas(prev, l)), prev), l[1..];
      StampedNumbers(l, CutAll(Deltas(prev, l)), prev);
      ClampedTicks(l[0].at - prev);
      TickChain(prev, l[0].at);
      assert all[0].at == prev + CutToTick(Clamp(l[0].at - prev));
      assert CutAll(Deltas(prev, l))[1..] == CutAll(Deltas(l[0].at, rest));
      if all[0].at == l[0].at {
        CutExactIff(l[0].at, rest);
        assert all[1..] == Stamped(rest, CutAll(Deltas(l[0].at, rest)), l[0].at);
        SameTimesCons(all, l);
        OnTicksCons(l);
      }
    }
  }

  lemma SameTimesCons(reports: seq<Report>, l: seq<Arrival>)
    requires |reports| == |l| > 0
    ensures SameTimes(reports, l) <==> reports[0].at == l[0].at && SameTimes(reports[1..], l[1..])
  {
    assert forall k | 0 < k < |l| :: reports[k] == reports[1..][k - 1] && l[k] == l[1..][k - 1];
    assert forall k | 0 <= k < |l| - 1 :: reports[1..][k] == reports[k + 1] && l[1..][k] == l[k + 1];
  }

  lemma OnTicksCons(l: seq<Arrival>)
    requires l != []
    ensures OnTicks(l) <==> l[0].at % TICK == 0 && OnTicks(l[1..])
  {
    assert forall k | 0 < k < |l| :: l[k] == l[1..][k - 1];
    assert forall k | 0 <= k < |l| - 1 :: l[1..][k] == l[k + 1];
  }

  lemma WholeReference(reference: nat)
    ensures reference * REFERENCE_UNIT % TICK == 0
  {
    ModUnique(reference * REFERENCE_UNIT, reference * (REFERENCE_UNIT / TICK), 0, TICK);
  }

  lemma WireDecodes(fb: Feedback, l: seq<Arrival>, first: nat) returns (time: int)
    requires l != [] && Numbers(l) && StrictlyAscending(l, KeyOf(first)) && Encodes(fb, l, first)
    ensures time == Reference(l[0].at) * REFERENCE_UNIT && time % TICK == 0
    ensures Decode(OnWire(fb)) == Stamped(l, CutAll(Deltas(time, l)), time)
  {
    time := fb.reference * REFERENCE_UNIT;
    WholeReference(fb.reference);
    DecodeWith(fb, l, first, CutAll(fb.deltas));
  }

  /** As it travels, the feedback tells the batch's times exactly if they fit and all are whole ticks. */
  lemma WireTimesExactIff(fb: Feedback, l: seq<Arrival>, first: nat)
    requires l != [] && Numbers(l) && StrictlyAscending(l, KeyOf(first)) && Encodes(fb, l, first)
    ensures SameTimes(Decode(OnWire(fb)), l) <==> TimesFit(l) && OnTicks(l)
  {
    var time := WireDecodes(fb, l, first);
    CutExactIff(time, l);
    ReferenceFits(l);
  }

  /** Less than `n` ticks off, by at least a microsecond a tick. */
  predicate Within(d: int, n: nat) { 0 - n * (TICK - 1) <= d <= n * (TICK - 1) }

  lemma {:induction false} StampedDrift(l: seq<Arrival>, deltas: seq<int>, time: int, cut: int, n: nat, k: nat)
    requires |deltas| == |l| && k < |l| && Within(time - cut, n)
    ensures |Stamped(l, deltas, time)| == |l| == |Stamped(l, CutAll(deltas), cut)|
    ensures Within(Stamped(l, deltas, time)[k].at - Stamped(l, CutAll(deltas), cut)[k].at, n + k + 1)
    decreases k
  {
    StampedNumbers(l, deltas, time);
    StampedNumbers(l, CutAll(deltas), cut);
    CutNear(deltas[0]);
    if k > 0 {
      StampedDrift(l[1..], deltas[1..], time + deltas[0], cut + CutToTick(deltas[0]), n + 1, k - 1);
    }
  }

  /**
   * The code takes each delta from the arrival before, not from what was told before, so what the ticks cut off adds
   * up: by less than a tick with each report.
   */
  lemma DriftBound(fb: Feedback, l: seq<Arrival>, first: nat, k: nat)
    requires l != [] && Numbers(l) && StrictlyAscending(l, KeyOf(first)) && Encodes(fb, l, first) && k < |l|
    ensures |Decode(fb)| == |l| == |Decode(OnWire(fb))|
    ensures Within(Decode(fb)[k].at - Decode(OnWire(fb))[k].at, k + 1)
  {
    DecodeEncode(fb, l, first);
    DecodeWith(fb, l, first, CutAll(fb.deltas));
    StampedDrift(l, fb.deltas, fb.reference * REFERENCE_UNIT, fb.reference * REFERENCE_UNIT, 0, k);
  }

  /** Arrivals one microsecond short of a tick apart. */
  ghost predicate JustShort(l: seq<Arrival>, from: nat) {
    forall k | 0 <= k < |l| :: l[k].at == (from + k + 1) * (TICK - 1)
  }

  lemma {:induction false} ShortStays(l: seq<Arrival>, from: nat, k: nat)
    requires JustShort(l, from) && k < |l|
    ensures var deltas := CutAll(Deltas(from * (TICK - 1), l));
      |Stamped(l, deltas, 0)| == |l| && Stamped(l, deltas, 0)[k].at == 0
    decreases k
  {
    var prev := from * (TICK - 1);
    StampedNumbers(l, CutAll(Deltas(prev, l)), 0);
    assert l[0].at == (from + 1) * (TICK - 1) == prev + (TICK - 1);
    assert CutAll(Deltas(prev, l))[1..] == CutAll(Deltas(l[0].at, l[1..]));
    if k > 0 {
      assert forall j | 0 <= j < |l| - 1 :: l[1..][j] == l[j + 1];
      ShortStays(l[1..], from + 1, k - 1);
    }
  }

  lemma NoReference(t: nat)
    requires t < TICK
    ensures Reference(t) * REFERENCE_UNIT == 0
  {}

  /** The bound is met: such arrivals, the first just short of the first tick, are all told as arriving at once. */
  lemma DriftIsMet(fb: Feedback, l: seq<Arrival>, first: nat, k: nat)
    requires l != [] && Numbers(l) && StrictlyAscending(l, KeyOf(first)) && Encodes(fb, l, first)
    requires JustShort(l, 0) && k < |l|
    ensures |Decode(OnWire(fb))| == |l| && l[k].at - Decode(OnWire(fb))[k].at == (k + 1) * (TICK - 1)
  {
    NoReference(l[0].at);
    ShortStays(l, 0, k);
    var time := WireDecodes(fb, l, first);
    assert time == 0 && l[k].at == (k + 1) * (TICK - 1);
  }

  // ---------------------------------------------------------------- from arrivals to reports

  /** The times reported for number `s`. */
  function TimesOf(reports: seq<Report>, s: nat): seq<int> {
    if reports == [] then [] else (if reports[0].seqNo == s then [reports[0].at] else []) + TimesOf(reports[1..], s)
  }

  ghost predicate SameNumbers(reports: seq<Report>, l: seq<Arrival>) {
    |reports| == |l| && forall k | 0 <= k < |l| :: reports[k].seqNo == l[k].seqNo
  }

  ghost predicate Distinct(l: seq<Arrival>) { forall j, k | 0 <= j < k < |l| :: l[j].seqNo != l[k].seqNo }

  /**
   * As many times are reported as there are arrivals; the times of the k-th number, if there is only one, are the
   * k-th's.
   */
  lemma {:induction false} TimesOfNumber(reports: seq<Report>, l: seq<Arrival>, s: nat)
    requires SameNumbers(reports, l)
    ensures |TimesOf(reports, s)| == |Only(l, s)|
    ensures SameTimes(reports, l) ==> TimesOf(reports, s) == Only(l, s)
    ensures (forall k | 0 <= k < |l| :: l[k].seqNo != s) ==> Only(l, s) == [] && TimesOf(reports, s) == []
  {
    if l != [] {
      TimesOfNumber(reports[1..], l[1..], s);
    }
  }

  lemma {:induction false} TimesOfOne(reports: seq<Report>, l: seq<Arrival>, k: nat)
    requires SameNumbers(reports, l) && Distinct(l) && k < |l|
    ensures TimesOf(reports, l[k].seqNo) == [reports[k].at] && Only(l, l[k].seqNo) == [l[k].at]
  {
    if k == 0 {
      TimesOfNumber(reports[1..], l[1..], l[0].seqNo);
    } else {
      TimesOfOne(reports[1..], l[1..], k - 1);
    }
  }

  /** Number by number, the reported times are the arrivals'. */
  ghost predicate Agree(reports: seq<Report>, l: seq<Arrival>) { forall s: nat :: AgreeOn(reports, l, s) }

  ghost predicate AgreeOn(reports: seq<Report>, l: seq<Arrival>, s: nat) { TimesOf(reports, s) == Only(l, s) }

  /** With distinct numbers, the times number by number are the times one by one. */
  lemma AgreeIff(reports: seq<Report>, l: seq<Arrival>)
    requires SameNumbers(reports, l) && Distinct(l)
    ensures Agree(reports, l) <==> SameTimes(reports, l)
  {
    if SameTimes(reports, l) {
      forall s: nat ensures AgreeOn(reports, l, s) { TimesOfNumber(reports, l, s); }
    } else if Agree(reports, l) {
      forall k | 0 <= k < |l| ensures reports[k].at == l[k].at {
        TimesOfOne(reports, l, k);
        assert AgreeOn(reports, l, l[k].seqNo);
      }
    }
  }

  lemma BatchDistinct(l: seq<Arrival>, first: nat)
    requires StrictlyAscending(l, KeyOf(first))
    ensures Distinct(l)
  {
    assert forall j, k | 0 <= j < k < |l| :: KeyOf(first)(l[j].seqNo) < KeyOf(first)(l[k].seqNo);
  }

  /** Number `s` is reported once, at its first arrival, if it was recorded, and otherwise not. */
  ghost predicate TellsOf(fb: Feedback, pkts: seq<Arrival>, s: nat) { TimesOf(Decode(fb), s) == FirstOf(Only(pkts, s)) }

  ghost predicate Tells(fb: Feedback, pkts: seq<Arrival>) { forall s: nat :: TellsOf(fb, pkts, s) }

  lemma DecodedNumbers(fb: Feedback, l: seq<Arrival>, first: nat, deltas: seq<int>)
    requires l != [] && Numbers(l) && StrictlyAscending(l, KeyOf(first)) && Encodes(fb, l, first) && |deltas| == |l|
    ensures SameNumbers(Decode(fb.(deltas := deltas)), l)
  {
    DecodeWith(fb, l, first, deltas);
    StampedNumbers(l, deltas, fb.reference * REFERENCE_UNIT);
  }

  /** A report that agrees with a batch, which has each number's first arrival, tells the arrivals. */
  lemma TellsBatch(fb: Feedback, l: seq<Arrival>, pkts: seq<Arrival>)
    requires SameNumbers(Decode(fb), l) && forall s: nat :: Only(l, s) == FirstOf(Only(pkts, s))
    ensures forall s: nat :: |TimesOf(Decode(fb), s)| == |FirstOf(Only(pkts, s))|
    ensures Tells(fb, pkts) <==> Agree(Decode(fb), l)
  {
    forall s: nat
      ensures |TimesOf(Decode(fb), s)| == |FirstOf(Only(pkts, s))|
              && (TellsOf(fb, pkts, s) <==> AgreeOn(Decode(fb), l, s))
    {
      TimesOfNumber(Decode(fb), l, s);
    }
    if Agree(Decode(fb), l) {
      forall s: nat ensures TellsOf(fb, pkts, s) { assert AgreeOn(Decode(fb), l, s); }
    }
    if Tells(fb, pkts) {
      forall s: nat ensures AgreeOn(Decode(fb), l, s) { assert TellsOf(fb, pkts, s); }
    }
  }

  /** The batch of some arrivals, and feedback with any deltas for it. */
  lemma TellsWith(fb: Feedback, pkts: seq<Arrival>, deltas: seq<int>)
    requires pkts != [] && Numbers(pkts) && Batch(pkts) != [] && Encodes(fb, Batch(pkts), pkts[0].seqNo)
    requires |deltas| == |Batch(pkts)|
    ensures var fb' := fb.(deltas := deltas);
      && (forall s: nat :: |TimesOf(Decode(fb'), s)| == |FirstOf(Only(pkts, s))|)
      && (Tells(fb', pkts) <==> SameTimes(Decode(fb'), Batch(pkts)))
  {
    var l, first, fb' := Batch(pkts), pkts[0].seqNo, fb.(deltas := deltas);
    forall s: nat ensures Only(l, s) == FirstOf(Only(pkts, s)) { BatchOk(pkts, s); }
    BatchOk(pkts, first);
    BatchDistinct(l, first);
    DecodedNumbers(fb, l, first, deltas);
    TellsBatch(fb', l, pkts);
    AgreeIff(Decode(fb'), l);
  }

  /**
   * From the arrivals to the sender's reading: it reads exactly the recorded numbers, each once, and each at its first
   * arrival if and only if the batch's times fit; as the feedback travels, if they are whole ticks besides.
   */
  lemma TellsIff(fb: Feedback, pkts: seq<Arrival>)
    requires pkts != [] && Numbers(pkts) && Batch(pkts) != [] && Encodes(fb, Batch(pkts), pkts[0].seqNo)
    ensures forall s: nat :: |TimesOf(Decode(fb), s)| == |FirstOf(Only(pkts, s))| == |TimesOf(Decode(OnWire(fb)), s)|
    ensures Tells(fb, pkts) <==> TimesFit(Batch(pkts))
    ensures Tells(OnWire(fb), pkts) <==> TimesFit(Batch(pkts)) && OnTicks(Batch(pkts))
  {
    var l, first := Batch(pkts), pkts[0].seqNo;
    BatchOk(pkts, first);
    TellsWith(fb, pkts, fb.deltas);
    TellsWith(fb, pkts, CutAll(fb.deltas));
    assert fb.(deltas := fb.deltas) == fb;
    TimesExactIff(fb, l, first);
    WireTimesExactIff(fb, l, first);
  }

  // ---------------------------------------------------------------- the tracker

  /** The recorded numbers lie close enough together to be reported. */
  predicate Reportable(pkts: seq<Arrival>) {
    pkts != [] && var l := Batch(pkts); l != [] && Span(l, pkts[0].seqNo) <= MAX_SPAN
  }

  lemma DeltasNext(deltas: seq<int>, prev: int, batch: seq<Arrival>, i: nat)
    requires i < |batch|
    ensures deltas + Deltas(prev, batch[i..]) == deltas + [Clamp(batch[i].at - prev)]
            + Deltas(batch[i].at, batch[i + 1..])
  {
    assert batch[i..][0] == batch[i] && batch[i..][1..] == batch[i + 1..];
  }

  lemma MarksNext(symbols: seq<Symbol>, slots: seq<int>, i: nat, deltas: seq<int>, delta: int)
    requires i < |slots| && 0 <= slots[i] < |symbols| && Marks(symbols, slots[..i], deltas)
    requires forall k | 0 <= k < i :: slots[k] < slots[i]
    ensures Marks(symbols[slots[i] := SymbolFor(delta)], slots[..i + 1], deltas + [delta])
  {
    assert slots[..i + 1] == slots[..i] + [slots[i]];
  }

  /**
   * `fb` encodes the batch of `pkts`. As it travels, a sender reads exactly their numbers from it, each once, and each
   * at its first arrival if and only if the batch's times fit and are whole ticks.
   */
  ghost predicate Reports(fb: Feedback, pkts: seq<Arrival>, senderSsrc: nat, mediaSsrc: nat, fbCount: nat) {
    && Reportable(pkts) && Encodes(fb, Batch(pkts), pkts[0].seqNo)
    && fb.senderSsrc == senderSsrc && fb.mediaSsrc == mediaSsrc && fb.fbCount == fbCount
    && (forall s: nat :: |TimesOf(Decode(OnWire(fb)), s)| == |FirstOf(Only(pkts, s))|)
    && (Tells(OnWire(fb), pkts) <==> TimesFit(Batch(pkts)) && OnTicks(Batch(pkts)))
  }

  function CountOn(n: nat): (r: nat)
    requires n < 256
    ensures r == if n == 255 then 0 else n + 1
  {
    (n + 1) % 256
  }

  class TwccTracker {
    var pkts: seq<Arrival>
    var fbCount: nat
    var lastFb: Option<nat>
    var lastSsrc: nat

    ghost predicate Valid() reads this { Numbers(pkts) && |pkts| <= BATCH_CAP && fbCount < 256 }

    constructor ()
      ensures Valid() && pkts == [] && fbCount == 0 && lastFb == None
    {
      pkts, fbCount, lastFb, lastSsrc := [], 0, None, 0;
    }

    /** Records an arrival, unless the batch is full. */
    method Record(seqNo: nat, ssrc: nat, now: nat)
      requires Valid() && seqNo < 65536
      modifies this`pkts, this`lastSsrc
      ensures Valid() && lastSsrc == ssrc
      ensures pkts == if |old(pkts)| < BATCH_CAP then old(pkts) + [Arrival(seqNo, now)] else old(pkts)
    {
      if |pkts| < BATCH_CAP {
        pkts := pkts + [Arrival(seqNo, now)];
      }
      lastSsrc := ssrc;
    }

    /** `s.wrapping_sub(base) as i16` is the number's slot. */
    method Index(s: nat, base: nat, ghost slot: int) returns (idx: int)
      requires base < 65536 && 0 <= slot < MAX_SPAN && NumberAt(base, slot) == s
      ensures idx == slot
    {
      idx := Off(s, base);
    }

    /** The symbols and deltas of a batch, slot by slot. */
    method Fill(batch: seq<Arrival>, base: nat, count: nat, start: int, ghost slots: seq<int>)
      returns (symbols: seq<Symbol>, deltas: seq<int>)
      requires Placed(batch, slots, base) && base < 65536 && count <= MAX_SPAN
      requires forall k | 0 <= k < |slots| :: slots[k] < count
      ensures |symbols| == count && deltas == Deltas(start, batch) && Marks(symbols, slots, deltas)
    {
      var a := new Symbol[count](_ => NotReceived);
      deltas := [];
      var prev: int, i := start, 0;
      while i < |batch|
        invariant i <= |batch| == |slots| && |deltas| == i && a.Length == count
        invariant deltas + Deltas(prev, batch[i..]) == Deltas(start, batch)
        invariant Marks(a[..], slots[..i], deltas)
      {
        var idx := Index(batch[i].seqNo, base, slots[i]);
        var delta := Clamp(batch[i].at - prev);
        DeltasNext(deltas, prev, batch, i);
        MarksNext(a[..], slots, i, deltas, delta);
        a[idx] := SymbolFor(delta);
        deltas := deltas + [delta];
        prev := batch[i].at;
        i := i + 1;
      }
      assert slots[..i] == slots;
      symbols := a[..];
    }

    /** The feedback for a batch whose numbers do not span too far. */
    method Encode(batch: seq<Arrival>, first: nat, count: nat, senderSsrc: nat) returns (fb: Feedback)
      requires batch != [] && Numbers(batch) && StrictlyAscending(batch, KeyOf(first))
      requires count == Span(batch, first) <= MAX_SPAN
      ensures Encodes(fb, batch, first) && fb.senderSsrc == senderSsrc && fb.mediaSsrc == lastSsrc
      ensures fb.fbCount == fbCount
    {
      SlotsPlaced(batch, first);
      var base, reference := Base(batch, first), Reference(batch[0].at);
      var symbols, deltas := Fill(batch, base, count, reference * REFERENCE_UNIT, Slots(batch, first));
      fb := Feedback(senderSsrc, lastSsrc, base, count, reference, fbCount, Chunks(symbols), deltas);
    }

    /** Reports the recorded arrivals, unless their numbers span too far. */
    method Build(recorded: seq<Arrival>, senderSsrc: nat) returns (r: Option<Feedback>)
      requires recorded != [] && Numbers(recorded)
      ensures r.Some? <==> Reportable(recorded)
      ensures r.Some? ==> Reports(r.value, recorded, senderSsrc, lastSsrc, fbCount)
    {
      var first, batch := recorded[0].seqNo, Batch(recorded);
      BatchOk(recorded, first);
      SlotsPlaced(batch, first);
      var count := Span(batch, first);
      if count > MAX_SPAN {
        return None;
      }
      var fb := Encode(batch, first, count, senderSsrc);
      TellsIff(fb, recorded);
      r := Some(fb);
    }

    /**
     * If feedback is due, takes the batch and reports it, unless its numbers span too far: then the batch is dropped
     * and nothing else changes.
     */
    method Poll(now: nat, senderSsrc: nat) returns (r: Option<Feedback>)
      requires Valid()
      modifies this
      ensures Valid() && lastSsrc == old(lastSsrc)
      ensures pkts == if old(lastFb).None? || now >= old(lastFb).value + FEEDBACK_INTERVAL then [] else old(pkts)
      ensures r.Some? <==>
              (old(lastFb).None? || now >= old(lastFb).value + FEEDBACK_INTERVAL) && Reportable(old(pkts))
      ensures r.Some? ==> Reports(r.value, old(pkts), senderSsrc, lastSsrc, old(fbCount))
                          && fbCount == CountOn(old(fbCount)) && lastFb == Some(now)
      ensures r.None? ==> lastFb == old(lastFb) && fbCount == old(fbCount)
    {
      if pkts == [] || (lastFb.Some? && now < lastFb.value + FEEDBACK_INTERVAL) {
        return None;
      }
      var taken := pkts;
      r := Build(taken, senderSsrc);
      pkts := [];
      if r.Some? {
        fbCount := CountOn(fbCount);
        lastFb := Some(now);
      }
    }
  }
}
