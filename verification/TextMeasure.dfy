/** The measure cache, the wrap loops over it, and the measure pass of a wrapping text leaf. */
module TextMeasure {
  import opened Options
  import opened TextSplit
  import opened WordWrap
  import opened Sequences

  /** What the layout engine offers across: a width to fit, or a question about the leaf's own extremes. */
  datatype Available = Definite(w: real) | MinContent | MaxContent

  datatype Size = Size(width: real, height: real)

  /** The width to wrap at, if there is one, and whether the box keeps it. */
  function Target(host: Host, font: Font, text: string, known: Option<real>, avail: Available): Option<real> {
    match known
    case Some(w) => Some(w)
    case None =>
      match avail
      case Definite(w) => Some(w)
      case MinContent => Some(LongestWord(host, font, Words(text)))
      case MaxContent => None
  }

  /** The text is wider than the width offered, so the leaf wraps. */
  predicate Wraps(host: Host, font: Font, text: string, target: Option<real>) {
    target.Some? && host(Key(text, font)).w > target.value && target.value > 0.0
  }

  function Stacked(count: nat, lineHeight: real): real { count as real * lineHeight }

  /** Every line adds its height. */
  lemma LineAdds(count: nat, lineHeight: real)
    ensures Stacked(0, lineHeight) == 0.0 && Stacked(count + 1, lineHeight) == Stacked(count, lineHeight) + lineHeight
  {
    assert (count + 1) as real == count as real + 1.0;
  }

  /** The box width a wrapping leaf reports. */
  function BoxWidth(host: Host, font: Font, text: string, limit: real, fixed: bool): real {
    if fixed then limit else Widest(host, font, Wrap(host, font, limit, text))
  }

  /**
   * The measure and the paint pass agree: the lines painted at the reported width are the lines that were measured
   * exactly if the width was assigned, or the breaks are ones that the widest line forces as well.
   */
  lemma PaintMatchesIff(host: Host, font: Font, text: string, limit: real, fixed: bool)
    requires Monotone(host, font)
    ensures var width := BoxWidth(host, font, text, limit, fixed);
      Wrap(host, font, width, text) == Wrap(host, font, limit, text) <==>
        fixed || AllStillForced(host, font, limit, width, Lines(text))
  {
    RewrapIff(host, font, limit, text);
  }

  /** They agree whenever no word is wider than the width wrapped at; in particular when asked for the least width. */
  lemma PaintMatches(host: Host, font: Font, text: string, known: Option<real>, avail: Available)
    requires Monotone(host, font)
    requires var target := Target(host, font, text, known, avail);
      Wraps(host, font, text, target) &&
      (known.Some? || avail.MinContent? || WordsFit(host, font, target.value, Words(text)))
    ensures var limit := Target(host, font, text, known, avail).value;
      Wrap(host, font, BoxWidth(host, font, text, limit, known.Some?), text) == Wrap(host, font, limit, text)
  {
    LongestWordFits(host, font, Words(text));
    if known.None? {
      RewrapWhenWordsFit(host, font, Target(host, font, text, known, avail).value, text);
    }
  }

  /** A leaf asks for no more than it was offered, unless a word alone is wider; asked for its least width, for that. */
  lemma LeafFitsOffer(host: Host, font: Font, text: string, avail: Available)
    requires Monotone(host, font) && Wraps(host, font, text, Target(host, font, text, None, avail))
    ensures var limit := Target(host, font, text, None, avail).value;
      && (avail.MinContent? || WordsFit(host, font, limit, Words(text)) ==>
            BoxWidth(host, font, text, limit, false) <= limit)
      && (avail.MinContent? ==> forall w | w >= 0.0 && WordsFit(host, font, w, Words(text)) :: limit <= w)
  {
    var limit := Target(host, font, text, None, avail).value;
    LongestWordFits(host, font, Words(text));
    if avail.MinContent? || WordsFit(host, font, limit, Words(text)) {
      RewrapWhenWordsFit(host, font, limit, text);
    }
    if avail.MinContent? {
      forall w | w >= 0.0 && WordsFit(host, font, w, Words(text)) ensures limit <= w {
        LongestWordLeast(host, font, Words(text), w);
      }
    }
  }

  /** The text is measured no narrower than the words of any of its paragraphs, set on one line. */
  ghost predicate Spans(host: Host, font: Font, text: string) {
    forall i | 0 <= i < |Lines(text)| :: Wide(host, font, Words(Lines(text)[i])) <= host(Key(text, font)).w
  }

  /**
   * A leaf that was measured unwrapped is painted by wrapping at the width it reported. It is painted without a break
   * of its own, one line for each of the text's, exactly if each of those fits that width; and they do, unless the
   * width was assigned and not positive, which keeps a text of any width from being wrapped when it is measured.
   */
  lemma UnwrappedMatchesIff(host: Host, font: Font, text: string, known: Option<real>, avail: Available)
    requires Monotone(host, font) && Spans(host, font, text)
    requires !Wraps(host, font, text, Target(host, font, text, known, avail))
    ensures var width := if known.Some? then known.value else host(Key(text, font)).w;
      && (Wrap(host, font, width, text) == Whole(Lines(text)) <==> OneLineEach(host, font, width, Lines(text)))
      && (known.None? || known.value > 0.0 ==> Wrap(host, font, width, text) == Whole(Lines(text)))
  {
    var width := if known.Some? then known.value else host(Key(text, font)).w;
    WrapWholeIff(host, font, width, Lines(text));
    if known.None? || known.value > 0.0 {
      forall i | 0 <= i < |Lines(text)| ensures Fits(host, font, width, Words(Lines(text)[i])) {
        assert Wide(host, font, Words(Lines(text)[i])) <= host(Key(text, font)).w;
      }
    }
  }

  // ---------------------------------------------------------------- a word that does not fit

  /** A measurer that counts characters. */
  function Counting(k: Key): Extent { Extent(|k.text| as real, 1.0) }

  lemma {:induction false} JoinGrows(line: Line, i: nat, j: nat)
    requires i <= j <= |line|
    ensures |Join(line[i..j])| <= |Join(line)|
    decreases |line|
  {
    var n := |line| - 1;
    if i == 0 && j == |line| {
      assert line[0..|line|] == line;
    } else if j < |line| {
      assert line[..n][i..j] == line[i..j];
      JoinGrows(line[..n], i, j);
    } else {
      JoinTail(line);
      assert line[1..][i - 1..j - 1] == line[i..j];
      JoinGrows(line[1..], i - 1, j - 1);
    }
  }

  lemma {:induction false} JoinTail(line: Line)
    requires line != []
    ensures |Join(line[1..])| <= |Join(line)|
    decreases |line|
  {
    if |line| > 1 {
      var n := |line| - 1;
      JoinTail(line[..n]);
      assert line[..n][1..] == line[1..][..n - 1];
    }
  }

  lemma CountingIsMonotone(font: Font)
    ensures Monotone(Counting, font)
  {
    forall line: Line, i, j | 0 <= i <= j <= |line|
      ensures Wide(Counting, font, line[i..j]) <= Wide(Counting, font, line)
    {
      JoinGrows(line, i, j);
    }
  }

  const NARROW: string := "aa"
  const LONG: string := "bbbbbb"

  lemma ThreeWords(host: Host, font: Font, limit: real, a: string, b: string, c: string)
    ensures Wide(host, font, [a, b]) > limit && Wide(host, font, [b, c]) > limit ==>
      Para(host, font, limit, [a, b, c]) == [[a], [b], [c]]
    ensures Wide(host, font, [a, b]) <= limit && Wide(host, font, [a, b, c]) > limit ==>
      Para(host, font, limit, [a, b, c]) == [[a, b], [c]]
  {
    assert [] + [a] == [a] && [a] + [b] == [a, b] && [b] + [c] == [b, c] && [a, b] + [c] == [a, b, c];
    assert [a, b, c][1..] == [b, c] && [b, c][1..] == [c] && [c][1..] == [];
    assert Fill(host, font, limit, [], [a, b, c]) == Fill(host, font, limit, [a], [b, c]);
    assert Fill(host, font, limit, [c], []) == [[c]];
    if Wide(host, font, [a, b]) > limit {
      assert Fill(host, font, limit, [a], [b, c]) == [[a]] + Fill(host, font, limit, [b], [c]);
    } else {
      assert Fill(host, font, limit, [a], [b, c]) == Fill(host, font, limit, [a, b], [c]);
    }
  }

  lemma JoinedLengths(a: string, b: string, c: string)
    ensures |Join([a])| == |a| && |Join([a, b])| == |a| + 1 + |b| && |Join([a, b, c])| == |a| + |b| + |c| + 2
  {
    assert [a, b][..1] == [a] && [a, b, c][..2] == [a, b];
  }

  lemma WidestOfThree(host: Host, font: Font, a: Line, b: Line, c: Line)
    requires a != [] && b != [] && c != [] && 0.0 <= Wide(host, font, a) <= Wide(host, font, b) <= Wide(host, font, c)
    ensures Widest(host, font, [a, b, c]) == Wide(host, font, c)
  {
    assert [a, b, c][..2] == [a, b] && [a, b][..1] == [a] && [a][..0] == [];
    assert Widest(host, font, [a]) == Wide(host, font, a);
    assert Widest(host, font, [a, b]) == Wide(host, font, b);
  }

  lemma WrapOfOneLine(host: Host, font: Font, limit: real, text: string)
    requires Lines(text) == [text]
    ensures Wrap(host, font, limit, text) == Para(host, font, limit, Words(text))
  {
    var lines := Para(host, font, limit, Words(text));
    assert [text][1..] == [] && WrapAll(host, font, limit, []) == [] && lines + [] == lines;
  }

  /**
   * A word wider than the limit can break it: with a limit of three, two short words and a long one are measured as
   * three lines, and painted at the reported width of six as two.
   */
  lemma LongWordRewraps(font: Font, words: seq<string>)
    requires words == [NARROW, NARROW, LONG]
    ensures Monotone(Counting, font)
    ensures var text, lines := Join(words), Wrap(Counting, font, 3.0, Join(words));
      |lines| == 3 && |Wrap(Counting, font, Widest(Counting, font, lines), text)| == 2
  {
    var text := Join(words);
    JoinIsOneLine(words);
    WordsOfJoin(words);
    CountingIsMonotone(font);
    JoinedLengths(NARROW, NARROW, LONG);
    JoinedLengths(NARROW, LONG, LONG);
    JoinedLengths(LONG, LONG, LONG);
    ThreeWords(Counting, font, 3.0, NARROW, NARROW, LONG);
    ThreeWords(Counting, font, 6.0, NARROW, NARROW, LONG);
    WrapOfOneLine(Counting, font, 3.0, text);
    WrapOfOneLine(Counting, font, 6.0, text);
    WidestOfThree(Counting, font, [NARROW], [NARROW], [LONG]);
  }

  /** In a box of no width, two words are measured as one line and painted as two. */
  lemma NoWidthBreaks(font: Font, avail: Available, words: seq<string>)
    requires words == [NARROW, NARROW]
    ensures var text := Join(words);
      && !Wraps(Counting, font, text, Target(Counting, font, text, Some(0.0), avail))
      && Lines(text) == [text] && |Wrap(Counting, font, 0.0, text)| == 2
  {
    var text := Join(words);
    JoinIsOneLine(words);
    WordsOfJoin(words);
    JoinedLengths(NARROW, NARROW, NARROW);
    WrapOfOneLine(Counting, font, 0.0, text);
    TwoInNoWidth(font, words);
  }

  lemma TwoInNoWidth(font: Font, words: seq<string>)
    requires words == [NARROW, NARROW] && Wide(Counting, font, words) > 0.0
    ensures Para(Counting, font, 0.0, words) == [[NARROW], [NARROW]]
  {
    assert [] + [NARROW] == [NARROW] && words[1..] == [NARROW] && [NARROW][1..] == [];
    assert Fill(Counting, font, 0.0, [], words) == Fill(Counting, font, 0.0, [NARROW], [NARROW]);
    assert Fill(Counting, font, 0.0, [NARROW], []) == [[NARROW]];
    assert [NARROW] + [NARROW] == words;
  }

  // ---------------------------------------------------------------- one turn of each loop

  lemma StringsSnoc(done: seq<Line>, line: Line)
    ensures Strings(done + [line]) == Strings(done) + [Join(line)]
  {}

  lemma JoinSnoc(line: Line, word: string)
    requires IsWord(word)
    ensures Join(line + [word]) == (if line == [] then word else Join(line) + " " + word) && Join(line + [word]) != []
    ensures Join([word]) == word
  {
    assert (line + [word])[..|line|] == line;
  }

  lemma FillNext(host: Host, font: Font, limit: real, done: seq<Line>, line: Line, words: seq<string>, i: nat)
    requires i < |words|
    ensures done + Fill(host, font, limit, line, words[i..]) ==
      if line != [] && Wide(host, font, line + [words[i]]) > limit
        then done + [line] + Fill(host, font, limit, [words[i]], words[i + 1..])
      else done + Fill(host, font, limit, line + [words[i]], words[i + 1..])
  {
    assert words[i..][0] == words[i] && words[i..][1..] == words[i + 1..];
    Regroup(done, [line], Fill(host, font, limit, [words[i]], words[i + 1..]));
  }

  lemma WrapNext(host: Host, font: Font, limit: real, done: seq<Line>, paras: seq<string>, i: nat)
    requires i < |paras|
    ensures var lines := Para(host, font, limit, Words(paras[i]));
      && done + WrapAll(host, font, limit, paras[i..]) == done + lines + WrapAll(host, font, limit, paras[i + 1..])
      && Strings(done + lines) == Strings(done) + Strings(lines)
  {
    assert paras[i..][0] == paras[i] && paras[i..][1..] == paras[i + 1..];
    Regroup(done, Para(host, font, limit, Words(paras[i])), WrapAll(host, font, limit, paras[i + 1..]));
  }

  lemma WidestNext(host: Host, font: Font, lines: seq<Line>, i: nat)
    requires i < |lines| && AreWords(lines[i])
    ensures var before := Widest(host, font, lines[..i]);
      Widest(host, font, lines[..i + 1]) ==
        if Join(lines[i]) != [] && Wide(host, font, lines[i]) > before then Wide(host, font, lines[i]) else before
  {
    assert lines[..i + 1][..i] == lines[..i];
    JoinEmpty(lines[i]);
  }

  // ---------------------------------------------------------------- the cache and the loops

  class Measurer {
    const host: Host
    var cache: map<Key, Extent>
    ghost var asks: nat

    /** The cache holds what the host said, and the host was asked once for each entry. */
    ghost predicate Valid() reads this { asks == |cache| && forall k | k in cache :: cache[k] == host(k) }

    constructor (host: Host)
      ensures Valid() && this.host == host && asks == 0
    {
      this.host := host;
      cache := map[];
      asks := 0;
    }

    method MeasureCached(text: string, font: Font) returns (e: Extent)
      requires Valid()
      modifies this`cache, this`asks
      ensures Valid() && e == host(Key(text, font)) && Key(text, font) in cache
      ensures asks == old(asks) + if Key(text, font) in old(cache) then 0 else 1
    {
      var key := Key(text, font);
      if key in cache {
        return cache[key];
      }
      e := host(key);
      cache := cache[key := e];
      asks := asks + 1;
    }

    /** One paragraph: its lines are appended to `out`. */
    method WrapParagraph(out: seq<string>, words: seq<string>, font: Font, limit: real) returns (r: seq<string>)
      requires Valid() && AreWords(words)
      modifies this`cache, this`asks
      ensures Valid() && r == out + Strings(Para(host, font, limit, words))
    {
      r := out;
      var line: string := "";
      ghost var done: seq<Line>, current: Line := [], [];
      var i := 0;
      while i < |words|
        invariant i <= |words| && Valid()
        invariant r == out + Strings(done) && line == Join(current) && (line == [] <==> current == [])
        invariant done + Fill(host, font, limit, current, words[i..]) == Para(host, font, limit, words)
      {
        var word := words[i];
        FillNext(host, font, limit, done, current, words, i);
        JoinSnoc(current, word);
        StringsSnoc(done, current);
        var cand := if line == [] then word else line + " " + word;
        var e := MeasureCached(cand, font);
        if e.w > limit && line != [] {
          r := r + [line];
          line := word;
          done, current := done + [current], [word];
        } else {
          line := cand;
          current := current + [word];
        }
        i := i + 1;
      }
      StringsSnoc(done, current);
      r := r + [line];
    }

    method WrapLines(text: string, font: Font, limit: real) returns (out: seq<string>)
      requires Valid()
      modifies this`cache, this`asks
      ensures Valid() && out == Strings(Wrap(host, font, limit, text))
    {
      out := [];
      var paras := Lines(text);
      ghost var done: seq<Line> := [];
      var i := 0;
      while i < |paras|
        invariant i <= |paras| && Valid() && out == Strings(done)
        invariant done + WrapAll(host, font, limit, paras[i..]) == Wrap(host, font, limit, text)
      {
        WordsAreWords(paras[i]);
        ghost var lines := Para(host, font, limit, Words(paras[i]));
        out := WrapParagraph(out, Words(paras[i]), font, limit);
        WrapNext(host, font, limit, done, paras, i);
        done := done + lines;
        i := i + 1;
      }
      assert done + [] == done;
    }

    /** How many lines, and how wide the widest is. */
    method WrapMetrics(text: string, font: Font, limit: real) returns (count: nat, widest: real)
      requires Valid()
      modifies this`cache, this`asks
      ensures Valid() && count == |Wrap(host, font, limit, text)|
      ensures widest == Widest(host, font, Wrap(host, font, limit, text))
    {
      ghost var laid := Wrap(host, font, limit, text);
      WrapOk(host, font, limit, Lines(text));
      var lines := WrapLines(text, font, limit);
      widest := 0.0;
      var i := 0;
      while i < |lines|
        invariant i <= |lines| && Valid() && widest == Widest(host, font, laid[..i])
      {
        WidestNext(host, font, laid, i);
        if lines[i] != [] {
          var e := MeasureCached(lines[i], font);
          widest := if e.w > widest then e.w else widest;
        }
        i := i + 1;
      }
      assert laid[..i] == laid;
      count := if |lines| > 1 then |lines| else 1;
    }

    method LongestWordW(text: string, font: Font) returns (widest: real)
      requires Valid()
      modifies this`cache, this`asks
      ensures Valid() && widest == LongestWord(host, font, Words(text))
    {
      var words := Words(text);
      widest := 0.0;
      var i := 0;
      while i < |words|
        invariant i <= |words| && Valid() && widest == LongestWord(host, font, words[..i])
      {
        assert words[..i + 1][..i] == words[..i] && Join([words[i]]) == words[i];
        var e := MeasureCached(words[i], font);
        widest := if e.w > widest then e.w else widest;
        i := i + 1;
      }
      assert words[..i] == words;
    }

    method FindTarget(text: string, font: Font, knownW: Option<real>, avail: Available) returns (target: Option<real>)
      requires Valid()
      modifies this`cache, this`asks
      ensures Valid() && target == Target(host, font, text, knownW, avail)
    {
      if knownW.Some? {
        return knownW;
      }
      match avail {
        case Definite(w) => target := Some(w);
        case MinContent =>
          var longest := LongestWordW(text, font);
          target := Some(longest);
        case MaxContent => target := None;
      }
    }

    /** The measure pass of a wrapping leaf. */
    method MeasureLeaf(text: string, font: Font, knownW: Option<real>, knownH: Option<real>, avail: Available)
      returns (s: Size)
      requires Valid()
      modifies this`cache, this`asks
      ensures Valid()
      ensures var target := Target(host, font, text, knownW, avail);
        s == if Wraps(host, font, text, target) then
               Size(BoxWidth(host, font, text, target.value, knownW.Some?),
                    if knownH.Some? then knownH.value
                    else Stacked(|Wrap(host, font, target.value, text)|, host(Key("Mg", font)).h))
             else
               Size(if knownW.Some? then knownW.value else host(Key(text, font)).w,
                    if knownH.Some? then knownH.value else host(Key(text, font)).h)
    {
      var whole := MeasureCached(text, font);
      var probe := MeasureCached("Mg", font);
      var target := FindTarget(text, font, knownW, avail);
      if target.Some? && whole.w > target.value && target.value > 0.0 {
        var count, widest := WrapMetrics(text, font, target.value);
        return Size(if knownW.Some? then target.value else widest,
                    if knownH.Some? then knownH.value else Stacked(count, probe.h));
      }
      s := Size(if knownW.Some? then knownW.value else whole.w, if knownH.Some? then knownH.value else whole.h);
    }
  }
}
