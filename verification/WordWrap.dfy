/**
 * Greedy word wrap over the host's single-line measurer, and the measure pass that must agree with the paint pass.
 *
 * A wrapped line is the sequence of its words; the strings handed out are those words joined. Widths are reals and
 * the host's answer for a text and font is a fixed function.
 */
module WordWrap {
  import opened TextSplit

  datatype Font = Font(family: string, sizeBits: nat, weight: nat, italic: bool)

  datatype Key = Key(text: string, font: Font)

  datatype Extent = Extent(w: real, h: real)

  type Host = Key -> Extent

  type Line = seq<string>

  function Wide(host: Host, font: Font, line: Line): real { host(Key(Join(line), font)).w }

  /** A run of words is no wider than a run that contains it. */
  ghost predicate Monotone(host: Host, font: Font) {
    forall line: Line, i, j | 0 <= i <= j <= |line| :: Wide(host, font, line[i..j]) <= Wide(host, font, line)
  }

  // ---------------------------------------------------------------- what the loop computes

  /** The loop, from a line begun. */
  function Fill(host: Host, font: Font, limit: real, line: Line, words: seq<string>): seq<Line>
    decreases |words|
  {
    if words == [] then [line]
    else if line != [] && Wide(host, font, line + [words[0]]) > limit then [line]
        + Fill(host, font, limit, [words[0]], words[1..])
    else Fill(host, font, limit, line + [words[0]], words[1..])
  }

  function WrapAll(host: Host, font: Font, limit: real, paras: seq<string>): seq<Line> {
    if paras == [] then []
    else Fill(host, font, limit, [], Words(paras[0])) + WrapAll(host, font, limit, paras[1..])
  }

  function Wrap(host: Host, font: Font, limit: real, text: string): seq<Line> {
    WrapAll(host, font, limit, Lines(text))
  }

  function Strings(lines: seq<Line>): seq<string> { seq(|lines|, i requires 0 <= i < |lines| => Join(lines[i])) }

  /** The widest non-empty line, at least zero. */
  function Widest(host: Host, font: Font, lines: seq<Line>): real {
    if lines == [] then 0.0
    else var before, last := Widest(host, font, lines[..|lines| - 1]), lines[|lines| - 1];
      if last != [] && Wide(host, font, last) > before then Wide(host, font, last) else before
  }

  function LongestWord(host: Host, font: Font, words: seq<string>): real {
    if words == [] then 0.0
    else var before, w := LongestWord(host, font, words[..|words| - 1]), Wide(host, font, [words[|words| - 1]]);
      if w > before then w else before
  }

  // ---------------------------------------------------------------- what a greedy layout is

  function Flatten(lines: seq<Line>): seq<string> {
    if lines == [] then [] else lines[0] + Flatten(lines[1..])
  }

  /** The line fits, or is a single word. */
  predicate Fits(host: Host, font: Font, limit: real, line: Line) { |line| <= 1 || Wide(host, font, line) <= limit }

  /** A way to set `words` in lines: in order, no empty line, every line fits or is a single word. */
  ghost predicate Layout(host: Host, font: Font, limit: real, words: seq<string>, lines: seq<Line>) {
    && Flatten(lines) == words
    && forall i | 0 <= i < |lines| :: lines[i] != [] && Fits(host, font, limit, lines[i])
  }

  /** The first word of line `i + 1` would not have fitted on line `i`. */
  predicate Forced(host: Host, font: Font, limit: real, lines: seq<Line>, i: nat)
    requires i + 1 < |lines| && lines[i + 1] != []
  {
    Wide(host, font, lines[i] + [lines[i + 1][0]]) > limit
  }

  /** A layout in which every break was forced. */
  ghost predicate Greedy(host: Host, font: Font, limit: real, words: seq<string>, lines: seq<Line>) {
    Layout(host, font, limit, words, lines) && forall i: nat | i + 1 < |lines| :: Forced(host, font, limit, lines, i)
  }

  /** Lines of one paragraph: one empty line for an empty one. */
  function Para(host: Host, font: Font, limit: real, words: seq<string>): seq<Line> {
    Fill(host, font, limit, [], words)
  }

  // ---------------------------------------------------------------- the loop makes a greedy layout

  lemma FlattenCons(line: Line, lines: seq<Line>)
    ensures Flatten([line] + lines) == line + Flatten(lines)
  {
    assert ([line] + lines)[1..] == lines;
  }

  /** The words come out in order; the first line extends the one begun. */
  lemma {:induction false} FillKeepsWords(host: Host, font: Font, limit: real, line: Line, words: seq<string>)
    ensures var r := Fill(host, font, limit, line, words); Flatten(r) == line + words && r != [] && line <= r[0]
    ensures line != [] || words != [] ==> Fill(host, font, limit, line, words)[0] != []
    decreases |words|
  {
    if words == [] {
      FlattenCons(line, []);
      assert [line] + [] == [line];
    } else {
      assert words == [words[0]] + words[1..];
      if line != [] && Wide(host, font, line + [words[0]]) > limit {
        FillKeepsWords(host, font, limit, [words[0]], words[1..]);
        FlattenCons(line, Fill(host, font, limit, [words[0]], words[1..]));
      } else {
        FillKeepsWords(host, font, limit, line + [words[0]], words[1..]);
        assert line + words == (line + [words[0]]) + words[1..];
      }
    }
  }

  lemma {:induction false} FillIsGreedy(host: Host, font: Font, limit: real, line: Line, words: seq<string>)
    requires (line != [] || words != []) && Fits(host, font, limit, line)
    ensures Greedy(host, font, limit, line + words, Fill(host, font, limit, line, words))
    decreases |words|
  {
    FillKeepsWords(host, font, limit, line, words);
    if words != [] {
      if line != [] && Wide(host, font, line + [words[0]]) > limit {
        var rest := Fill(host, font, limit, [words[0]], words[1..]);
        FillKeepsWords(host, font, limit, [words[0]], words[1..]);
        FillIsGreedy(host, font, limit, [words[0]], words[1..]);
        GreedyCons(host, font, limit, line, [words[0]] + words[1..], rest);
        assert words == [words[0]] + words[1..];
      } else {
        FillIsGreedy(host, font, limit, line + [words[0]], words[1..]);
        assert line + words == (line + [words[0]]) + words[1..];
      }
    }
  }

  lemma GreedyCons(host: Host, font: Font, limit: real, line: Line, words: seq<string>, rest: seq<Line>)
    requires Greedy(host, font, limit, words, rest) && rest != [] && line != [] && Fits(host, font, limit, line)
    requires Wide(host, font, line + [rest[0][0]]) > limit
    ensures Greedy(host, font, limit, line + words, [line] + rest)
  {
    var lines := [line] + rest;
    FlattenCons(line, rest);
    forall i: nat | i + 1 < |lines| ensures Forced(host, font, limit, lines, i) {
      if i > 0 {
        assert lines[i] == rest[i - 1] && lines[i + 1] == rest[i];
        assert Forced(host, font, limit, rest, i - 1);
      }
    }
  }

  // ---------------------------------------------------------------- and the only one

  lemma Prefix(host: Host, font: Font, limit: real, line: Line, n: nat)
    requires Monotone(host, font) && n <= |line| && Fits(host, font, limit, line)
    ensures Fits(host, font, limit, line[..n])
  {
    assert line[0..n] == line[..n];
  }

  /** Words that fit beside the line begun join it. */
  lemma {:induction false} FillTakes(host: Host, font: Font, limit: real, line: Line, more: Line, words: seq<string>)
    requires Monotone(host, font) && Fits(host, font, limit, line + more)
    ensures Fill(host, font, limit, line, more + words) == Fill(host, font, limit, line + more, words)
    decreases |more|
  {
    if more == [] {
      assert more + words == words && line + more == line;
    } else {
      var all := more + words;
      assert all[1..] == more[1..] + words;
      assert line + more == (line + [more[0]]) + more[1..];
      Prefix(host, font, limit, line + more, |line| + 1);
      assert (line + more)[..|line| + 1] == line + [all[0]];
      FillTakes(host, font, limit, line + [more[0]], more[1..], words);
    }
  }

  /** A greedy layout is what the loop computes: greedy layouts are unique. */
  lemma {:induction false} GreedyIsFill(host: Host, font: Font, limit: real, words: seq<string>, lines: seq<Line>)
    requires Monotone(host, font) && Greedy(host, font, limit, words, lines) && lines != []
    ensures lines == Para(host, font, limit, words)
    decreases |lines|
  {
    var first, rest := lines[0], lines[1..];
    var after := Flatten(rest);
    assert lines == [first] + rest;
    assert [] + first == first;
    FillTakes(host, font, limit, [], first, after);
    if rest == [] {
      assert after == [];
    } else {
      GreedyTail(host, font, limit, words, lines);
      GreedyIsFill(host, font, limit, after, rest);
      assert Forced(host, font, limit, lines, 0);
      assert after[0] == rest[0][0];
      assert [] + [after[0]] == [after[0]];
    }
  }

  lemma GreedyTail(host: Host, font: Font, limit: real, words: seq<string>, lines: seq<Line>)
    requires Greedy(host, font, limit, words, lines) && lines != []
    ensures Greedy(host, font, limit, Flatten(lines[1..]), lines[1..])
  {
    var rest := lines[1..];
    forall i: nat | i + 1 < |rest| ensures Forced(host, font, limit, rest, i) {
      assert Forced(host, font, limit, lines, i + 1);
    }
  }

  /** The lines of a paragraph that has words: exactly the layouts in which every break was forced. */
  lemma WrapIsGreedy(host: Host, font: Font, limit: real, words: seq<string>, lines: seq<Line>)
    requires Monotone(host, font) && words != []
    ensures lines == Para(host, font, limit, words) <==> Greedy(host, font, limit, words, lines)
  {
    FillIsGreedy(host, font, limit, [], words);
    assert [] + words == words;
    if Greedy(host, font, limit, words, lines) {
      GreedyIsFill(host, font, limit, words, lines);
    }
  }

  // ---------------------------------------------------------------- fewest lines

  /** The loop's first line, and then the loop again on what is left. */
  lemma {:induction false} FillSplits(host: Host, font: Font, limit: real, line: Line, words: seq<string>)
    returns (k: nat)
    requires line != []
    ensures k <= |words|
    ensures Fill(host, font, limit, line, words) ==
            [line + words[..k]] + if k == |words| then [] else Para(host, font, limit, words[k..])
    decreases |words|
  {
    if words == [] {
      k := 0;
      assert line + words[..0] == line;
    } else if Wide(host, font, line + [words[0]]) > limit {
      k := 0;
      assert line + words[..0] == line && words[0..] == words && [] + [words[0]] == [words[0]];
    } else {
      k := FillSplits(host, font, limit, line + [words[0]], words[1..]);
      assert (line + [words[0]]) + words[1..][..k] == line + words[..k + 1];
      assert words[1..][k..] == words[k + 1..];
      k := k + 1;
    }
  }

  /** The greedy layout of a tail of `words` has no more lines than any layout of all of them. */
  lemma {:induction false} GreedyAhead(host: Host, font: Font, limit: real, words: seq<string>, lines: seq<Line>,
                                       tail: seq<string>)
    requires Monotone(host, font) && Layout(host, font, limit, words, lines)
    requires tail != [] && |tail| <= |words| && tail == words[|words| - |tail|..]
    ensures |Para(host, font, limit, tail)| <= |lines|
    decreases |lines|
  {
    var rest := lines[1..];
    var after := Flatten(rest);
    assert words == lines[0] + after;
    assert Layout(host, font, limit, after, rest);
    if |tail| <= |after| {
      assert tail == after[|after| - |tail|..];
      GreedyAhead(host, font, limit, after, rest, tail);
    } else {
      var k := FirstTaken(host, font, limit, lines[0], after, tail);
      if k < |after| {
        assert after[k..] == after[|after| - |after[k..]|..];
        GreedyAhead(host, font, limit, after, rest, after[k..]);
      }
    }
  }

  /** Begun inside a line of another layout, the loop's first line takes at least what is left of that line. */
  lemma FirstTaken(host: Host, font: Font, limit: real, line: Line, after: seq<string>, tail: seq<string>)
    returns (k: nat)
    requires Monotone(host, font) && Fits(host, font, limit, line)
    requires |after| < |tail| <= |line| + |after| && tail == (line + after)[|line| + |after| - |tail|..]
    ensures k <= |after|
    ensures |Para(host, font, limit, tail)| == 1 + if k < |after| then |Para(host, font, limit, after[k..])| else 0
  {
    var n := |tail| - |after|;
    var head := tail[..n];
    assert head == line[|line| - n..] && tail == head + after;
    assert line[|line| - n..|line|] == head;
    assert [] + head == head;
    FillTakes(host, font, limit, [], head, after);
    k := FillSplits(host, font, limit, head, after);
  }

  /** No way to set the words takes fewer lines. */
  lemma FewestLines(host: Host, font: Font, limit: real, words: seq<string>, lines: seq<Line>)
    requires Monotone(host, font) && words != [] && Layout(host, font, limit, words, lines)
    ensures |Para(host, font, limit, words)| <= |lines|
  {
    assert words == words[|words| - |words|..];
    GreedyAhead(host, font, limit, words, lines, words);
  }

  // ---------------------------------------------------------------- no break but the hard ones

  /** The words of each paragraph on one line. */
  function Whole(paras: seq<string>): seq<Line> { seq(|paras|, i requires 0 <= i < |paras| => Words(paras[i])) }

  /** Each paragraph's words fit on one line. */
  ghost predicate OneLineEach(host: Host, font: Font, limit: real, paras: seq<string>) {
    forall i | 0 <= i < |paras| :: Fits(host, font, limit, Words(paras[i]))
  }

  lemma OneLineFlat(lines: seq<Line>)
    requires |lines| == 1
    ensures Flatten(lines) == lines[0] && lines == [lines[0]]
  {
    assert lines[1..] == [] && lines[0] + [] == lines[0];
  }

  lemma ParaWholeIff(host: Host, font: Font, limit: real, words: seq<string>)
    requires Monotone(host, font)
    ensures |Para(host, font, limit, words)| >= 1
    ensures |Para(host, font, limit, words)| == 1 <==> Fits(host, font, limit, words)
    ensures |Para(host, font, limit, words)| == 1 <==> Para(host, font, limit, words) == [words]
  {
    var lines := Para(host, font, limit, words);
    FillKeepsWords(host, font, limit, [], words);
    assert [] + words == words;
    if |lines| == 1 {
      OneLineFlat(lines);
    }
    if words != [] {
      OneLineFlat([words]);
      WrapIsGreedy(host, font, limit, words, [words]);
      assert Greedy(host, font, limit, words, [words]) <==> Fits(host, font, limit, [words][0]);
    }
  }

  /** Wrapping breaks nothing but the hard breaks exactly if each paragraph fits on a line. */
  lemma {:induction false} WrapWholeIff(host: Host, font: Font, limit: real, paras: seq<string>)
    requires Monotone(host, font)
    ensures |WrapAll(host, font, limit, paras)| >= |paras|
    ensures |WrapAll(host, font, limit, paras)| == |paras| <==> OneLineEach(host, font, limit, paras)
    ensures WrapAll(host, font, limit, paras) == Whole(paras) <==> OneLineEach(host, font, limit, paras)
    decreases |paras|
  {
    if paras != [] {
      var words, rest := Words(paras[0]), paras[1..];
      ParaWholeIff(host, font, limit, words);
      WrapWholeIff(host, font, limit, rest);
      WholeCons(paras);
      var first, others := Para(host, font, limit, words), WrapAll(host, font, limit, rest);
      assert |Whole(paras)| == |paras| && |WrapAll(host, font, limit, paras)| == |first| + |others|;
      OneLineCons(host, font, limit, paras);
    }
  }

  lemma WholeCons(paras: seq<string>)
    requires paras != []
    ensures Whole(paras) == [Words(paras[0])] + Whole(paras[1..])
  {}

  lemma OneLineCons(host: Host, font: Font, limit: real, paras: seq<string>)
    requires paras != []
    ensures OneLineEach(host, font, limit, paras) <==>
            Fits(host, font, limit, Words(paras[0])) && OneLineEach(host, font, limit, paras[1..])
  {
    assert forall i | 0 <= i < |paras[1..]| :: paras[1..][i] == paras[i + 1];
    assert forall i | 0 < i < |paras| :: paras[i] == paras[1..][i - 1];
  }

  // ---------------------------------------------------------------- wrapping again at the widest line

  /** Every break of the layout is still forced at `limit`. */
  ghost predicate StillForced(host: Host, font: Font, limit: real, lines: seq<Line>) {
    forall i: nat | i + 1 < |lines| && lines[i + 1] != [] :: Forced(host, font, limit, lines, i)
  }

  /** Wrapping a paragraph at another limit that holds its lines gives the same lines iff its breaks stay forced. */
  lemma ParaAgain(host: Host, font: Font, limit: real, other: real, words: seq<string>)
    requires Monotone(host, font)
    requires forall i | 0 <= i < |Para(host, font, limit, words)| ::
               var line := Para(host, font, limit, words)[i]; line != [] ==> Wide(host, font, line) <= other
    ensures Para(host, font, other, words) == Para(host, font, limit, words) <==>
            StillForced(host, font, other, Para(host, font, limit, words))
  {
    var lines := Para(host, font, limit, words);
    if words != [] {
      WrapIsGreedy(host, font, limit, words, lines);
      WrapIsGreedy(host, font, other, words, lines);
    }
  }

  lemma {:induction false} WithinWidest(host: Host, font: Font, lines: seq<Line>, i: nat)
    requires i < |lines|
    ensures Widest(host, font, lines) >= 0.0
    ensures (lines[i] != [] ==> Wide(host, font, lines[i]) <= Widest(host, font, lines))
    decreases |lines|
  {
    var n := |lines| - 1;
    if n > 0 {
      WithinWidest(host, font, lines[..n], if i < n then i else 0);
    }
  }

  /** The widest line is no wider than a limit that every line fits. */
  lemma {:induction false} WidestWithin(host: Host, font: Font, lines: seq<Line>, limit: real)
    requires limit >= 0.0 && forall i | 0 <= i < |lines| && lines[i] != [] :: Wide(host, font, lines[i]) <= limit
    ensures Widest(host, font, lines) <= limit
    decreases |lines|
  {
    if lines != [] {
      WidestWithin(host, font, lines[..|lines| - 1], limit);
    }
  }

  /** All paragraphs' breaks stay forced at `other`. */
  ghost predicate AllStillForced(host: Host, font: Font, limit: real, other: real, paras: seq<string>) {
    forall i | 0 <= i < |paras| :: StillForced(host, font, other, Para(host, font, limit, Words(paras[i])))
  }

  lemma {:induction false} WrapAgain(host: Host, font: Font, limit: real, other: real, paras: seq<string>)
    requires Monotone(host, font)
    requires forall i | 0 <= i < |WrapAll(host, font, limit, paras)| ::
               var line := WrapAll(host, font, limit, paras)[i]; line != [] ==> Wide(host, font, line) <= other
    ensures (forall i | 0 <= i < |paras| ::
               Para(host, font, other, Words(paras[i])) == Para(host, font, limit, Words(paras[i]))) <==>
            AllStillForced(host, font, limit, other, paras)
    decreases |paras|
  {
    if paras != [] {
      var first, rest := Para(host, font, limit, Words(paras[0])), WrapAll(host, font, limit, paras[1..]);
      var all := WrapAll(host, font, limit, paras);
      assert forall i | 0 <= i < |first| :: first[i] == all[i];
      assert forall i | 0 <= i < |rest| :: rest[i] == all[|first| + i];
      ParaAgain(host, font, limit, other, Words(paras[0]));
      WrapAgain(host, font, limit, other, paras[1..]);
      assert forall i | 0 < i < |paras| :: paras[i] == paras[1..][i - 1];
      assert forall i | 0 <= i < |paras| - 1 :: paras[1..][i] == paras[i + 1];
    }
  }

  /** A paragraph's lines, up to an empty paragraph's empty line, hold its words; so a longer list holds more. */
  lemma ParaEnds(host: Host, font: Font, limit: real, other: real, words: seq<string>, more: seq<Line>)
    requires Para(host, font, other, words) == Para(host, font, limit, words) + more
    ensures more == []
  {
    var mine, theirs := Para(host, font, limit, words), Para(host, font, other, words);
    if words != [] {
      FillIsGreedy(host, font, other, [], words);
      assert forall i | 0 <= i < |more| :: more[i] == theirs[|mine| + i];
      FlattenLong(more);
      FlattenAppend(mine, more);
      FillKeepsWords(host, font, limit, [], words);
      FillKeepsWords(host, font, other, [], words);
    }
  }

  lemma {:induction false} FlattenLong(lines: seq<Line>)
    requires forall i | 0 <= i < |lines| :: lines[i] != []
    ensures |Flatten(lines)| >= |lines|
  {
    if lines != [] {
      FlattenLong(lines[1..]);
    }
  }

  lemma {:induction false} FlattenAppend(a: seq<Line>, b: seq<Line>)
    ensures Flatten(a + b) == Flatten(a) + Flatten(b)
  {
    if a == [] {
      assert a + b == b;
    } else {
      assert (a + b)[1..] == a[1..] + b;
      FlattenAppend(a[1..], b);
    }
  }

  /** Equal wraps of a text are equal paragraph by paragraph. */
  lemma {:induction false} SameByParagraph(host: Host, font: Font, limit: real, other: real, paras: seq<string>)
    ensures WrapAll(host, font, other, paras) == WrapAll(host, font, limit, paras) <==>
            forall i | 0 <= i < |paras| :: Para(host, font, other, Words(paras[i])) ==
                Para(host, font, limit, Words(paras[i]))
    decreases |paras|
  {
    if paras != [] {
      var words, rest := Words(paras[0]), paras[1..];
      var a, b := Para(host, font, limit, words), Para(host, font, other, words);
      SameByParagraph(host, font, limit, other, rest);
      assert forall i | 0 < i < |paras| :: paras[i] == rest[i - 1];
      assert forall i | 0 <= i < |rest| :: rest[i] == paras[i + 1];
      var all, again := WrapAll(host, font, limit, paras), WrapAll(host, font, other, paras);
      if again == all {
        assert all[..|a|] == a && again[..|b|] == b;
        if |a| <= |b| {
          assert b == a + b[|a|..];
          ParaEnds(host, font, limit, other, words, b[|a|..]);
        } else {
          assert a == b + a[|b|..];
          ParaEnds(host, font, other, limit, words, a[|b|..]);
        }
        assert all[|a|..] == WrapAll(host, font, limit, rest) && again[|b|..] == WrapAll(host, font, other, rest);
      }
    }
  }

  /**
   * Wrapping again at the reported width gives the same lines exactly if every break of the first wrap is one that
   * the widest line forces as well.
   */
  lemma RewrapIff(host: Host, font: Font, limit: real, text: string)
    requires Monotone(host, font)
    ensures var lines := Wrap(host, font, limit, text); var widest := Widest(host, font, lines);
      Wrap(host, font, widest, text) == lines <==> AllStillForced(host, font, limit, widest, Lines(text))
  {
    var lines := Wrap(host, font, limit, text);
    forall i | 0 <= i < |lines| && lines[i] != [] ensures Wide(host, font, lines[i]) <= Widest(host, font, lines) {
      WithinWidest(host, font, lines, i);
    }
    WrapAgain(host, font, limit, Widest(host, font, lines), Lines(text));
    SameByParagraph(host, font, limit, Widest(host, font, lines), Lines(text));
  }

  ghost predicate WordsFit(host: Host, font: Font, limit: real, words: seq<string>) {
    forall i | 0 <= i < |words| :: Wide(host, font, [words[i]]) <= limit
  }

  /** Lines made of words that fit, fit. */
  lemma {:induction false} ParaFits(host: Host, font: Font, limit: real, words: seq<string>)
    requires WordsFit(host, font, limit, words)
    ensures forall i | 0 <= i < |Para(host, font, limit, words)| ::
      var line := Para(host, font, limit, words)[i]; line != [] ==> Wide(host, font, line) <= limit
  {
    var lines := Para(host, font, limit, words);
    if words != [] {
      FillIsGreedy(host, font, limit, [], words);
      assert [] + words == words;
      forall i | 0 <= i < |lines| ensures Wide(host, font, lines[i]) <= limit {
        if |lines[i]| == 1 {
          var k := FlattenAt(lines, i);
          assert lines[i] == [words[k]];
        }
      }
    }
  }

  /** The first word of a line is one of the words. */
  lemma {:induction false} FlattenAt(lines: seq<Line>, i: nat) returns (k: nat)
    requires i < |lines| && lines[i] != []
    ensures k < |Flatten(lines)| && Flatten(lines)[k] == lines[i][0]
    decreases |lines|
  {
    if i == 0 {
      k := 0;
    } else {
      k := FlattenAt(lines[1..], i - 1);
      k := k + |lines[0]|;
    }
  }

  lemma {:induction false} WrapFits(host: Host, font: Font, limit: real, paras: seq<string>)
    requires WordsFit(host, font, limit, WordsOfAll(paras))
    ensures forall i | 0 <= i < |WrapAll(host, font, limit, paras)| ::
      var line := WrapAll(host, font, limit, paras)[i]; line != [] ==> Wide(host, font, line) <= limit
    ensures forall i | 0 <= i < |paras| :: WordsFit(host, font, limit, Words(paras[i]))
    decreases |paras|
  {
    if paras != [] {
      var words, rest := Words(paras[0]), paras[1..];
      var all := words + WordsOfAll(rest);
      assert forall i | 0 <= i < |words| :: words[i] == all[i];
      assert forall i | 0 <= i < |WordsOfAll(rest)| :: WordsOfAll(rest)[i] == all[|words| + i];
      ParaFits(host, font, limit, words);
      WrapFits(host, font, limit, rest);
      forall i | 0 <= i < |paras| ensures WordsFit(host, font, limit, Words(paras[i])) {
        if i > 0 {
          assert paras[i] == rest[i - 1];
        }
      }
      var first, after := Para(host, font, limit, words), WrapAll(host, font, limit, rest);
      forall i | 0 <= i < |first + after| && (first + after)[i] != []
        ensures Wide(host, font, (first + after)[i]) <= limit
      {
        if i >= |first| {
          assert (first + after)[i] == after[i - |first|];
        }
      }
    }
  }

  lemma ForcedBelow(host: Host, font: Font, limit: real, other: real, words: seq<string>)
    requires other <= limit
    ensures StillForced(host, font, other, Para(host, font, limit, words))
  {
    var lines := Para(host, font, limit, words);
    if words != [] {
      FillIsGreedy(host, font, limit, [], words);
      forall i: nat | i + 1 < |lines| && lines[i + 1] != [] ensures Forced(host, font, other, lines, i) {
        assert Forced(host, font, limit, lines, i);
      }
    }
  }

  /** If no word is wider than the limit, wrapping again at the reported width gives the same lines. */
  lemma RewrapWhenWordsFit(host: Host, font: Font, limit: real, text: string)
    requires Monotone(host, font) && limit >= 0.0 && WordsFit(host, font, limit, Words(text))
    ensures var lines := Wrap(host, font, limit, text);
      Widest(host, font, lines) <= limit && Wrap(host, font, Widest(host, font, lines), text) == lines
  {
    var lines, paras := Wrap(host, font, limit, text), Lines(text);
    WordsOfLines(text);
    WrapFits(host, font, limit, paras);
    WidestWithin(host, font, lines, limit);
    forall i | 0 <= i < |paras|
      ensures StillForced(host, font, Widest(host, font, lines), Para(host, font, limit, Words(paras[i])))
    {
      ForcedBelow(host, font, limit, Widest(host, font, lines), Words(paras[i]));
    }
    RewrapIff(host, font, limit, text);
  }

  lemma {:induction false} LongestWordFits(host: Host, font: Font, words: seq<string>)
    ensures LongestWord(host, font, words) >= 0.0 && WordsFit(host, font, LongestWord(host, font, words), words)
  {
    if words != [] {
      var last := |words| - 1;
      LongestWordFits(host, font, words[..last]);
      forall i | 0 <= i < last ensures Wide(host, font, [words[i]]) <= LongestWord(host, font, words[..last]) {
        assert words[..last][i] == words[i];
      }
    }
  }

  /** It is the least width all words fit. */
  lemma {:induction false} LongestWordLeast(host: Host, font: Font, words: seq<string>, limit: real)
    requires limit >= 0.0 && WordsFit(host, font, limit, words)
    ensures LongestWord(host, font, words) <= limit
  {
    if words != [] {
      var last := |words| - 1;
      assert forall i | 0 <= i < last :: words[..last][i] == words[i];
      LongestWordLeast(host, font, words[..last], limit);
    }
  }

  /** No word is lost, made, moved or cut: the lines' words are the text's words. */
  lemma WrapKeepsWords(host: Host, font: Font, limit: real, text: string)
    ensures WordsOfAll(Strings(Wrap(host, font, limit, text))) == Words(text)
  {
    WrapAllKeepsWords(host, font, limit, Lines(text));
    WordsOfLines(text);
  }

  lemma {:induction false} WrapAllKeepsWords(host: Host, font: Font, limit: real, paras: seq<string>)
    ensures WordsOfAll(Strings(WrapAll(host, font, limit, paras))) == WordsOfAll(paras)
    decreases |paras|
  {
    if paras != [] {
      var first, rest := Para(host, font, limit, Words(paras[0])), WrapAll(host, font, limit, paras[1..]);
      WrapAllKeepsWords(host, font, limit, paras[1..]);
      FillKeepsWords(host, font, limit, [], Words(paras[0]));
      WordsAreWords(paras[0]);
      assert Strings(first + rest) == Strings(first) + Strings(rest);
      WordsOfAllAppend(Strings(first), Strings(rest));
      LinesWords(first);
      assert [] + Words(paras[0]) == Words(paras[0]);
    }
  }

  lemma {:induction false} WordsOfAllAppend(a: seq<string>, b: seq<string>)
    ensures WordsOfAll(a + b) == WordsOfAll(a) + WordsOfAll(b)
    decreases |a|
  {
    if a == [] {
      assert a + b == b;
    } else {
      assert (a + b)[1..] == a[1..] + b;
      WordsOfAllAppend(a[1..], b);
    }
  }

  lemma {:induction false} LinesWords(lines: seq<Line>)
    requires AreWords(Flatten(lines))
    ensures WordsOfAll(Strings(lines)) == Flatten(lines)
    decreases |lines|
  {
    if lines != [] {
      var all := lines[0] + Flatten(lines[1..]);
      assert forall i | 0 <= i < |lines[0]| :: lines[0][i] == all[i];
      assert forall i | 0 <= i < |Flatten(lines[1..])| :: Flatten(lines[1..])[i] == all[|lines[0]| + i];
      WordsOfJoin(lines[0]);
      LinesWords(lines[1..]);
      assert Strings(lines)[1..] == Strings(lines[1..]);
    }
  }

  /** A text has at least one line, and its lines are made of words. */
  lemma {:induction false} WrapOk(host: Host, font: Font, limit: real, paras: seq<string>)
    ensures |WrapAll(host, font, limit, paras)| >= |paras|
    ensures forall i | 0 <= i < |WrapAll(host, font, limit, paras)| :: AreWords(WrapAll(host, font, limit, paras)[i])
    decreases |paras|
  {
    if paras != [] {
      var first, rest := Para(host, font, limit, Words(paras[0])), WrapAll(host, font, limit, paras[1..]);
      FillKeepsWords(host, font, limit, [], Words(paras[0]));
      WordsAreWords(paras[0]);
      assert [] + Words(paras[0]) == Words(paras[0]);
      WrapOk(host, font, limit, paras[1..]);
      forall i | 0 <= i < |first + rest| ensures AreWords((first + rest)[i]) {
        if i < |first| {
          LineOfWords(first, i);
        }
      }
    }
  }

  lemma {:induction false} LineOfWords(lines: seq<Line>, i: nat)
    requires AreWords(Flatten(lines)) && i < |lines|
    ensures AreWords(lines[i])
    decreases |lines|
  {
    var all, rest := lines[0] + Flatten(lines[1..]), Flatten(lines[1..]);
    assert forall k | 0 <= k < |lines[0]| :: lines[0][k] == all[k];
    assert forall k | 0 <= k < |rest| :: rest[k] == all[|lines[0]| + k];
    if i > 0 {
      LineOfWords(lines[1..], i - 1);
    }
  }
}
