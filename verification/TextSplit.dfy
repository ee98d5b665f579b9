/** Text as the wrapper reads it: lines of a text, words of a line, and words joined back with single spaces. */
module TextSplit {
  import opened Sequences

  /** Unicode white space. */
  predicate Space(c: char) {
    || ('\t' <= c <= '\r') || c == ' ' || c == '\U{85}' || c == '\U{A0}' || c == '\U{1680}'
    || ('\U{2000}' <= c <= '\U{200A}') || c == '\U{2028}' || c == '\U{2029}' || c == '\U{202F}' || c == '\U{205F}'
        || c == '\U{3000}'
  }

  /** The pieces of a text between newlines. */
  function Lines(s: string): (r: seq<string>)
    ensures r != []
    decreases |s|
  {
    var n := Run(s, false);
    if n == |s| then [s] else [s[..n]] + Lines(s[n + 1..])
  }

  /** The pieces put together again, with a newline between any two. */
  function JoinLines(ls: seq<string>): string
    requires ls != []
  {
    if |ls| == 1 then ls[0] else ls[0] + "\n" + JoinLines(ls[1..])
  }

  lemma JoinLinesCons(first: string, rest: seq<string>)
    requires rest != []
    ensures JoinLines([first] + rest) == first + "\n" + JoinLines(rest)
  {
    assert ([first] + rest)[1..] == rest;
  }

  /** A text is cut at its newlines and nowhere else. */
  lemma {:induction false} LinesBack(s: string)
    ensures JoinLines(Lines(s)) == s && forall i | 0 <= i < |Lines(s)| :: '\n' !in Lines(s)[i]
    decreases |s|
  {
    var n := Run(s, false);
    if n < |s| {
      var rest := s[n + 1..];
      LinesBack(rest);
      JoinLinesCons(s[..n], Lines(rest));
      assert s == s[..n] + [s[n]] + rest;
    }
  }

  /** How many characters come before the first white space, or (`spaces` false) before the first newline. */
  function Run(s: string, spaces: bool): (n: nat)
    ensures n <= |s|
    ensures forall k | 0 <= k < n :: !Stops(s[k], spaces)
    ensures n < |s| ==> Stops(s[n], spaces)
    decreases |s|
  {
    if s == [] || Stops(s[0], spaces) then 0 else 1 + Run(s[1..], spaces)
  }

  predicate Stops(c: char, spaces: bool) { if spaces then Space(c) else c == '\n' }

  /** The maximal runs without white space. */
  function Words(s: string): seq<string>
    decreases |s|
  {
    if s == [] then []
    else if Space(s[0]) then Words(s[1..])
    else var n := Run(s, true); [s[..n]] + Words(s[n..])
  }

  function Join(ws: seq<string>): string {
    if ws == [] then [] else if |ws| == 1 then ws[0] else Join(ws[..|ws| - 1]) + " " + ws[|ws| - 1]
  }

  predicate IsWord(w: string) { w != [] && forall k | 0 <= k < |w| :: !Space(w[k]) }

  predicate AreWords(ws: seq<string>) { forall i | 0 <= i < |ws| :: IsWord(ws[i]) }

  lemma {:induction false} WordsAreWords(s: string)
    ensures AreWords(Words(s))
    decreases |s|
  {
    if s != [] {
      if Space(s[0]) {
        WordsAreWords(s[1..]);
      } else {
        WordsAreWords(s[Run(s, true)..]);
      }
    }
  }

  lemma {:induction false} RunOf(a: string, b: string, spaces: bool)
    requires forall k | 0 <= k < |a| :: !Stops(a[k], spaces)
    requires b != [] ==> Stops(b[0], spaces)
    ensures Run(a + b, spaces) == |a|
    decreases |a|
  {
    if a == [] {
      assert a + b == b;
    } else {
      assert (a + b)[1..] == a[1..] + b;
      RunOf(a[1..], b, spaces);
    }
  }

  /** White space separates: the words of two texts with white space between are the words of each. */
  lemma {:induction false} WordsApart(a: string, c: char, b: string)
    requires Space(c)
    ensures Words(a + [c] + b) == Words(a) + Words(b)
    decreases |a|
  {
    var s := a + [c] + b;
    if a == [] {
      assert s == [c] + b && s[1..] == b;
    } else if Space(a[0]) {
      assert s[1..] == a[1..] + [c] + b;
      WordsApart(a[1..], c, b);
    } else {
      var n := Run(a, true);
      var tail := a[n..] + [c] + b;
      assert s == a[..n] + tail;
      assert tail[0] == if n < |a| then a[n] else c;
      RunOf(a[..n], tail, true);
      assert s[..n] == a[..n] && s[n..] == tail;
      WordsApart(a[n..], c, b);
      Regroup([a[..n]], Words(a[n..]), Words(b));
    }
  }

  function WordsOfAll(lines: seq<string>): seq<string> {
    if lines == [] then [] else Words(lines[0]) + WordsOfAll(lines[1..])
  }

  /** A text's words are its lines' words, in order. */
  lemma {:induction false} WordsOfLines(s: string)
    ensures WordsOfAll(Lines(s)) == Words(s)
    decreases |s|
  {
    var n := Run(s, false);
    if n == |s| {
      assert WordsOfAll([s]) == Words(s) + WordsOfAll([]);
    } else {
      var rest := s[n + 1..];
      assert s == s[..n] + [s[n]] + rest;
      WordsApart(s[..n], s[n], rest);
      WordsOfLines(rest);
      assert ([s[..n]] + Lines(rest))[1..] == Lines(rest);
    }
  }

  lemma WordAlone(w: string)
    requires IsWord(w)
    ensures Words(w) == [w]
  {
    RunOf(w, [], true);
    assert w + [] == w;
    assert w[|w|..] == [] && w[..|w|] == w;
  }

  /** Joined words split back into the same words. */
  lemma {:induction false} WordsOfJoin(ws: seq<string>)
    requires AreWords(ws)
    ensures Words(Join(ws)) == ws
    decreases |ws|
  {
    if |ws| == 1 {
      WordAlone(ws[0]);
    } else if |ws| > 1 {
      var n := |ws| - 1;
      WordsOfJoin(ws[..n]);
      WordAlone(ws[n]);
      WordsApart(Join(ws[..n]), ' ', ws[n]);
      assert ws == ws[..n] + [ws[n]];
    }
  }

  lemma JoinEmpty(ws: seq<string>)
    requires AreWords(ws)
    ensures Join(ws) == [] <==> ws == []
  {
    WordsOfJoin(ws);
  }

  /** Joined words are one line. */
  lemma JoinIsOneLine(ws: seq<string>)
    requires AreWords(ws)
    ensures Lines(Join(ws)) == [Join(ws)]
  {
    NoNewline(ws);
    RunOf(Join(ws), [], false);
    assert Join(ws) + [] == Join(ws);
  }

  lemma {:induction false} NoNewline(ws: seq<string>)
    requires AreWords(ws)
    ensures '\n' !in Join(ws)
    decreases |ws|
  {
    if |ws| == 1 {
      assert IsWord(ws[0]);
    } else if |ws| > 1 {
      NoNewline(ws[..|ws| - 1]);
      assert IsWord(ws[|ws| - 1]);
    }
  }
}
