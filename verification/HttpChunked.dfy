/** HTTP response bodies over the byte stream; the chunked coding is section 7.1 of RFC 9112. */
module HttpChunked {
  import opened Options
  import opened Bytes
  import opened Machine
  import opened ByteStream
  import opened Sequences

  const CRLF: seq<Byte> := [13, 10]
  const SEMICOLON: Byte := 59
  const PLUS: Byte := 43

  // ---------------------------------------------------------------- the size line

  predicate Blank(b: Byte) { 9 <= b <= 13 || b == 32 }

  predicate AllBlank(s: seq<Byte>) { forall i | 0 <= i < |s| :: Blank(s[i]) }

  function TrimStart(s: seq<Byte>): seq<Byte> {
    if s != [] && Blank(s[0]) then TrimStart(s[1..]) else s
  }

  function TrimEnd(s: seq<Byte>): seq<Byte> {
    if s != [] && Blank(s[|s| - 1]) then TrimEnd(s[..|s| - 1]) else s
  }

  function Trim(s: seq<Byte>): seq<Byte> { TrimEnd(TrimStart(s)) }

  /** Everything before the first semicolon. */
  function BeforeExt(s: seq<Byte>): seq<Byte> {
    if s == [] || s[0] == SEMICOLON then [] else [s[0]] + BeforeExt(s[1..])
  }

  function DigitValue(b: Byte): Option<nat> {
    if 48 <= b <= 57 then Some(b - 48)
    else if 97 <= b <= 102 then Some(b - 87)
    else if 65 <= b <= 70 then Some(b - 55)
    else None
  }

  /** Hexadecimal digits added up; a number that does not fit is an error. */
  function Digits(acc: nat, s: seq<Byte>): Option<nat>
    decreases |s|
  {
    if s == [] then Some(acc)
    else
      var d := DigitValue(s[0]);
      if d.None? || acc * 16 + d.value >= USIZE_WRAP then None else Digits(acc * 16 + d.value, s[1..])
  }

  function ParseHex(s: seq<Byte>): Option<nat> {
    var digits := if s != [] && s[0] == PLUS then s[1..] else s;
    if digits == [] then None else Digits(0, digits)
  }

  function ChunkSize(line: seq<Byte>): Option<nat> { ParseHex(Trim(BeforeExt(Trim(line)))) }

  // ---------------------------------------------------------------- the body

  datatype BodyError = Transport(fault: Fault) | BadSize

  datatype Body = Body(value: Result<seq<Byte>, BodyError>, rest: seq<Byte>)

  function ParseChunked(s: seq<Byte>, body: seq<Byte>, ending: Ending): Body
    decreases |s|
  {
    var line := Until(s, CRLF, ending);
    if line.value.Err? then Body(Err(Transport(line.value.error)), line.rest) else
    var size := ChunkSize(line.value.value);
    if size.None? then Body(Err(BadSize), line.rest) else
    if size.value == 0 then Body(Ok(body), Until(line.rest, CRLF, ending).rest) else
    var chunk := Exactly(line.rest, size.value, ending);
    if chunk.value.Err? then Body(Err(Transport(chunk.value.error)), chunk.rest) else
    var end := Exactly(chunk.rest, 2, ending);
    if end.value.Err? then Body(Err(Transport(end.value.error)), end.rest) else
    ParseChunked(end.rest, body + chunk.value.value, ending)
  }

  // ---------------------------------------------------------------- a sender

  function HexChar(d: nat, upper: bool): Byte
    requires d < 16
  {
    if d < 10 then 48 + d else if upper then 55 + d else 87 + d
  }

  function Hex(n: nat, upper: bool): (r: seq<Byte>)
    ensures HexOnly(r)
  {
    if n < 16 then [HexChar(n, upper)] else Hex(n / 16, upper) + [HexChar(n % 16, upper)]
  }

  /** An extension: nothing, or blanks and a semicolon and anything that does not end the line. */
  predicate ExtOk(ext: seq<Byte>) { Find(ext, CRLF).None? && (TrimStart(ext) == [] || TrimStart(ext)[0] == SEMICOLON) }

  datatype Chunk = Chunk(data: seq<Byte>, ext: seq<Byte>, upper: bool)

  predicate ChunkOk(c: Chunk) { 0 < |c.data| < USIZE_WRAP && ExtOk(c.ext) }

  function SizeLine(n: nat, ext: seq<Byte>, upper: bool): seq<Byte> { Hex(n, upper) + ext + CRLF }

  function EncodeChunks(cs: seq<Chunk>): seq<Byte> {
    if cs == [] then [] else SizeLine(|cs[0].data|, cs[0].ext, cs[0].upper) + cs[0].data + CRLF + EncodeChunks(cs[1..])
  }

  function Data(cs: seq<Chunk>): seq<Byte> { if cs == [] then [] else cs[0].data + Data(cs[1..]) }

  // ---------------------------------------------------------------- sizes read back

  lemma {:induction false} DigitsSnoc(acc: nat, s: seq<Byte>, b: Byte)
    ensures Digits(acc, s + [b]) ==
      var v := Digits(acc, s);
      if v.None? || DigitValue(b).None? || v.value * 16 + DigitValue(b).value >= USIZE_WRAP then None
      else Some(v.value * 16 + DigitValue(b).value)
    decreases |s|
  {
    if s == [] {
      assert [b][1..] == [] && s + [b] == [b];
    } else {
      assert (s + [b])[1..] == s[1..] + [b];
      var d := DigitValue(s[0]);
      if d.Some? && acc * 16 + d.value < USIZE_WRAP {
        DigitsSnoc(acc * 16 + d.value, s[1..], b);
      }
    }
  }

  /** Parsing undoes printing, in either case. */
  lemma {:induction false} HexBack(n: nat, upper: bool)
    requires n < USIZE_WRAP
    ensures Digits(0, Hex(n, upper)) == Some(n)
    decreases n
  {
    if n < 16 {
      assert [HexChar(n, upper)][1..] == [];
    } else {
      HexBack(n / 16, upper);
      DigitsSnoc(0, Hex(n / 16, upper), HexChar(n % 16, upper));
    }
  }

  lemma {:induction false} TrimEndBlank(a: seq<Byte>, b: seq<Byte>)
    requires AllBlank(b)
    ensures TrimEnd(a + b) == TrimEnd(a)
    decreases |b|
  {
    if b == [] {
      assert a + b == a;
    } else {
      var n := |b| - 1;
      assert (a + b)[..|a + b| - 1] == a + b[..n] && (a + b)[|a + b| - 1] == b[n];
      TrimEndBlank(a, b[..n]);
    }
  }

  lemma {:induction false} TrimEndKeeps(a: seq<Byte>, c: Byte, b: seq<Byte>)
    requires !Blank(c)
    ensures exists b' :: TrimEnd(a + [c] + b) == a + [c] + b'
    decreases |b|
  {
    var s := a + [c] + b;
    if b != [] && Blank(b[|b| - 1]) {
      assert s[..|s| - 1] == a + [c] + b[..|b| - 1];
      TrimEndKeeps(a, c, b[..|b| - 1]);
    } else {
      assert TrimEnd(s) == a + [c] + b;
    }
  }

  lemma {:induction false} BeforeExtAt(a: seq<Byte>, b: seq<Byte>)
    requires SEMICOLON !in a && (b == [] || b[0] == SEMICOLON)
    ensures BeforeExt(a + b) == a
    decreases |a|
  {
    if a == [] {
      assert a + b == b;
    } else {
      assert (a + b)[1..] == a[1..] + b;
      BeforeExtAt(a[1..], b);
    }
  }

  lemma {:induction false} TrimStartSplits(s: seq<Byte>) returns (pad: seq<Byte>)
    ensures s == pad + TrimStart(s) && AllBlank(pad)
    decreases |s|
  {
    if s != [] && Blank(s[0]) {
      pad := TrimStartSplits(s[1..]);
      pad := [s[0]] + pad;
      assert s == [s[0]] + s[1..];
    } else {
      pad := [];
    }
  }

  /** Digits followed by blanks trim to the digits. */
  lemma TrimDigits(hex: seq<Byte>, pad: seq<Byte>)
    requires HexOnly(hex) && AllBlank(pad)
    ensures Trim(hex + pad) == hex && SEMICOLON !in hex + pad
  {
    TrimEndBlank(hex, pad);
    assert !Blank(hex[0]) && !Blank(hex[|hex| - 1]);
  }

  predicate HexOnly(hex: seq<Byte>) { hex != [] && forall i | 0 <= i < |hex| :: DigitValue(hex[i]).Some? }

  /** Digits and blanks, no semicolon behind. */
  lemma TrimPlain(hex: seq<Byte>, pad: seq<Byte>)
    requires HexOnly(hex) && AllBlank(pad)
    ensures Trim(BeforeExt(TrimEnd(hex + pad))) == hex
  {
    TrimEndBlank(hex, pad);
    assert !Blank(hex[0]) && !Blank(hex[|hex| - 1]) && TrimEnd(hex) == hex;
    BeforeExtAt(hex, []);
    assert hex + [] == hex;
  }

  /** Digits and blanks, and a semicolon behind. */
  lemma TrimExtended(hex: seq<Byte>, pad: seq<Byte>, more: seq<Byte>)
    requires HexOnly(hex) && AllBlank(pad)
    ensures Trim(BeforeExt(TrimEnd((hex + pad) + [SEMICOLON] + more))) == hex
  {
    TrimEndKeeps(hex + pad, SEMICOLON, more);
    var b' :| TrimEnd((hex + pad) + [SEMICOLON] + more) == (hex + pad) + [SEMICOLON] + b';
    assert (hex + pad) + [SEMICOLON] + b' == (hex + pad) + ([SEMICOLON] + b');
    TrimDigits(hex, pad);
    BeforeExtAt(hex + pad, [SEMICOLON] + b');
  }

  lemma ParseHexBack(n: nat, upper: bool)
    requires n < USIZE_WRAP
    ensures ParseHex(Hex(n, upper)) == Some(n)
  {
    HexBack(n, upper);
    assert DigitValue(Hex(n, upper)[0]).Some?;
  }

  lemma SizeParts(a: seq<Byte>, b: seq<Byte>, c: seq<Byte>, d: seq<Byte>, e: seq<Byte>)
    ensures a + (b + (c + d)) + e == (a + b) + c + (d + e)
  {}

  lemma TrimSizeLine(hex: seq<Byte>, ext: seq<Byte>)
    requires HexOnly(hex) && ExtOk(ext)
    ensures Trim(BeforeExt(TrimEnd(hex + ext + CRLF))) == hex
  {
    var pad := TrimStartSplits(ext);
    var more := TrimStart(ext);
    if more == [] {
      assert ext == pad;
      Regroup(hex, pad, CRLF);
      TrimPlain(hex, pad + CRLF);
    } else {
      assert more == [SEMICOLON] + more[1..];
      SizeParts(hex, pad, [SEMICOLON], more[1..], CRLF);
      TrimExtended(hex, pad, more[1..] + CRLF);
    }
  }

  lemma SizeBack(n: nat, ext: seq<Byte>, upper: bool)
    requires n < USIZE_WRAP && ExtOk(ext)
    ensures ChunkSize(SizeLine(n, ext, upper)) == Some(n)
  {
    var hex, line := Hex(n, upper), SizeLine(n, ext, upper);
    ParseHexBack(n, upper);
    TrimSizeLine(hex, ext);
    assert line[0] == hex[0] && !Blank(hex[0]) && TrimStart(line) == line;
  }

  /** `1a` is twenty-six, in either case. */
  lemma SizeExample()
    ensures ChunkSize([49, 97] + CRLF) == Some(26) && ChunkSize([49, 65, 59, 120] + CRLF) == Some(26)
  {
    var none: seq<Byte> := [];
    assert TrimStart(none) == [] && TrimStart([59, 120]) == [59, 120];
    assert forall k: nat :: !At(none, CRLF, k) && !At([59, 120], CRLF, k);
    assert Hex(26, false) == [49, 97] && Hex(26, true) == [49, 65];
    SizeBack(26, none, false);
    SizeBack(26, [59, 120], true);
    assert [49, 97] + none + CRLF == [49, 97] + CRLF && [49, 65] + [59, 120] + CRLF == [49, 65, 59, 120] + CRLF;
  }

  /** A line without an end of line in it is read as far as the first one after it. */
  lemma LineEnds(a: seq<Byte>, tail: seq<Byte>, ending: Ending)
    requires Find(a, CRLF).None?
    ensures Until(a + CRLF + tail, CRLF, ending) == Outcome(Ok(a + CRLF), tail)
  {
    var s := a + CRLF + tail;
    assert At(s, CRLF, |a|);
    forall k: nat | k < |a| ensures !At(s, CRLF, k) {
      assert !At(a, CRLF, k);
      if k + 2 <= |a| {
        assert s[k..k + 2] == a[k..k + 2];
      } else {
        assert s[k..k + 2][1] == 13;
      }
    }
    assert s[..|a| + 2] == a + CRLF && s[|a| + 2..] == tail;
  }

  lemma SizeLineEnds(n: nat, ext: seq<Byte>, upper: bool, tail: seq<Byte>, ending: Ending)
    requires ExtOk(ext)
    ensures Until(SizeLine(n, ext, upper) + tail, CRLF, ending) == Outcome(Ok(SizeLine(n, ext, upper)), tail)
  {
    NoEndInSize(n, ext, upper);
    LineEnds(Hex(n, upper) + ext, tail, ending);
  }

  lemma NoEndInSize(n: nat, ext: seq<Byte>, upper: bool)
    requires ExtOk(ext)
    ensures Find(Hex(n, upper) + ext, CRLF).None?
  {
    var hex := Hex(n, upper);
    var a := hex + ext;
    forall k: nat ensures !At(a, CRLF, k) {
      if k < |hex| {
        if k + 2 <= |a| {
          assert DigitValue(hex[k]).Some? && a[k..k + 2][0] == hex[k];
        }
      } else {
        assert !At(ext, CRLF, k - |hex|);
        if k + 2 <= |a| {
          assert a[k..k + 2] == ext[k - |hex|..k - |hex| + 2];
        }
      }
    }
  }

  /** One chunk is read in four stages. */
  lemma ChunkRead(c: Chunk, after: seq<Byte>, body: seq<Byte>, ending: Ending)
    requires ChunkOk(c)
    ensures ParseChunked(SizeLine(|c.data|, c.ext, c.upper) + (c.data + (CRLF + after)), body, ending)
         == ParseChunked(after, body + c.data, ending)
  {
    SizeLineEnds(|c.data|, c.ext, c.upper, c.data + (CRLF + after), ending);
    SizeBack(|c.data|, c.ext, c.upper);
    TakeBack(c.data, CRLF + after, ending);
    TakeBack(CRLF, after, ending);
  }

  /**
   * A chunked body is read back exactly, whatever its chunks and extensions; the line after the last size line is
   * dropped, and what follows that line stays unread.
   */
  lemma {:induction false} ChunkedRoundTrip(cs: seq<Chunk>, ext: seq<Byte>, upper: bool, after: seq<Byte>,
                                            body: seq<Byte>, ending: Ending)
    requires (forall i | 0 <= i < |cs| :: ChunkOk(cs[i])) && ExtOk(ext)
    ensures ParseChunked(EncodeChunks(cs) + (SizeLine(0, ext, upper) + after), body, ending)
         == Body(Ok(body + Data(cs)), Until(after, CRLF, ending).rest)
    decreases |cs|
  {
    var last := SizeLine(0, ext, upper) + after;
    if cs == [] {
      SizeLineEnds(0, ext, upper, after, ending);
      SizeBack(0, ext, upper);
      assert EncodeChunks(cs) + last == last && body + Data(cs) == body;
    } else {
      var c, rest := cs[0], EncodeChunks(cs[1..]);
      RegroupFive(SizeLine(|c.data|, c.ext, c.upper), c.data, CRLF, rest, last);
      ChunkRead(c, rest + last, body, ending);
      ChunkedRoundTrip(cs[1..], ext, upper, after, body + c.data, ending);
      Regroup(body, c.data, Data(cs[1..]));
    }
  }

  /** With no trailers, nothing of the body is left, and nothing after it is touched. */
  lemma BodyRoundTrip(cs: seq<Chunk>, ext: seq<Byte>, upper: bool, tail: seq<Byte>, ending: Ending)
    requires (forall i | 0 <= i < |cs| :: ChunkOk(cs[i])) && ExtOk(ext)
    ensures ParseChunked(EncodeChunks(cs) + (SizeLine(0, ext, upper) + (CRLF + tail)), [], ending) ==
            Body(Ok(Data(cs)), tail)
  {
    ChunkedRoundTrip(cs, ext, upper, CRLF + tail, [], ending);
    var none: seq<Byte> := [];
    LineEnds(none, tail, ending);
    assert none + CRLF + tail == CRLF + tail && none + Data(cs) == Data(cs);
  }

  function EncodeTrailers(trailers: seq<seq<Byte>>): seq<Byte> {
    if trailers == [] then [] else trailers[0] + CRLF + EncodeTrailers(trailers[1..])
  }

  /**
   * Between the last size line and the blank line that ends a body there may be trailers. What follows the body is
   * what is read next if and only if there are none: the first is taken for the blank line, the others stay unread.
   */
  lemma TrailersStayIff(cs: seq<Chunk>, ext: seq<Byte>, upper: bool, trailers: seq<seq<Byte>>, tail: seq<Byte>,
                        ending: Ending)
    requires (forall i | 0 <= i < |cs| :: ChunkOk(cs[i])) && ExtOk(ext)
    requires forall i | 0 <= i < |trailers| :: Find(trailers[i], CRLF).None?
    ensures var body := EncodeChunks(cs) + (SizeLine(0, ext, upper) + (EncodeTrailers(trailers) + (CRLF + tail)));
      var b := ParseChunked(body, [], ending);
      && b.value == Ok(Data(cs))
      && (b.rest == tail <==> |trailers| == 0)
      && (trailers != [] ==> b.rest == EncodeTrailers(trailers[1..]) + (CRLF + tail))
  {
    var end := CRLF + tail;
    var none: seq<Byte> := [];
    ChunkedRoundTrip(cs, ext, upper, EncodeTrailers(trailers) + end, [], ending);
    assert none + Data(cs) == Data(cs);
    if trailers == [] {
      LineEnds(none, tail, ending);
      assert none + CRLF + tail == EncodeTrailers(trailers) + end;
    } else {
      var rest := EncodeTrailers(trailers[1..]) + end;
      LineEnds(trailers[0], rest, ending);
      Regroup(trailers[0] + CRLF, EncodeTrailers(trailers[1..]), end);
      assert |rest| > |tail|;
    }
  }

  /** An empty body with one trailer: the blank line that ends it is still there afterwards. */
  lemma OneTrailerStays(ending: Ending)
    ensures ParseChunked([48] + CRLF + ([120, 58, 121] + CRLF) + CRLF, [], ending) == Body(Ok([]), CRLF)
  {
    var trailer: seq<Byte>, none: seq<Byte> := [120, 58, 121], [];
    assert trailer[0..2] == [120, 58] && trailer[1..3] == [58, 121];
    assert forall k: nat :: !At(trailer, CRLF, k);
    assert TrimStart(none) == [];
    assert Hex(0, false) == [48] && SizeLine(0, none, false) == [48] + CRLF;
    assert [trailer][1..] == [] && EncodeTrailers([trailer]) == trailer + CRLF + none == trailer + CRLF;
    TrailersStayIff([], none, false, [trailer], none, ending);
    assert none + ([48] + CRLF + (trailer + CRLF + (CRLF + none))) == [48] + CRLF + (trailer + CRLF) + CRLF;
    assert none + (CRLF + none) == CRLF;
  }

  // ---------------------------------------------------------------- bodies that are not whole

  /** A line that is cut off is not read at all. */
  lemma LineCut(a: seq<Byte>, c: nat, ending: Ending)
    requires Find(a, CRLF).None? && c < |a| + 2
    ensures Until((a + CRLF)[..c], CRLF, ending) == Outcome(Err(Failure(ending)), (a + CRLF)[..c])
  {
    var s := (a + CRLF)[..c];
    forall k: nat ensures !At(s, CRLF, k) {
      assert !At(a, CRLF, k);
      if k + 2 <= |s| {
        assert s[k..k + 2][1] == (a + CRLF)[k + 1];
        if k + 2 <= |a| {
          assert s[k..k + 2] == a[k..k + 2];
        }
      }
    }
  }

  lemma SizeLineCut(n: nat, ext: seq<Byte>, upper: bool, c: nat, ending: Ending)
    requires ExtOk(ext) && c < |SizeLine(n, ext, upper)|
    ensures Until(SizeLine(n, ext, upper)[..c], CRLF, ending).value == Err(Failure(ending))
  {
    NoEndInSize(n, ext, upper);
    LineCut(Hex(n, upper) + ext, c, ending);
  }

  /** A chunk of which `c` bytes are there is an error, at whichever stage it stops. */
  lemma ChunkCut(c: Chunk, n: nat, body: seq<Byte>, ending: Ending)
    requires ChunkOk(c) && n < |SizeLine(|c.data|, c.ext, c.upper)| + |c.data| + 2
    ensures ParseChunked((SizeLine(|c.data|, c.ext, c.upper) + (c.data + CRLF))[..n], body, ending).value
         == Err(Transport(Failure(ending)))
  {
    var line := SizeLine(|c.data|, c.ext, c.upper);
    var s := (line + (c.data + CRLF))[..n];
    if n < |line| {
      assert s == line[..n];
      SizeLineCut(|c.data|, c.ext, c.upper, n, ending);
    } else {
      var rest := (c.data + CRLF)[..n - |line|];
      assert s == line + rest;
      SizeLineEnds(|c.data|, c.ext, c.upper, rest, ending);
      SizeBack(|c.data|, c.ext, c.upper);
      if |rest| >= |c.data| {
        var end := CRLF[..|rest| - |c.data|];
        assert rest == c.data + end;
        TakeBack(c.data, end, ending);
      }
    }
  }

  /**
   * A body that ends, or whose transport fails, anywhere before the last size line is complete is an error and never
   * the bytes so far; from there on, its data is there whatever is missing.
   */
  lemma {:induction false} CutOffIff(cs: seq<Chunk>, ext: seq<Byte>, upper: bool, n: nat, body: seq<Byte>,
                                     ending: Ending)
    requires (forall i | 0 <= i < |cs| :: ChunkOk(cs[i])) && ExtOk(ext)
    requires n <= |EncodeChunks(cs) + (SizeLine(0, ext, upper) + CRLF)|
    ensures ParseChunked((EncodeChunks(cs) + (SizeLine(0, ext, upper) + CRLF))[..n], body, ending).value ==
            if n < |EncodeChunks(cs)| + |SizeLine(0, ext, upper)| then Err(Transport(Failure(ending)))
            else Ok(body + Data(cs))
    decreases |cs|
  {
    var last := SizeLine(0, ext, upper);
    if n >= |EncodeChunks(cs)| + |last| {
      var after := CRLF[..n - |EncodeChunks(cs)| - |last|];
      assert (EncodeChunks(cs) + (last + CRLF))[..n] == EncodeChunks(cs) + (last + after);
      ChunkedRoundTrip(cs, ext, upper, after, body, ending);
    } else if cs == [] {
      assert (EncodeChunks(cs) + (last + CRLF))[..n] == last[..n];
      SizeLineCut(0, ext, upper, n, ending);
    } else {
      FirstCut(cs, ext, upper, n, body, ending);
    }
  }

  lemma Parts(line: seq<Byte>, data: seq<Byte>, rest: seq<Byte>, last: seq<Byte>)
    ensures line + data + CRLF + rest + last == (line + (data + CRLF)) + (rest + last)
  {}

  lemma CutJoined(a: seq<Byte>, b: seq<Byte>, n: nat)
    requires n <= |a| + |b|
    ensures (a + b)[..n] == if n < |a| then a[..n] else a + b[..n - |a|]
  {}

  lemma {:induction false} FirstCut(cs: seq<Chunk>, ext: seq<Byte>, upper: bool, n: nat, body: seq<Byte>,
                                    ending: Ending)
    requires cs != [] && (forall i | 0 <= i < |cs| :: ChunkOk(cs[i])) && ExtOk(ext)
    requires n < |EncodeChunks(cs)| + |SizeLine(0, ext, upper)|
    ensures ParseChunked((EncodeChunks(cs) + (SizeLine(0, ext, upper) + CRLF))[..n], body, ending).value ==
            Err(Transport(Failure(ending)))
    decreases |cs|, 0
  {
    var c, more := cs[0], EncodeChunks(cs[1..]) + (SizeLine(0, ext, upper) + CRLF);
    var line := SizeLine(|c.data|, c.ext, c.upper);
    var first := line + (c.data + CRLF);
    Parts(line, c.data, EncodeChunks(cs[1..]), SizeLine(0, ext, upper) + CRLF);
    CutJoined(first, more, n);
    if n < |first| {
      ChunkCut(c, n, body, ending);
    } else {
      Regroup(line, c.data + CRLF, more[..n - |first|]);
      Regroup(c.data, CRLF, more[..n - |first|]);
      ChunkRead(c, more[..n - |first|], body, ending);
      CutOffIff(cs[1..], ext, upper, n - |first|, body + c.data, ending);
    }
  }

  /** A size line that says no size is an error, whatever came before it; what follows the line is left. */
  lemma {:induction false} BadSizeIsError(cs: seq<Chunk>, bad: seq<Byte>, after: seq<Byte>, body: seq<Byte>,
                                          ending: Ending)
    requires (forall i | 0 <= i < |cs| :: ChunkOk(cs[i])) && Find(bad, CRLF).None? && ChunkSize(bad + CRLF).None?
    ensures ParseChunked(EncodeChunks(cs) + (bad + CRLF + after), body, ending) == Body(Err(BadSize), after)
    decreases |cs|
  {
    var last := bad + CRLF + after;
    if cs == [] {
      assert EncodeChunks(cs) + last == last;
      LineEnds(bad, after, ending);
    } else {
      var c, rest := cs[0], EncodeChunks(cs[1..]);
      RegroupFive(SizeLine(|c.data|, c.ext, c.upper), c.data, CRLF, rest, last);
      ChunkRead(c, rest + last, body, ending);
      BadSizeIsError(cs[1..], bad, after, body + c.data, ending);
    }
  }

  lemma {:induction false} TooManyDigits(n: nat, upper: bool)
    requires n >= USIZE_WRAP
    ensures Digits(0, Hex(n, upper)) == None
    decreases n
  {
    DigitsSnoc(0, Hex(n / 16, upper), HexChar(n % 16, upper));
    if n / 16 >= USIZE_WRAP {
      TooManyDigits(n / 16, upper);
    } else {
      HexBack(n / 16, upper);
    }
  }

  /** A size that does not fit a `usize`, or a line that begins with no digit, says no size. */
  lemma SaysNoSize(n: nat, ext: seq<Byte>, upper: bool, c: Byte, more: seq<Byte>)
    requires ExtOk(ext)
    ensures n >= USIZE_WRAP ==> ChunkSize(SizeLine(n, ext, upper)) == None
    ensures !Blank(c) && DigitValue(c).None? && c != PLUS ==> ChunkSize([c] + more) == None
  {
    if n >= USIZE_WRAP {
      var hex, line := Hex(n, upper), SizeLine(n, ext, upper);
      TooManyDigits(n, upper);
      TrimSizeLine(hex, ext);
      assert DigitValue(hex[0]).Some?;
      assert line[0] == hex[0] && !Blank(hex[0]) && TrimStart(line) == line;
    }
    if !Blank(c) && DigitValue(c).None? && c != PLUS {
      NoDigitFirst(c, more);
    }
  }

  lemma NoDigitFirst(c: Byte, more: seq<Byte>)
    requires !Blank(c) && DigitValue(c).None? && c != PLUS
    ensures ChunkSize([c] + more) == None
  {
    var line := [c] + more;
    var none: seq<Byte> := [];
    assert TrimStart(line) == line && none + [c] + more == line;
    TrimEndKeeps(none, c, more);
    var b' :| TrimEnd(none + [c] + more) == none + [c] + b';
    var kept := none + [c] + b';
    if c == SEMICOLON {
      assert BeforeExt(kept) == [];
    } else {
      var part := BeforeExt(kept);
      assert part[0] == c && TrimStart(part) == part;
      assert none + [c] + part[1..] == part;
      TrimEndKeeps(none, c, part[1..]);
      var d' :| TrimEnd(none + [c] + part[1..]) == none + [c] + d';
      assert (none + [c] + d')[0] == c;
    }
  }

  // ---------------------------------------------------------------- over a stream

  method ReadChunked(stream: TlsStream) returns (r: Result<seq<Byte>, BodyError>)
    requires stream.Valid()
    modifies stream
    ensures stream.Valid() && Body(r, stream.Rest()) == ParseChunked(old(stream.Rest()), [], stream.ending)
  {
    var body: seq<Byte> := [];
    while true
      invariant stream.Valid()
      invariant ParseChunked(stream.Rest(), body, stream.ending) == ParseChunked(old(stream.Rest()), [], stream.ending)
      decreases |stream.Rest()|
    {
      var line := stream.ReadUntil(CRLF);
      if line.Err? {
        return Err(Transport(line.error));
      }
      var size := ChunkSize(line.value);
      if size.None? {
        return Err(BadSize);
      }
      if size.value == 0 {
        var ignored := stream.ReadUntil(CRLF);
        return Ok(body);
      }
      var chunk := stream.ReadExact(size.value);
      if chunk.Err? {
        return Err(Transport(chunk.error));
      }
      var end := stream.ReadExact(2);
      if end.Err? {
        return Err(Transport(end.error));
      }
      body := body + chunk.value;
    }
  }

  /** What the headers say about where the body ends. */
  datatype Framing = Chunked | Length(n: nat) | UntilClose

  method ReadBody(stream: TlsStream, framing: Framing) returns (r: Result<seq<Byte>, BodyError>)
    requires stream.Valid()
    modifies stream
    ensures stream.Valid()
    ensures framing.Chunked? ==> Body(r, stream.Rest()) == ParseChunked(old(stream.Rest()), [], stream.ending)
    ensures framing.Length? && framing.n <= |old(stream.Rest())| ==>
      r == Ok(old(stream.Rest())[..framing.n]) && stream.Rest() == old(stream.Rest())[framing.n..]
    ensures framing.Length? && framing.n > |old(stream.Rest())| ==> r.Err? && stream.Rest() == old(stream.Rest())
    ensures framing.UntilClose? ==> r == if stream.ending.Closed? then Ok(old(stream.Rest()))
            else Err(Transport(ReadFailed))
  {
    match framing {
      case Chunked => r := ReadChunked(stream);
      case Length(n) =>
        var bytes := stream.ReadExact(n);
        r := if bytes.Err? then Err(Transport(bytes.error)) else Ok(bytes.value);
      case UntilClose =>
        var bytes := stream.ReadToEnd();
        r := if bytes.Err? then Err(Transport(bytes.error)) else Ok(bytes.value);
    }
  }
}
