/**
 * A byte stream with a read-pushback buffer: what a read returns depends on the bytes still to come, never on how
 * the transport cuts them into chunks.
 */
module ByteStream {
  import opened Options
  import opened Bytes
  import opened Sequences

  /** What the transport does after its last chunk. */
  datatype Ending = Closed | Failed

  datatype Fault = ClosedEarly | ReadFailed

  function Concat(chunks: seq<seq<Byte>>): seq<Byte> {
    if chunks == [] then [] else chunks[0] + Concat(chunks[1..])
  }

  lemma {:induction false} ConcatMore(chunks: seq<seq<Byte>>, chunk: seq<Byte>)
    ensures Concat(chunks + [chunk]) == Concat(chunks) + chunk
  {
    if chunks != [] {
      assert (chunks + [chunk])[1..] == chunks[1..] + [chunk];
      ConcatMore(chunks[1..], chunk);
      Regroup(chunks[0], Concat(chunks[1..]), chunk);
    } else {
      assert ([chunk])[1..] == [] && Concat([chunk]) == chunk + [];
    }
  }

  // ---------------------------------------------------------------- the first occurrence

  predicate At(hay: seq<Byte>, needle: seq<Byte>, i: nat) { i + |needle| <= |hay| && hay[i..i + |needle|] == needle }

  function FindFrom(hay: seq<Byte>, needle: seq<Byte>, i: nat): (r: Option<nat>)
    ensures r.Some? ==> i <= r.value && At(hay, needle, r.value) && forall k: nat | i <= k < r.value ::
            !At(hay, needle, k)
    ensures r.None? ==> forall k: nat | i <= k :: !At(hay, needle, k)
    decreases |hay| - i
  {
    if i + |needle| > |hay| then None
    else if At(hay, needle, i) then Some(i)
    else FindFrom(hay, needle, i + 1)
  }

  /** The first place of a non-empty needle. */
  function Find(hay: seq<Byte>, needle: seq<Byte>): Option<nat> {
    if needle == [] then None else FindFrom(hay, needle, 0)
  }

  /** A needle found in what has arrived is the first of all that will arrive. */
  lemma FindPrefix(hay: seq<Byte>, more: seq<Byte>, needle: seq<Byte>)
    requires Find(hay, needle).Some?
    ensures Find(hay + more, needle) == Find(hay, needle)
  {
    var p := Find(hay, needle).value;
    assert (hay + more)[p..p + |needle|] == hay[p..p + |needle|];
    assert At(hay + more, needle, p);
    forall k: nat | k < p ensures !At(hay + more, needle, k) {
      assert !At(hay, needle, k);
      assert (hay + more)[k..k + |needle|] == hay[k..k + |needle|];
    }
  }

  // ---------------------------------------------------------------- what reads mean

  /** A read's outcome: what it returns, and what is left to read after it. */
  datatype Outcome<T> = Outcome(value: Result<T, Fault>, rest: seq<Byte>)

  function Failure(ending: Ending): Fault { if ending.Closed? then ClosedEarly else ReadFailed }

  /** Exactly `n` bytes, or a failure that loses nothing. */
  function Exactly(s: seq<Byte>, n: nat, ending: Ending): Outcome<seq<Byte>> {
    if n <= |s| then Outcome(Ok(s[..n]), s[n..]) else Outcome(Err(Failure(ending)), s)
  }

  lemma TakeBack(a: seq<Byte>, s: seq<Byte>, ending: Ending)
    ensures Exactly(a + s, |a|, ending) == Outcome(Ok(a), s)
  {
    assert (a + s)[..|a|] == a && (a + s)[|a|..] == s;
  }

  /** Everything up to and including the first needle, or a failure that loses nothing. */
  function Until(s: seq<Byte>, needle: seq<Byte>, ending: Ending): Outcome<seq<Byte>> {
    var p := Find(s, needle);
    if p.Some? then Outcome(Ok(s[..p.value + |needle|]), s[p.value + |needle|..]) else Outcome(Err(Failure(ending)), s)
  }

  // ---------------------------------------------------------------- the stream

  class TlsStream {
    var buf: seq<Byte>
    var incoming: seq<seq<Byte>>
    const ending: Ending
    ghost var delivered: seq<Byte>
    ghost var returned: seq<Byte>

    /** Bytes returned plus bytes buffered are the bytes delivered. */
    ghost predicate Valid() reads this { returned + buf == delivered }

    /** All that reads can still return. */
    ghost function Rest(): seq<Byte> reads this { buf + Concat(incoming) }

    constructor (chunks: seq<seq<Byte>>, ending: Ending)
      ensures Valid() && Rest() == Concat(chunks) && this.ending == ending && returned == []
    {
      buf, incoming, delivered, returned := [], chunks, [], [];
      this.ending := ending;
    }

    /** One more chunk reaches the stream. */
    method Arrive(chunk: seq<Byte>)
      requires Valid()
      modifies this`incoming
      ensures Valid() && Rest() == old(Rest()) + chunk
    {
      ConcatMore(incoming, chunk);
      Regroup(buf, Concat(incoming), chunk);
      incoming := incoming + [chunk];
    }

    /** Waits for the next non-empty chunk. */
    method Fill() returns (r: Result<bool, Fault>)
      requires Valid()
      modifies this`buf, this`incoming, this`delivered
      ensures Valid() && Rest() == old(Rest())
      ensures r == Ok(true) ==> |incoming| < |old(incoming)| && old(buf) <= buf
      ensures r != Ok(true) ==> Rest() == buf == old(buf)
      ensures r.Ok? && !r.value ==> ending.Closed?
      ensures r.Err? ==> ending.Failed? && r == Err(ReadFailed)
    {
      while incoming != []
        invariant Valid() && Rest() == old(Rest()) && buf == old(buf) && |incoming| <= |old(incoming)|
        decreases |incoming|
      {
        var chunk := incoming[0];
        Regroup(buf, chunk, Concat(incoming[1..]));
        incoming := incoming[1..];
        if chunk != [] {
          Regroup(returned, buf, chunk);
          buf := buf + chunk;
          delivered := delivered + chunk;
          return Ok(true);
        }
        assert buf + [] == buf;
      }
      assert buf + [] == buf;
      r := if ending.Closed? then Ok(false) else Err(ReadFailed);
    }

    method TakeFromBuf(n: nat) returns (taken: seq<Byte>)
      requires Valid() && n <= |buf|
      modifies this`buf, this`returned
      ensures Valid() && taken == old(Rest())[..n] && Rest() == old(Rest())[n..] && returned == old(returned) + taken
      ensures taken == old(buf)[..n] && buf == old(buf)[n..]
    {
      assert buf == buf[..n] + buf[n..];
      taken := buf[..n];
      Regroup(returned, taken, buf[n..]);
      Regroup(taken, buf[n..], Concat(incoming));
      buf := buf[n..];
      returned := returned + taken;
    }

    method ReadExact(n: nat) returns (r: Result<seq<Byte>, Fault>)
      requires Valid()
      modifies this
      ensures Valid() && Outcome(r, Rest()) == Exactly(old(Rest()), n, ending)
      ensures returned == old(returned) + if r.Ok? then r.value else []
    {
      while |buf| < n
        invariant Valid() && Rest() == old(Rest()) && returned == old(returned)
        decreases |incoming|
      {
        var more := Fill();
        if more.Err? {
          return Err(more.error);
        }
        if !more.value {
          return Err(ClosedEarly);
        }
      }
      var taken := TakeFromBuf(n);
      r := Ok(taken);
    }

    method ReadUntil(needle: seq<Byte>) returns (r: Result<seq<Byte>, Fault>)
      requires Valid()
      modifies this
      ensures Valid() && Outcome(r, Rest()) == Until(old(Rest()), needle, ending)
      ensures returned == old(returned) + if r.Ok? then r.value else []
    {
      while true
        invariant Valid() && Rest() == old(Rest()) && returned == old(returned)
        decreases |incoming|
      {
        var found := Find(buf, needle);
        if found.Some? {
          FindPrefix(buf, Concat(incoming), needle);
          var taken := TakeFromBuf(found.value + |needle|);
          return Ok(taken);
        }
        var more := Fill();
        if more.Err? {
          return Err(more.error);
        }
        if !more.value {
          return Err(ClosedEarly);
        }
      }
    }

    /** Whatever is buffered. */
    method TakeBuffered() returns (taken: seq<Byte>)
      requires Valid()
      modifies this`buf, this`returned
      ensures Valid() && taken == old(buf) && buf == [] && Rest() == old(Rest())[|taken|..]
      ensures returned == old(returned) + taken
    {
      taken := TakeFromBuf(|buf|);
    }

    /** Everything up to the close; a failed transport keeps it buffered. */
    method ReadToEnd() returns (r: Result<seq<Byte>, Fault>)
      requires Valid()
      modifies this
      ensures Valid()
      ensures r == if ending.Closed? then Ok(old(Rest())) else Err(ReadFailed)
      ensures Rest() == if ending.Closed? then [] else old(Rest())
    {
      while true
        invariant Valid() && Rest() == old(Rest())
        decreases |incoming|
      {
        var more := Fill();
        if more.Err? {
          return Err(more.error);
        }
        if !more.value {
          var all := TakeBuffered();
          assert Rest() == [];
          return Ok(all);
        }
      }
    }
  }
}
