/** The rolling window of a file that a streaming demuxer reads from. */
module Rolling {
  import opened Options
  import opened Bytes

  datatype Window = Window(base: nat, data: seq<Byte>) {
    function End(): nat { base + |data| }

    predicate Has(offset: nat, len: nat) { base <= offset && offset + len <= End() }

    function Slice(offset: nat, len: nat): (r: Option<seq<Byte>>)
      ensures r.Some? <==> Has(offset, len)
      ensures r.Some? ==> |r.value| == len
    {
      if Has(offset, len) then Some(data[offset - base..offset - base + len]) else None
    }

    function Append(at: nat, bytes: seq<Byte>): Window {
      if data == [] || at != End() then Window(at, bytes) else Window(base, data + bytes)
    }

    function DropBefore(offset: nat): Window {
      if offset <= base then this
      else
        var drop := if offset - base < |data| then offset - base else |data|;
        Window(base + drop, data[drop..])
    }
  }

  /** The window shows the file. */
  ghost predicate Shows(file: seq<Byte>, w: Window) {
    w.data == [] || (w.End() <= |file| && w.data == file[w.base..w.End()])
  }

  lemma AppendShows(file: seq<Byte>, w: Window, at: nat, bytes: seq<Byte>)
    requires Shows(file, w) && at + |bytes| <= |file| && bytes == file[at..at + |bytes|]
    ensures Shows(file, w.Append(at, bytes))
  {
    if w.data != [] && at == w.End() {
      var r := w.Append(at, bytes);
      assert r == Window(w.base, w.data + bytes) && r.End() == at + |bytes|;
      assert file[w.base..w.End()] + file[at..at + |bytes|] == file[w.base..at + |bytes|];
    }
  }

  lemma DropShows(file: seq<Byte>, w: Window, offset: nat)
    requires Shows(file, w)
    ensures Shows(file, w.DropBefore(offset))
  {
    var r := w.DropBefore(offset);
    if r.data != [] {
      var drop := r.base - w.base;
      assert r == Window(w.base + drop, w.data[drop..]) && r.End() == w.End();
      assert file[w.base..w.End()][drop..] == file[r.base..w.End()];
    }
  }

  /** What was appended is there; where it continues the window, so is all that was there before. */
  lemma AppendHolds(w: Window, at: nat, bytes: seq<Byte>, offset: nat, len: nat)
    ensures w.Append(at, bytes).Slice(at, |bytes|) == Some(bytes)
    ensures w.data != [] && at == w.End() && w.Has(offset, len) ==>
              w.Append(at, bytes).Slice(offset, len) == w.Slice(offset, len)
  {
    var r := w.Append(at, bytes);
    assert r.data[at - r.base..at - r.base + |bytes|] == bytes;
    if w.data != [] && at == w.End() && w.Has(offset, len) {
      var o := offset - w.base;
      assert (w.data + bytes)[o..o + len] == w.data[o..o + len];
    }
  }

  /** Dropping keeps everything from the offset on, and nothing before it. */
  lemma DropKeeps(w: Window, cut: nat, offset: nat, len: nat)
    requires cut <= offset
    ensures w.Has(offset, len) ==> w.DropBefore(cut).Slice(offset, len) == w.Slice(offset, len)
    ensures w.DropBefore(cut).base >= cut || w.DropBefore(cut).data == []
    ensures w.DropBefore(cut).End() == w.End()
  {
    if w.Has(offset, len) && cut > w.base {
      var drop := cut - w.base;
      assert w.data[drop..][offset - cut..offset - cut + len] == w.data[offset - w.base..offset - w.base + len];
    }
  }

  /** What a non-empty window shows, the whole file shows too. */
  lemma SliceOfFile(file: seq<Byte>, w: Window, offset: nat, len: nat)
    requires Shows(file, w) && w.data != [] && w.Has(offset, len)
    ensures Window(0, file).Slice(offset, len) == w.Slice(offset, len)
  {
    var o := offset - w.base;
    assert file[w.base..w.End()][o..o + len] == file[offset..offset + len];
  }

  class RollingBuffer {
    var base: nat
    var data: seq<Byte>

    function View(): Window
      reads this
    {
      Window(base, data)
    }

    constructor ()
      ensures View() == Window(0, [])
    {
      base, data := 0, [];
    }

    /** Append bytes fetched at the current end; anything else starts a new region. */
    method Append(at: nat, bytes: seq<Byte>)
      modifies this
      ensures View() == old(View()).Append(at, bytes)
    {
      if data == [] {
        base := at;
        data := data + bytes;
      } else if at == base + |data| {
        data := data + bytes;
      } else {
        base := at;
        data := [];
        data := data + bytes;
      }
    }

    method DropBefore(offset: nat)
      modifies this
      ensures View() == old(View()).DropBefore(offset)
    {
      if offset <= base {
        return;
      }
      var drop := if offset - base < |data| then offset - base else |data|;
      data := data[drop..];
      base := base + drop;
    }

    method ResetTo(offset: nat)
      modifies this
      ensures View() == Window(offset, [])
    {
      base := offset;
      data := [];
    }
  }
}
