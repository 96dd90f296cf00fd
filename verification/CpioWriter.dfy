/** The archive writer: an output stream, written at its end, and a count of bytes. */
module CpioWriter {
  import opened Wire
  import opened Wrappers
  import opened Cpio

  function Copies(e: Entry, n: nat): seq<Record> {
    seq(n, _ => LinkOf(e))
  }

  lemma CopyAppended(b: Bytes, e: Entry, n: nat)
    ensures AppendAll(b, Copies(e, n + 1)) == Append(AppendAll(b, Copies(e, n)), LinkOf(e))
  {
    hide Append, LinkOf;
    assert Copies(e, n + 1)[..n] == Copies(e, n);
  }

  /** The header of a link fits whenever the entry's own does. */
  lemma LinkFits(e: Entry)
    ensures Encodable(e) ==> Fit(Fields(e, 0))
  {
    assert forall i :: 0 <= i < FIELD_COUNT ==> Fields(e, 0)[i] <= Fields(e, |e.content|)[i];
  }

  lemma RecordsAppended(b: Bytes, e: Entry)
    ensures AppendAll(b, RecordsOf(e)) == Append(AppendAll(b, Links(e)), RecordOf(e))
  {
    hide Append, RecordOf, Links;
    assert RecordsOf(e)[..|RecordsOf(e)| - 1] == Links(e);
  }

  lemma {:induction false} AppendAllSplit(b: Bytes, rs: seq<Record>, ts: seq<Record>)
    ensures AppendAll(b, rs + ts) == AppendAll(AppendAll(b, rs), ts)
  {
    hide Append;
    if ts == [] {
      assert rs + ts == rs;
    } else {
      AppendAllSplit(b, rs, ts[..|ts| - 1]);
      assert (rs + ts)[..|rs + ts| - 1] == rs + ts[..|ts| - 1];
    }
  }

  class CpioRamFs {
    var buffer: Bytes
    var written: nat
    var isOpen: bool

    constructor ()
      ensures buffer == [] && written == 0 && isOpen
    {
      buffer, written, isOpen := [], 0, true;
    }

    method AlignOnDword() returns (aligned: nat)
      modifies this`buffer
      ensures buffer == Align4(old(buffer)) && aligned == |buffer| - |old(buffer)|
    {
      aligned := 0;
      while |buffer| % 4 != 0
        invariant |old(buffer)| <= |buffer| <= Up4(|old(buffer)|) && aligned == |buffer| - |old(buffer)|
        invariant buffer == old(buffer) + Zeros(aligned)
        decreases Up4(|old(buffer)|) - |buffer|
      {
        aligned := aligned + 1;
        buffer := buffer + [0];
      }
    }

    /** Writes the entry's links and then the entry; fails when a header field needs more than 32
        bits.  The count returned is that of the last record. */
    method WriteEntry(e: Entry) returns (count: Option<nat>)
      modifies this`buffer
      ensures count.Some? <==> Encodable(e)
      ensures count.Some? ==>
                && buffer == AppendAll(old(buffer), RecordsOf(e))
                && count.value == |buffer| - |AppendAll(old(buffer), Links(e))|
    {
      hide Header, Align4, AppendAll, Fields, Fit;
      LinkFits(e);
      ghost var start := buffer;
      NothingAppended(start);
      if |e.content| > 0 && e.nlink > 1 {
        var header := Header(Fields(e, 0));
        FieldsCount(e, 0);
        HeaderLength(Fields(e, 0));
        if |header| != HEADER_SIZE { return None; }
        assert Copies(e, 0) == [];
        for i := 0 to e.nlink - 1
          invariant buffer == AppendAll(start, Copies(e, i))
        {
          ghost var before := buffer;
          CopyAppended(start, e, i);
          buffer := buffer + header;
          buffer := buffer + (e.name + [0]);
          assert buffer == before + header + e.name + [0];
          var _ := AlignOnDword();
          AlignTwice(before + header + e.name + [0]);
        }
        assert Copies(e, e.nlink - 1) == Links(e);
      }
      ghost var linked := buffer;
      assert linked == AppendAll(start, Links(e));
      RecordsAppended(start, e);
      var header := Header(Fields(e, |e.content|));
      FieldsCount(e, |e.content|);
      HeaderLength(Fields(e, |e.content|));
      if |header| != HEADER_SIZE { return None; }
      var n := 0;
      buffer := buffer + header;
      n := n + |header|;
      buffer := buffer + (e.name + [0]);
      n := n + |e.name| + 1;
      assert buffer == linked + header + e.name + [0];
      var pad := AlignOnDword();
      n := n + pad;
      var copied := CopyContent(e.content);
      n := n + copied;
      pad := AlignOnDword();
      n := n + pad;
      count := Some(n);
    }

    /** Copies the file in pieces of 64 KiB. */
    method CopyContent(content: Bytes) returns (n: nat)
      modifies this`buffer
      ensures buffer == old(buffer) + content && n == |content|
    {
      n := 0;
      var pos := 0;
      while true
        invariant pos <= |content| && n == pos
        invariant buffer == old(buffer) + content[..pos]
        decreases |content| - pos
      {
        var data := if |content| - pos < 0x10000 then content[pos..] else content[pos..pos + 0x10000];
        if |data| == 0 { break; }
        assert content[..pos] + data == content[..pos + |data|];
        buffer := buffer + data;
        n := n + |data|;
        pos := pos + |data|;
      }
      assert content[..pos] == content;
    }

    method Write(e: Entry) returns (ok: bool)
      requires isOpen
      modifies this`buffer, this`written
      ensures ok <==> Encodable(e)
      ensures ok ==>
                && buffer == AppendAll(old(buffer), RecordsOf(e))
                && written == old(written) + (|buffer| - |AppendAll(old(buffer), Links(e))|)
    {
      hide AppendAll, Encodable;
      var count := WriteEntry(e);
      ok := count.Some?;
      if ok { written := written + count.value; }
    }

    /** Closes the archive with the trailer and fills the last block. */
    method Exit()
      requires isOpen
      modifies this
      ensures !isOpen && buffer == Align512(AppendAll(old(buffer), RecordsOf(TRAILER)))
      ensures written == old(written) + (|buffer| - |AppendAll(old(buffer), RecordsOf(TRAILER))|)
    {
      hide AppendAll, RecordsOf, Encodable;
      TrailerWellFormed();
      var _ := WriteEntry(TRAILER);
      ghost var stream := buffer;
      ghost var n := 0;
      while |buffer| % 512 != 0
        invariant |stream| <= |buffer| <= Up512(|stream|) && n == |buffer| - |stream|
        invariant buffer == stream + Zeros(n) && written == old(written) + n
        decreases Up512(|stream|) - |buffer|
      {
        written := written + 1;
        buffer := buffer + [0];
        n := n + 1;
      }
      isOpen := false;
    }
  }

  lemma FieldsCount(e: Entry, filesize: nat)
    ensures |Fields(e, filesize)| == FIELD_COUNT
  {
  }

  lemma NothingAppended(b: Bytes)
    ensures AppendAll(b, []) == b
  {
  }

  lemma AlignTwice(b: Bytes)
    ensures Align4(Align4(b) + []) == Align4(b)
  {
    assert Align4(b) + [] == Align4(b);
  }

  /** Writing all entries and closing yields the archive, unless an entry does not fit. */
  method CreateArchive(es: seq<Entry>) returns (r: Option<Bytes>)
    ensures r.Some? <==> forall e :: e in es ==> Encodable(e)
    ensures r.Some? ==> r.value == Archive(es)
  {
    hide AppendAll, Encodable, RecordsOf, AllRecords, Align512;
    var cpio := new CpioRamFs();
    NothingAppended([]);
    NoRecords();
    for i := 0 to |es|
      invariant cpio.isOpen && fresh(cpio)
      invariant cpio.buffer == AppendAll([], AllRecords(es[..i]))
      invariant forall k :: 0 <= k < i ==> Encodable(es[k])
    {
      var ok := cpio.Write(es[i]);
      if !ok {
        assert es[i] in es;
        return None;
      }
      EntryAppended(es, i);
    }
    assert es[..|es|] == es;
    cpio.Exit();
    TrailerRecords();
    AppendAllSplit([], AllRecords(es), RecordsOf(TRAILER));
    r := Some(cpio.buffer);
  }

  lemma NoRecords()
    ensures AllRecords([]) == []
  {
  }

  lemma TrailerRecords()
    ensures RecordsOf(TRAILER) == [RecordOf(TRAILER)]
  {
  }

  lemma EntryAppended(es: seq<Entry>, i: nat)
    requires i < |es|
    ensures AppendAll([], AllRecords(es[..i + 1])) == AppendAll(AppendAll([], AllRecords(es[..i])), RecordsOf(es[i]))
  {
    hide AppendAll, RecordsOf;
    assert es[..i + 1][..i] == es[..i];
    AppendAllSplit([], AllRecords(es[..i]), RecordsOf(es[i]));
  }

  /** The count returned for an entry is what was appended exactly when it has no link records. */
  lemma CountExact(b: Bytes, e: Entry)
    ensures var all := AppendAll(b, RecordsOf(e));
            |all| - |AppendAll(b, Links(e))| == |all| - |b| <==> !Linked(e)
  {
    hide Append;
    if Linked(e) {
      var links := Links(e);
      var first, rest := links[0], links[1..];
      assert links == [first] + rest;
      AppendAllFront(b, first, rest);
      AppendGrows(b, first);
      AppendAllExtends(Append(b, first), rest);
    } else {
      NothingAppended(b);
    }
  }
}
