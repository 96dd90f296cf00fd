/** The "newc" cpio archive (the Linux kernel's initramfs buffer format): records of a 110-byte
    ASCII-hexadecimal header, a NUL-terminated name and file data, each part padded to 4 bytes, closed
    by a trailer record and padded to 512 bytes. */
module Cpio {
  import opened Wire
  import opened Wrappers

  const MAGIC: Bytes := [48, 55, 48, 55, 48, 49]  // "070701"
  const TRAILER_NAME: Bytes := [84, 82, 65, 73, 76, 69, 82, 33, 33, 33]  // "TRAILER!!!"
  const FIELD_COUNT := 13
  const FILESIZE := 6
  const NAMESIZE := 11
  const HEADER_SIZE := 110

  // ---- Hexadecimal ----

  function HexDigit(d: nat): byte
    requires d < 16
  {
    if d < 10 then 48 + d else 55 + d
  }

  function DigitValue(c: byte): Option<nat> {
    if 48 <= c < 58 then Some(c - 48)
    else if 65 <= c < 71 then Some(c - 55)
    else if 97 <= c < 103 then Some(c - 87)
    else None
  }

  /** Upper-case hexadecimal with at least `width` digits. */
  function Hex(n: nat, width: nat): (b: Bytes)
    ensures |b| >= width
    decreases n + width
  {
    if n == 0 && width == 0 then []
    else Hex(n / 16, if width > 0 then width - 1 else 0) + [HexDigit(n % 16)]
  }

  function Power16(width: nat): nat {
    if width == 0 then 1 else 16 * Power16(width - 1)
  }

  /** What a reader makes of a run of hexadecimal digits. */
  function ParseHex(b: Bytes): Option<nat> {
    if b == [] then Some(0)
    else
      match (ParseHex(b[..|b| - 1]), DigitValue(b[|b| - 1]))
      case (Some(high), Some(d)) => Some(16 * high + d)
      case _ => None
  }

  /** A number takes no more digits than asked for exactly when it fits. */
  lemma {:induction false} HexWidth(n: nat, width: nat)
    ensures |Hex(n, width)| == width <==> n < Power16(width)
    decreases n + width
  {
    if width > 0 {
      HexWidth(n / 16, width - 1);
    }
  }

  lemma ParseHexOne(b: Bytes, d: nat)
    requires d < 16 && ParseHex(b).Some?
    ensures ParseHex(b + [HexDigit(d)]) == Some(16 * ParseHex(b).value + d)
  {
    assert (b + [HexDigit(d)])[..|b|] == b;
    assert DigitValue(HexDigit(d)) == Some(d);
  }

  lemma {:induction false} HexRoundTrip(n: nat, width: nat)
    ensures ParseHex(Hex(n, width)) == Some(n)
    decreases n + width
  {
    if n != 0 || width != 0 {
      hide ParseHex;
      var rest := if width > 0 then width - 1 else 0;
      HexRoundTrip(n / 16, rest);
      ParseHexOne(Hex(n / 16, rest), n % 16);
    }
  }

  lemma PowerOf8()
    ensures Power16(8) == U32_LIMIT
  {
    assert Power16(4) == 16 * (16 * (16 * (16 * Power16(0))));
    assert Power16(8) == 16 * (16 * (16 * (16 * Power16(4))));
  }

  function HexAll(fields: seq<nat>): Bytes {
    if fields == [] then [] else HexAll(fields[..|fields| - 1]) + Hex(fields[|fields| - 1], 8)
  }

  ghost predicate Fit(fields: seq<nat>) {
    forall i :: 0 <= i < |fields| ==> fields[i] < U32_LIMIT
  }

  /** The header has its proper length exactly when every field is a 32-bit number. */
  lemma {:induction false} HexAllWidth(fields: seq<nat>)
    ensures |HexAll(fields)| >= 8 * |fields|
    ensures |HexAll(fields)| == 8 * |fields| <==> Fit(fields)
  {
    hide Hex;
    if fields != [] {
      HexAllWidth(fields[..|fields| - 1]);
      HexWidth(fields[|fields| - 1], 8);
      PowerOf8();
    }
  }

  function Header(fields: seq<nat>): Bytes {
    MAGIC + HexAll(fields)
  }

  lemma {:induction false} HexFieldAt(fields: seq<nat>, i: nat)
    requires Fit(fields) && i < |fields|
    ensures |HexAll(fields)| == 8 * |fields|
    ensures HexAll(fields)[8 * i..8 * i + 8] == Hex(fields[i], 8)
  {
    hide Hex;
    HexAllWidth(fields);
    var init, last := fields[..|fields| - 1], fields[|fields| - 1];
    HexAllWidth(init);
    if i < |init| {
      HexFieldAt(init, i);
      assert HexAll(fields)[8 * i..8 * i + 8] == HexAll(init)[8 * i..8 * i + 8];
    } else {
      assert HexAll(fields)[8 * i..] == Hex(last, 8);
      assert HexAll(fields)[8 * i..8 * i + 8] == HexAll(fields)[8 * i..];
    }
  }

  // ---- Records ----

  datatype Record = Record(fields: seq<nat>, name: Bytes, data: Bytes)

  function Up4(n: nat): nat {
    (n + 3) / 4 * 4
  }

  function Align4(b: Bytes): (r: Bytes)
    ensures |r| == Up4(|b|) && b <= r
  {
    b + Zeros(Up4(|b|) - |b|)
  }

  /** The stream after one more record. */
  function Append(b: Bytes, r: Record): Bytes {
    Align4(Align4(b + Header(r.fields) + r.name + [0]) + r.data)
  }

  function AppendAll(b: Bytes, rs: seq<Record>): Bytes {
    if rs == [] then b else Append(AppendAll(b, rs[..|rs| - 1]), rs[|rs| - 1])
  }

  /** The record states its own sizes in 32-bit fields. */
  ghost predicate WellFormed(r: Record) {
    |r.fields| == FIELD_COUNT && Fit(r.fields) && r.fields[FILESIZE] == |r.data| && r.fields[NAMESIZE] == |r.name| + 1
  }

  // ---- The reader ----

  function ReadField(b: Bytes, pos: nat, i: nat): Option<nat>
    requires i < FIELD_COUNT && pos + HEADER_SIZE <= |b|
  {
    ParseHex(b[pos + 6 + 8 * i..pos + 14 + 8 * i])
  }

  function ReadFields(b: Bytes, pos: nat, n: nat): Option<seq<nat>>
    requires n <= FIELD_COUNT && pos + HEADER_SIZE <= |b|
  {
    if n == 0 then Some([])
    else
      match (ReadFields(b, pos, n - 1), ReadField(b, pos, n - 1))
      case (Some(fs), Some(f)) => Some(fs + [f])
      case _ => None
  }

  datatype Step = Step(record: Record, next: nat)

  function ReadRecord(b: Bytes, pos: nat): (s: Option<Step>)
    ensures s.Some? ==> pos < s.value.next
  {
    if |b| < pos + HEADER_SIZE || b[pos..pos + 6] != MAGIC then None
    else
      match ReadFields(b, pos, FIELD_COUNT)
      case None => None
      case Some(fs) =>
        if |fs| != FIELD_COUNT then None
        else
          var nameEnd := pos + HEADER_SIZE + fs[NAMESIZE];
          var data := Up4(nameEnd);
          var dataEnd := data + fs[FILESIZE];
          if fs[NAMESIZE] == 0 || |b| < dataEnd || b[nameEnd - 1] != 0 then None
          else Some(Step(Record(fs, b[pos + HEADER_SIZE..nameEnd - 1], b[data..dataEnd]), Up4(dataEnd)))
  }

  /** All records up to and including the trailer. */
  function ReadArchive(b: Bytes, pos: nat): Option<seq<Record>>
    decreases if pos < |b| then |b| - pos else 0
  {
    match ReadRecord(b, pos)
    case None => None
    case Some(Step(r, next)) =>
      if r.name == TRAILER_NAME then Some([r])
      else if pos >= |b| then None
      else
        match ReadArchive(b, next)
        case None => None
        case Some(rest) => Some([r] + rest)
  }

  lemma SliceOfSlice(b: Bytes, pos: nat, n: nat, i: nat, j: nat)
    requires pos + n <= |b| && i <= j <= n
    ensures b[pos..pos + n][i..j] == b[pos + i..pos + j]
  {
    var x, y := b[pos..pos + n][i..j], b[pos + i..pos + j];
    forall k | 0 <= k < j - i ensures x[k] == y[k] {
      assert b[pos..pos + n][i + k] == b[pos + i + k];
    }
  }

  lemma {:induction false} FieldsReadBack(b: Bytes, pos: nat, fields: seq<nat>, n: nat)
    requires |fields| == FIELD_COUNT && Fit(fields) && n <= FIELD_COUNT
    requires pos + HEADER_SIZE <= |b| && b[pos..pos + HEADER_SIZE] == Header(fields)
    ensures ReadFields(b, pos, n) == Some(fields[..n])
  {
    hide ParseHex, HexAll, Hex;
    if n == 0 {
      assert fields[..0] == [];
    } else {
      FieldsReadBack(b, pos, fields, n - 1);
      var i := n - 1;
      HexFieldAt(fields, i);
      SliceOfSlice(b, pos, HEADER_SIZE, 6 + 8 * i, 14 + 8 * i);
      assert Header(fields)[6 + 8 * i..14 + 8 * i] == HexAll(fields)[8 * i..8 * i + 8];
      HexRoundTrip(fields[i], 8);
      assert fields[..n] == fields[..i] + [fields[i]];
    }
  }

  lemma HeaderLength(fields: seq<nat>)
    requires |fields| == FIELD_COUNT
    ensures |Header(fields)| == HEADER_SIZE <==> Fit(fields)
  {
    hide HexAll;
    HexAllWidth(fields);
  }

  /** A record is read back from where it was written, and the reader ends up where the writer did. */
  lemma RecordReadsBack(b: Bytes, r: Record, tail: Bytes)
    requires WellFormed(r)
    ensures ReadRecord(Append(b, r) + tail, |b|) == Some(Step(r, |Append(b, r)|))
  {
    hide Header, ReadFields;
    HeaderLength(r.fields);
    var named := b + Header(r.fields) + r.name + [0];
    var aligned := Align4(named);
    var full := Append(b, r) + tail;
    assert full[..|aligned|] == aligned;
    assert full[|b|..|b| + HEADER_SIZE] == Header(r.fields);
    FieldsReadBack(full, |b|, r.fields, FIELD_COUNT);
    assert r.fields[..FIELD_COUNT] == r.fields;
    StartsWithMagic(full, |b|, r.fields);
    assert full[|b| + HEADER_SIZE..|named| - 1] == r.name;
    assert full[|aligned|..|aligned| + |r.data|] == r.data;
  }

  lemma StartsWithMagic(b: Bytes, pos: nat, fields: seq<nat>)
    requires pos + HEADER_SIZE <= |b| && b[pos..pos + HEADER_SIZE] == Header(fields)
    ensures b[pos..pos + 6] == MAGIC
  {
    hide HexAll;
    assert b[pos..pos + 6] == b[pos..pos + HEADER_SIZE][..6];
  }

  lemma {:induction false} AppendAllFront(b: Bytes, r: Record, rs: seq<Record>)
    ensures AppendAll(b, [r] + rs) == AppendAll(Append(b, r), rs)
  {
    hide Append;
    if rs == [] {
      assert [r] + rs == [r];
      assert AppendAll(b, [r]) == Append(AppendAll(b, []), r);
    } else {
      AppendAllFront(b, r, rs[..|rs| - 1]);
      assert ([r] + rs)[..|rs|] == [r] + rs[..|rs| - 1];
    }
  }

  lemma {:induction false} AppendAllExtends(b: Bytes, rs: seq<Record>)
    ensures b <= AppendAll(b, rs)
  {
    if rs != [] { AppendAllExtends(b, rs[..|rs| - 1]); }
  }

  /** The records a reader sees: it stops at the first trailer name. */
  function UntilTrailer(rs: seq<Record>): seq<Record> {
    if rs == [] then []
    else if rs[0].name == TRAILER_NAME then [rs[0]]
    else [rs[0]] + UntilTrailer(rs[1..])
  }

  lemma {:induction false} RecordsReadBack(b: Bytes, rs: seq<Record>, tail: Bytes)
    requires rs != [] && rs[|rs| - 1].name == TRAILER_NAME && forall r :: r in rs ==> WellFormed(r)
    ensures ReadArchive(AppendAll(b, rs) + tail, |b|) == Some(UntilTrailer(rs))
    decreases |rs|
  {
    hide Append, ReadRecord, WellFormed;
    var r, rest := rs[0], rs[1..];
    var next := Append(b, r);
    assert rs == [r] + rest;
    AppendAllFront(b, r, rest);
    AppendAllExtends(next, rest);
    var full := AppendAll(b, rs) + tail;
    assert full == next + full[|next|..];
    RecordReadsBack(b, r, full[|next|..]);
    if r.name != TRAILER_NAME {
      AppendGrows(b, r);
      RecordsReadBack(next, rest, tail);
    }
  }

  lemma AppendGrows(b: Bytes, r: Record)
    ensures |b| < |Append(b, r)|
  {
    hide Header;
  }

  // ---- Entries ----

  datatype Entry = Entry(inode: nat, name: Bytes, mode: nat, uid: nat, gid: nat, nlink: nat, mtime: nat, major: nat,
                         minor: nat, rmajor: nat, rminor: nat, chksum: nat, content: Bytes)

  const TRAILER := Entry(0, TRAILER_NAME, 0, 0, 0, 1, 0, 0, 0, 0, 0, 0, [])

  function Fields(e: Entry, filesize: nat): seq<nat> {
    [e.inode, e.mode, e.uid, e.gid, e.nlink, e.mtime, filesize, e.major, e.minor, e.rmajor, e.rminor, |e.name| + 1,
     e.chksum]
  }

  ghost predicate Encodable(e: Entry) {
    Fit(Fields(e, |e.content|))
  }

  function RecordOf(e: Entry): Record {
    Record(Fields(e, |e.content|), e.name, e.content)
  }

  /** A hard link: the same header without data. */
  function LinkOf(e: Entry): Record {
    Record(Fields(e, 0), e.name, [])
  }

  predicate Linked(e: Entry) {
    |e.content| > 0 && e.nlink > 1
  }

  function Links(e: Entry): seq<Record> {
    if Linked(e) then seq(e.nlink - 1, _ => LinkOf(e)) else []
  }

  function RecordsOf(e: Entry): seq<Record> {
    Links(e) + [RecordOf(e)]
  }

  function AllRecords(es: seq<Entry>): seq<Record> {
    if es == [] then [] else AllRecords(es[..|es| - 1]) + RecordsOf(es[|es| - 1])
  }

  function Up512(n: nat): nat {
    (n + 511) / 512 * 512
  }

  function Align512(b: Bytes): (r: Bytes)
    ensures |r| == Up512(|b|)
  {
    b + Zeros(Up512(|b|) - |b|)
  }

  function Archive(es: seq<Entry>): Bytes {
    Align512(AppendAll([], AllRecords(es) + [RecordOf(TRAILER)]))
  }

  lemma EntryWellFormed(e: Entry, r: Record)
    requires Encodable(e) && r in RecordsOf(e)
    ensures WellFormed(r) && r.name == e.name
  {
    assert r == LinkOf(e) || r == RecordOf(e);
    assert forall i :: 0 <= i < FIELD_COUNT ==> Fields(e, 0)[i] <= Fields(e, |e.content|)[i];
  }

  lemma {:induction false} AllWellFormed(es: seq<Entry>, r: Record)
    requires (forall e :: e in es ==> Encodable(e)) && r in AllRecords(es)
    ensures WellFormed(r) && exists e :: e in es && r.name == e.name
  {
    hide Encodable, WellFormed, RecordsOf;
    if r in RecordsOf(es[|es| - 1]) {
      EntryWellFormed(es[|es| - 1], r);
    } else {
      AllWellFormed(es[..|es| - 1], r);
    }
  }

  lemma {:induction false} EveryEntryRecorded(es: seq<Entry>, e: Entry)
    requires e in es
    ensures RecordOf(e) in AllRecords(es)
  {
    hide RecordOf, Links;
    var last := es[|es| - 1];
    if e == last {
      assert RecordOf(e) in RecordsOf(e);
    } else {
      EveryEntryRecorded(es[..|es| - 1], e);
    }
  }

  lemma {:induction false} UntilTrailerExact(rs: seq<Record>)
    requires rs != [] && rs[|rs| - 1].name == TRAILER_NAME
    ensures UntilTrailer(rs) == rs <==> forall i :: 0 <= i < |rs| - 1 ==> rs[i].name != TRAILER_NAME
  {
    if rs[0].name == TRAILER_NAME {
      assert |UntilTrailer(rs)| == 1;
    } else {
      UntilTrailerExact(rs[1..]);
      assert UntilTrailer(rs)[1..] == UntilTrailer(rs[1..]);
      assert forall i :: 0 <= i < |rs[1..]| ==> rs[1..][i] == rs[i + 1];
      assert [rs[0]] + rs[1..] == rs;
    }
  }

  /** A reader of the archive finds the records of all entries, in order, up to the first one that
      carries the trailer's name; the archive fills whole 512-byte blocks. */
  lemma ArchiveReadsBack(es: seq<Entry>)
    requires forall e :: e in es ==> Encodable(e)
    ensures |Archive(es)| % 512 == 0
    ensures ReadArchive(Archive(es), 0) == Some(UntilTrailer(AllRecords(es) + [RecordOf(TRAILER)]))
  {
    hide AppendAll, ReadArchive, AllRecords, WellFormed, Encodable;
    var rs := AllRecords(es) + [RecordOf(TRAILER)];
    TrailerWellFormed();
    forall r | r in rs
      ensures WellFormed(r)
    {
      if r in AllRecords(es) { AllWellFormed(es, r); }
    }
    var stream := AppendAll([], rs);
    RecordsReadBack([], rs, Zeros(Up512(|stream|) - |stream|));
  }

  lemma TrailerWellFormed()
    ensures WellFormed(RecordOf(TRAILER)) && Encodable(TRAILER)
  {
  }

  /** Every entry survives exactly when none has the trailer's name. */
  lemma RoundTripExact(es: seq<Entry>)
    requires forall e :: e in es ==> Encodable(e)
    ensures ReadArchive(Archive(es), 0) == Some(AllRecords(es) + [RecordOf(TRAILER)]) <==>
              forall e :: e in es ==> e.name != TRAILER_NAME
  {
    hide ReadArchive, Archive, AllRecords, RecordOf, WellFormed, Encodable, UntilTrailer;
    var all := AllRecords(es);
    var rs := all + [RecordOf(TRAILER)];
    ArchiveReadsBack(es);
    NameOfRecord(TRAILER);
    UntilTrailerExact(rs);
    forall e | e in es
      ensures RecordOf(e) in all && RecordOf(e).name == e.name
    {
      EveryEntryRecorded(es, e);
      NameOfRecord(e);
    }
    forall r | r in all
      ensures exists e :: e in es && r.name == e.name
    {
      AllWellFormed(es, r);
    }
    assert forall i :: 0 <= i < |all| ==> rs[i] == all[i];
  }

  // ---- What a reader learns about each entry ----

  /** The record has the entry's name, and in the format's places the entry's own numbers. */
  ghost predicate Carries(r: Record, e: Entry, data: Bytes) {
    && r.name == e.name && r.data == data && |r.fields| == 13
    && r.fields[0] == e.inode && r.fields[1] == e.mode && r.fields[2] == e.uid && r.fields[3] == e.gid
    && r.fields[4] == e.nlink && r.fields[5] == e.mtime && r.fields[6] == |data|
    && r.fields[7] == e.major && r.fields[8] == e.minor && r.fields[9] == e.rmajor && r.fields[10] == e.rminor
    && r.fields[11] == |e.name| + 1 && r.fields[12] == e.chksum
  }

  /** How many records without data precede an entry's own. */
  function LinkCount(e: Entry): nat {
    if |e.content| > 0 && e.nlink > 1 then e.nlink - 1 else 0
  }

  /** The records are those of the entries, in order: for each, its links without data and then the
      record with its content. */
  ghost predicate Lists(rs: seq<Record>, es: seq<Entry>)
    decreases |es|
  {
    if es == [] then rs == []
    else
      var e := es[|es| - 1];
      var at := |rs| - 1 - LinkCount(e);
      && at >= 0 && Lists(rs[..at], es[..|es| - 1])
      && (forall i :: at <= i < |rs| - 1 ==> Carries(rs[i], e, []))
      && Carries(rs[|rs| - 1], e, e.content)
  }

  lemma EntryCarried(e: Entry)
    ensures Carries(RecordOf(e), e, e.content) && Carries(LinkOf(e), e, [])
    ensures |RecordsOf(e)| == LinkCount(e) + 1 && RecordsOf(e)[LinkCount(e)] == RecordOf(e)
    ensures forall i :: 0 <= i < LinkCount(e) ==> RecordsOf(e)[i] == LinkOf(e)
  {
  }

  /** The records of one more entry. */
  lemma ListsNext(before: seq<Record>, group: seq<Record>, es: seq<Entry>)
    requires es != [] && Lists(before, es[..|es| - 1])
    requires var e := es[|es| - 1];
             && |group| == LinkCount(e) + 1 && Carries(group[LinkCount(e)], e, e.content)
             && forall i :: 0 <= i < LinkCount(e) ==> Carries(group[i], e, [])
    ensures Lists(before + group, es)
  {
    hide Carries, LinkCount;
    var rs, e, at := before + group, es[|es| - 1], |before|;
    assert rs[..at] == before && rs[|rs| - 1] == group[LinkCount(e)];
    forall i | at <= i < |rs| - 1 ensures Carries(rs[i], e, []) {
      assert rs[i] == group[i - at];
    }
  }

  lemma {:induction false} RecordsListed(es: seq<Entry>)
    ensures Lists(AllRecords(es), es)
    decreases |es|
  {
    hide Carries, RecordsOf, RecordOf, LinkOf, LinkCount, Lists;
    if es == [] {
      NothingListed();
    } else {
      var init, e := es[..|es| - 1], es[|es| - 1];
      RecordsListed(init);
      EntryCarried(e);
      ListsNext(AllRecords(init), RecordsOf(e), es);
    }
  }

  lemma NothingListed()
    ensures Lists([], [])
  {
  }

  /** The bytes of a text in ASCII. */
  ghost predicate Spells(b: Bytes, text: string) {
    |b| == |text| && forall i :: 0 <= i < |b| ==> b[i] as int == text[i] as int
  }

  /** The fixed texts of the format. */
  lemma Texts(d: nat)
    requires d < 16
    ensures Spells(MAGIC, "070701") && Spells(TRAILER_NAME, "TRAILER!!!")
    ensures HexDigit(d) as int == "0123456789ABCDEF"[d] as int
  {
  }

  /** A reader finds every entry with all its numbers, name and content, then the trailer and nothing
      else; an entry with the trailer's name is all that stands in the way (`RoundTripExact`). */
  lemma EntriesRead(es: seq<Entry>)
    requires forall e :: e in es ==> Encodable(e) && e.name != TRAILER_NAME
    ensures var read := ReadArchive(Archive(es), 0);
            && read.Some? && read.value != []
            && Lists(read.value[..|read.value| - 1], es)
            && var last := read.value[|read.value| - 1];
            && last.name == TRAILER_NAME && last.data == [] && |last.fields| == 13 && last.fields[4] == 1
            && forall i :: 0 <= i < 13 && i != 4 && i != 11 ==> last.fields[i] == 0
  {
    hide ReadArchive, Archive, AllRecords, Encodable, Lists;
    RoundTripExact(es);
    RecordsListed(es);
    var rs := AllRecords(es) + [RecordOf(TRAILER)];
    assert rs[..|rs| - 1] == AllRecords(es);
  }

  lemma NameOfRecord(e: Entry)
    ensures RecordOf(e).name == e.name
  {
  }

  lemma RecordAligned(b: Bytes, r: Record)
    ensures |Append(b, r)| % 4 == 0
  {
    hide Header;
  }

  /** Every record starts at a multiple of four. */
  lemma {:induction false} RecordsAligned(b: Bytes, rs: seq<Record>)
    requires |b| % 4 == 0
    ensures |AppendAll(b, rs)| % 4 == 0
  {
    hide Append;
    if rs != [] { RecordAligned(AppendAll(b, rs[..|rs| - 1]), rs[|rs| - 1]); }
  }
}
