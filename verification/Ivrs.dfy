/** The I/O Virtualization Reporting Structure (section 5.2.2.3 of the AMD IOMMU specification): one
    type 11h IVHD block per IOMMU, holding a device range and, for the IOMMU that covers it, the
    IOAPIC. */
module Ivrs {
  import opened Wire
  import opened Wrappers

  const LENGTH := LengthField(2, true)

  const TYPE_11 := 0x11
  const RANGE_START := 3
  const RANGE_END := 4
  const SPECIAL := 0x48
  const VARIETY_IOAPIC := 1
  const IOAPIC_ID := 0

  datatype Iommu = Iommu(deviceId: nat, capabilityOffset: nat, mmioBase: nat, segment: nat, features: nat,
                         startBus: nat, endBus: nat)

  datatype Config = Config(iommus: seq<Iommu>, ioapicRid: Option<nat>)

  /** A device entry as a reader sees it. */
  datatype Entry = Start(bdf: nat) | End(bdf: nat) | Special(handle: nat, rid: nat, variety: nat)

  datatype Ivhd = Ivhd(deviceId: nat, capabilityOffset: nat, base: nat, segment: nat, efr: nat, entries: seq<Entry>)

  // ---- Bytes ----

  function EntryBytes(e: Entry): (b: Bytes)
    ensures |b| == EntrySize(e)
  {
    match e
    case Start(bdf) => [RANGE_START] + Le16(bdf) + [0]
    case End(bdf) => [RANGE_END] + Le16(bdf) + [0]
    case Special(handle, rid, variety) => [SPECIAL, 0, 0, 0, handle % 256] + Le16(rid) + [variety % 256]
  }

  function EntrySize(e: Entry): nat {
    if e.Special? then 8 else 4
  }

  function EntriesBytes(es: seq<Entry>): Bytes {
    if es == [] then [] else EntryBytes(es[0]) + EntriesBytes(es[1..])
  }

  function EntriesSize(es: seq<Entry>): nat {
    if es == [] then 0 else EntrySize(es[0]) + EntriesSize(es[1..])
  }

  function Head(d: Ivhd, length: nat): (b: Bytes)
    ensures |b| == 40
  {
    [TYPE_11, 0] + Le16(length % U16_LIMIT) + Le16(d.deviceId) + Le16(d.capabilityOffset) + Le64(d.base)
    + Le16(d.segment) + Zeros(6) + Le64(d.efr) + Zeros(8)
  }

  function Serialize(d: Ivhd): Bytes {
    Head(d, 40 + EntriesSize(d.entries)) + EntriesBytes(d.entries)
  }

  /** Reads device entries; the entry type tells its size. */
  function ParseEntries(b: Bytes): Option<seq<Entry>>
    decreases |b|
  {
    if b == [] then Some([])
    else if (b[0] == RANGE_START || b[0] == RANGE_END) && |b| >= 4 then
      var e := if b[0] == RANGE_START then Start(Get16(b, 1)) else End(Get16(b, 1));
      match ParseEntries(b[4..])
      case None => None
      case Some(rest) => Some([e] + rest)
    else if b[0] == SPECIAL && |b| >= 8 then
      match ParseEntries(b[8..])
      case None => None
      case Some(rest) => Some([Special(b[4], Get16(b, 5), b[7])] + rest)
    else None
  }

  function ParseIvhd(b: Bytes): Option<Ivhd> {
    if |b| < 40 || b[0] != TYPE_11 then None
    else
      match ParseEntries(b[40..])
      case None => None
      case Some(es) => Some(Ivhd(Get16(b, 4), Get16(b, 6), Get64(b, 8), Get16(b, 16), Get64(b, 24), es))
  }

  predicate EntryFits(e: Entry) {
    match e
    case Start(bdf) => bdf < U16_LIMIT
    case End(bdf) => bdf < U16_LIMIT
    case Special(handle, rid, variety) => handle < 256 && rid < U16_LIMIT && variety < 256
  }

  predicate IvhdFits(d: Ivhd) {
    && d.deviceId < U16_LIMIT && d.capabilityOffset < U16_LIMIT && d.base < U64_LIMIT && d.segment < U16_LIMIT
    && d.efr < U64_LIMIT && 40 + EntriesSize(d.entries) < U16_LIMIT
    && forall e :: e in d.entries ==> EntryFits(e)
  }

  lemma EntryReadBack(e: Entry, tail: Bytes)
    requires EntryFits(e)
    ensures var b := EntryBytes(e) + tail;
            match ParseEntries(tail)
            case None => ParseEntries(b) == None
            case Some(rest) => ParseEntries(b) == Some([e] + rest)
  {
    var b := EntryBytes(e) + tail;
    assert b[EntrySize(e)..] == tail;
    match e
    case Start(bdf) => Get16RoundTrip(b, 1, bdf);
    case End(bdf) => Get16RoundTrip(b, 1, bdf);
    case Special(_, rid, _) =>
      assert b[5..7] == Le16(rid);
      Get16RoundTrip(b, 5, rid);
  }

  lemma {:induction false} EntriesRoundTrip(es: seq<Entry>)
    requires forall e :: e in es ==> EntryFits(e)
    ensures ParseEntries(EntriesBytes(es)) == Some(es) && |EntriesBytes(es)| == EntriesSize(es)
  {
    hide EntryBytes, EntryFits, ParseEntries;
    if es == [] {
      NothingToParse();
    } else {
      EntriesRoundTrip(es[1..]);
      EntryReadBack(es[0], EntriesBytes(es[1..]));
      assert [es[0]] + es[1..] == es;
    }
  }

  lemma NothingToParse()
    ensures ParseEntries([]) == Some([])
  {
  }

  /** A block reads back whole. */
  lemma IvhdRoundTrip(d: Ivhd)
    requires IvhdFits(d)
    ensures |Serialize(d)| >= 40 && Framed(Serialize(d), LENGTH) && ParseIvhd(Serialize(d)) == Some(d)
  {
    hide Get16, Get64, Le16, Le64, EntriesBytes, ParseEntries, EntryFits;
    var b, length := Serialize(d), 40 + EntriesSize(d.entries);
    EntriesRoundTrip(d.entries);
    assert b[40..] == EntriesBytes(d.entries);
    assert b[2..4] == Le16(length) && b[4..6] == Le16(d.deviceId) && b[6..8] == Le16(d.capabilityOffset);
    assert b[8..16] == Le64(d.base) && b[16..18] == Le16(d.segment) && b[24..32] == Le64(d.efr);
    Get16RoundTrip(b, 2, length);
    Get16RoundTrip(b, 4, d.deviceId);
    Get16RoundTrip(b, 6, d.capabilityOffset);
    Get64RoundTrip(b, 8, d.base);
    Get16RoundTrip(b, 16, d.segment);
    Get64RoundTrip(b, 24, d.efr);
  }

  // ---- What the table must hold ----

  predicate HoldsIoapic(cfg: Config, iommu: Iommu) {
    cfg.ioapicRid.Some? && iommu.segment == 0 && iommu.startBus <= cfg.ioapicRid.value / 256 <= iommu.endBus
  }

  function IvhdOf(cfg: Config, iommu: Iommu): Ivhd {
    Ivhd(iommu.deviceId, iommu.capabilityOffset, iommu.mmioBase, iommu.segment, iommu.features,
         [Start(iommu.startBus * 256), End(iommu.endBus * 256 + 255)]
         + if HoldsIoapic(cfg, iommu) then [Special(IOAPIC_ID, cfg.ioapicRid.value, VARIETY_IOAPIC)] else [])
  }

  function Ivhds(cfg: Config, n: nat): seq<Ivhd>
    requires n <= |cfg.iommus|
  {
    seq(n, i requires 0 <= i < n => IvhdOf(cfg, cfg.iommus[i]))
  }

  function Chunks(ds: seq<Ivhd>): seq<Bytes> {
    seq(|ds|, i requires 0 <= i < |ds| => Serialize(ds[i]))
  }

  function Table(cfg: Config): Bytes {
    Concat(Chunks(Ivhds(cfg, |cfg.iommus|)))
  }

  /** The configuration's fields have their Rust widths. */
  ghost predicate Valid(cfg: Config) {
    && (cfg.ioapicRid.Some? ==> cfg.ioapicRid.value < U16_LIMIT)
    && forall u :: u in cfg.iommus ==>
         && u.deviceId < U16_LIMIT && u.capabilityOffset < U16_LIMIT && u.mmioBase < U64_LIMIT
         && u.segment < U16_LIMIT && u.features < U64_LIMIT && u.startBus < 256 && u.endBus < 256
  }

  lemma IvhdOfFits(cfg: Config, iommu: Iommu)
    requires Valid(cfg) && iommu in cfg.iommus
    ensures IvhdFits(IvhdOf(cfg, iommu))
    ensures EntriesSize(IvhdOf(cfg, iommu).entries) == if HoldsIoapic(cfg, iommu) then 16 else 8
  {
    var es := IvhdOf(cfg, iommu).entries;
    assert EntriesSize(es) == 8 + EntriesSize(es[1..][1..]);
    assert HoldsIoapic(cfg, iommu) ==> EntriesSize(es[1..][1..]) == 8 + EntriesSize(es[1..][1..][1..]);
  }

  /** Walking by IVHD lengths finds exactly the configured IOMMUs, with their entries. */
  lemma WalkRecovers(cfg: Config)
    requires Valid(cfg)
    ensures var ivhds := Ivhds(cfg, |cfg.iommus|);
            && Frames(Table(cfg), LENGTH) == Some(Chunks(ivhds))
            && forall i :: 0 <= i < |ivhds| ==> ParseIvhd(Chunks(ivhds)[i]) == Some(ivhds[i])
  {
    hide Serialize, ParseIvhd, Frames, Framed, IvhdFits, IvhdOf, Concat;
    var ivhds := Ivhds(cfg, |cfg.iommus|);
    var chunks := Chunks(ivhds);
    forall i | 0 <= i < |ivhds|
      ensures ParseIvhd(chunks[i]) == Some(ivhds[i]) && Framed(chunks[i], LENGTH)
    {
      IvhdOfFits(cfg, cfg.iommus[i]);
      IvhdRoundTrip(ivhds[i]);
    }
    FramesRecovered(chunks, LENGTH);
  }

  /** The devices an IVHD claims: those between its range entries. */
  predicate Claims(d: Ivhd, bdf: nat) {
    && |d.entries| >= 2 && d.entries[0].Start? && d.entries[1].End?
    && d.entries[0].bdf <= bdf <= d.entries[1].bdf
  }

  /** A block claims a device exactly when the device's bus is in the IOMMU's bus range. */
  lemma ClaimsBusRange(cfg: Config, iommu: Iommu, bdf: nat)
    ensures Claims(IvhdOf(cfg, iommu), bdf) <==> iommu.startBus <= bdf / 256 <= iommu.endBus
  {
  }

  // ---- What a reader learns ----

  function ParseAll(chunks: seq<Bytes>): Option<seq<Ivhd>> {
    if chunks == [] then Some([])
    else
      match (ParseIvhd(chunks[0]), ParseAll(chunks[1..]))
      case (Some(d), Some(rest)) => Some([d] + rest)
      case _ => None
  }

  /** The blocks a reader finds by walking the table. */
  function ReadBlocks(b: Bytes): Option<seq<Ivhd>> {
    match Frames(b, LENGTH)
    case None => None
    case Some(chunks) => ParseAll(chunks)
  }

  lemma {:induction false} ParseAllIs(chunks: seq<Bytes>, ds: seq<Ivhd>)
    requires |chunks| == |ds| && forall i :: 0 <= i < |ds| ==> ParseIvhd(chunks[i]) == Some(ds[i])
    ensures ParseAll(chunks) == Some(ds)
  {
    hide ParseIvhd;
    if ds != [] {
      ParseAllIs(chunks[1..], ds[1..]);
      assert ds == [ds[0]] + ds[1..];
    }
  }

  /** What was read is the configured IOMMU: its device, capability, registers, segment and features, a
      range from the first function of its first bus to the last of its last bus, and the IOAPIC if
      and only if the IOMMU is on segment 0 and covers the IOAPIC's bus. */
  ghost predicate Describes(d: Ivhd, cfg: Config, iommu: Iommu) {
    var ioapic := cfg.ioapicRid.Some? && iommu.segment == 0 && iommu.startBus <= cfg.ioapicRid.value / 256 <= iommu.endBus;
    && d.deviceId == iommu.deviceId && d.capabilityOffset == iommu.capabilityOffset && d.base == iommu.mmioBase
    && d.segment == iommu.segment && d.efr == iommu.features
    && |d.entries| == (if ioapic then 3 else 2)
    && d.entries[0] == Start(iommu.startBus * 256) && d.entries[1] == End(iommu.endBus * 256 + 255)
    && (ioapic ==> d.entries[2] == Special(0, cfg.ioapicRid.value, 1))
  }

  /** A reader of the table finds the configured IOMMUs. */
  lemma BlocksRead(cfg: Config)
    requires Valid(cfg)
    ensures var read := ReadBlocks(Table(cfg));
            && read.Some? && |read.value| == |cfg.iommus|
            && forall i :: 0 <= i < |cfg.iommus| ==> Describes(read.value[i], cfg, cfg.iommus[i])
  {
    hide Table, Frames, ParseIvhd, Valid;
    WalkRecovers(cfg);
    ParseAllIs(Chunks(Ivhds(cfg, |cfg.iommus|)), Ivhds(cfg, |cfg.iommus|));
  }

  /** The fixed bytes of a block and its entries: type, no flags, nothing reserved set. */
  lemma ConstantBytes(d: Ivhd, e: Entry)
    ensures Serialize(d)[..2] == [0x11, 0] && Serialize(d)[18..24] == Zeros(6) && Serialize(d)[32..40] == Zeros(8)
    ensures EntryBytes(e)[0] == (match e case Start(_) => 3 case End(_) => 4 case Special(_, _, _) => 0x48)
    ensures if e.Special? then EntryBytes(e)[1..4] == [0, 0, 0] else EntryBytes(e)[3] == 0
  {
    hide EntriesBytes, EntriesSize, Le16, Le64;
  }

  // ---- The IOAPIC ----

  function SpecialCount(es: seq<Entry>): nat {
    if es == [] then 0 else (if es[0].Special? then 1 else 0) + SpecialCount(es[1..])
  }

  function SpecialTotal(ds: seq<Ivhd>): nat {
    if ds == [] then 0 else SpecialTotal(ds[..|ds| - 1]) + SpecialCount(ds[|ds| - 1].entries)
  }

  function Covering(cfg: Config, n: nat): nat
    requires n <= |cfg.iommus|
  {
    if n == 0 then 0 else Covering(cfg, n - 1) + (if HoldsIoapic(cfg, cfg.iommus[n - 1]) then 1 else 0)
  }

  lemma SpecialInBlock(cfg: Config, iommu: Iommu)
    ensures SpecialCount(IvhdOf(cfg, iommu).entries) == if HoldsIoapic(cfg, iommu) then 1 else 0
  {
    var es := IvhdOf(cfg, iommu).entries;
    assert SpecialCount(es) == SpecialCount(es[1..][1..]);
    assert HoldsIoapic(cfg, iommu) ==> SpecialCount(es[1..][1..]) == 1 + SpecialCount(es[1..][1..][1..]);
  }

  /** The table holds one IOAPIC entry for every IOMMU that covers the IOAPIC's requester ID. */
  lemma {:induction false} IoapicEntriesCounted(cfg: Config, n: nat)
    requires n <= |cfg.iommus|
    ensures SpecialTotal(Ivhds(cfg, n)) == Covering(cfg, n)
  {
    hide IvhdOf, SpecialCount, HoldsIoapic;
    if n > 0 {
      IoapicEntriesCounted(cfg, n - 1);
      assert Ivhds(cfg, n)[..n - 1] == Ivhds(cfg, n - 1);
      SpecialInBlock(cfg, cfg.iommus[n - 1]);
    }
  }

  /** No two IOMMUs of segment 0 share a bus. */
  ghost predicate DisjointRanges(iommus: seq<Iommu>) {
    forall i, j :: 0 <= i < j < |iommus| && iommus[i].segment == 0 && iommus[j].segment == 0 ==>
      iommus[i].endBus < iommus[j].startBus || iommus[j].endBus < iommus[i].startBus
  }

  lemma {:induction false} NoneCovering(cfg: Config, n: nat)
    requires n <= |cfg.iommus| && forall i :: 0 <= i < n ==> !HoldsIoapic(cfg, cfg.iommus[i])
    ensures Covering(cfg, n) == 0
  {
    hide HoldsIoapic;
    if n > 0 { NoneCovering(cfg, n - 1); }
  }

  /** With disjoint bus ranges the IOAPIC appears at most once, and it does appear if some IOMMU
      of segment 0 covers its bus. */
  lemma {:induction false} IoapicAtMostOnce(cfg: Config, n: nat)
    requires n <= |cfg.iommus| && DisjointRanges(cfg.iommus)
    ensures SpecialTotal(Ivhds(cfg, n)) <= 1
    ensures SpecialTotal(Ivhds(cfg, n)) == 1 <==> exists i :: 0 <= i < n && HoldsIoapic(cfg, cfg.iommus[i])
  {
    hide SpecialTotal, Ivhds;
    IoapicEntriesCounted(cfg, n);
    if n > 0 {
      IoapicAtMostOnce(cfg, n - 1);
      IoapicEntriesCounted(cfg, n - 1);
      if HoldsIoapic(cfg, cfg.iommus[n - 1]) { NoneCovering(cfg, n - 1); }
    }
  }

  // ---- The builder ----

  method EmitIommu(cfg: Config, before: Bytes, iommu: Iommu) returns (extra: Bytes)
    ensures extra == before + Serialize(IvhdOf(cfg, iommu))
  {
    hide EntryBytes, Head;
    var entriesSize := 8;
    var special := if cfg.ioapicRid.Some? && iommu.segment == 0
                      && iommu.startBus <= cfg.ioapicRid.value / 256 <= iommu.endBus
                   then Some(Special(IOAPIC_ID, cfg.ioapicRid.value, VARIETY_IOAPIC)) else None;
    if special.Some? { entriesSize := entriesSize + 8; }
    var start, end := Start(iommu.startBus * 256), End(iommu.endBus * 256 + 255);
    var d := Ivhd(iommu.deviceId, iommu.capabilityOffset, iommu.mmioBase, iommu.segment, iommu.features, []);
    extra := before + Head(d, 40 + entriesSize);
    extra := extra + EntryBytes(start);
    extra := extra + EntryBytes(end);
    if special.Some? { extra := extra + EntryBytes(special.value); }
    EntriesUnfold(start, end, special);
    HeadIgnoresEntries(d, IvhdOf(cfg, iommu).entries, 40 + entriesSize);
  }

  lemma EntriesUnfold(start: Entry, end: Entry, special: Option<Entry>)
    ensures var es := [start, end] + (if special.Some? then [special.value] else []);
            && EntriesBytes(es) == EntryBytes(start) + EntryBytes(end)
                                   + (if special.Some? then EntryBytes(special.value) else [])
            && EntriesSize(es) == EntrySize(start) + EntrySize(end)
                                  + (if special.Some? then EntrySize(special.value) else 0)
  {
    hide EntryBytes;
    var rest := if special.Some? then [special.value] else [];
    var es := [start, end] + rest;
    assert es[1..] == [end] + rest && es[1..][1..] == rest;
    if special.Some? { assert rest[1..] == [] && EntriesBytes(rest) == EntryBytes(special.value) + []; }
    assert EntriesBytes(es[1..]) == EntryBytes(end) + EntriesBytes(rest);
    assert EntriesSize(es[1..]) == EntrySize(end) + EntriesSize(rest);
  }

  lemma HeadIgnoresEntries(d: Ivhd, es: seq<Entry>, length: nat)
    ensures Head(d.(entries := es), length) == Head(d, length)
  {
  }

  method Build(cfg: Config) returns (extra: Bytes)
    ensures extra == Table(cfg)
  {
    hide Serialize, IvhdOf, Concat;
    extra := [];
    assert Chunks(Ivhds(cfg, 0)) == [];
    ConcatNothing();
    for i := 0 to |cfg.iommus|
      invariant extra == Concat(Chunks(Ivhds(cfg, i)))
    {
      extra := EmitIommu(cfg, extra, cfg.iommus[i]);
      ghost var done, chunk := Chunks(Ivhds(cfg, i)), Serialize(IvhdOf(cfg, cfg.iommus[i]));
      assert Chunks(Ivhds(cfg, i + 1)) == done + [chunk];
      ConcatOne(done, chunk);
    }
  }
}
