/** The IO Remapping Table (section 3 of Arm DEN0049): an optional ITS group, one SMMUv3 node per
    SMMU, one root complex node per PCIe host bridge and one reserved-memory node per SMMU with
    reserved ranges.  Device IDs travel from a root complex to the ITS along ID mappings, whose
    output references are byte offsets of other nodes. */
module Iort {
  import opened Wire
  import opened Wrappers

  const NODE_OFFSET := 48
  const LENGTH := LengthField(1, true)

  const TYPE_ITS := 0
  const TYPE_RC := 2
  const TYPE_SMMU := 4
  const TYPE_RMR := 6
  const SINGLE_MAPPING := 1
  const RMR_FIRST_ID := 0x1000
  const SEGMENT_STRIDE := 0x1_0000

  datatype Range = Range(start: nat, length: nat)

  datatype Smmu = Smmu(rcIndex: nat, segment: nat, base: nat, eventGsiv: nat, gerrGsiv: nat, reserved: seq<Range>)

  datatype Bridge = Bridge(index: nat, segment: nat)

  datatype Config = Config(its: Option<nat>, smmus: seq<Smmu>, bridges: seq<Bridge>)

  datatype Mapping = Mapping(inputBase: nat, idCount: nat, outputBase: nat, outputReference: nat, flags: nat)

  /** A node as it stands in the table. */
  datatype Node =
    | ItsNode(ids: seq<nat>)
    | SmmuNode(id: nat, base: nat, flags: nat, eventGsiv: nat, gerrGsiv: nat, deviceIdMapping: nat,
               mappings: seq<Mapping>)
    | RcNode(id: nat, segment: nat, mappings: seq<Mapping>)
    | RmrNode(id: nat, mappings: seq<Mapping>, ranges: seq<Range>)

  // ---- Bytes ----

  function MappingBytes(m: Mapping): (b: Bytes)
    ensures |b| == 20
  {
    Le32(m.inputBase) + Le32(m.idCount) + Le32(m.outputBase) + Le32(m.outputReference) + Le32(m.flags)
  }

  function ParseMapping(b: Bytes): Mapping
    requires |b| == 20
  {
    Mapping(Get32(b, 0), Get32(b, 4), Get32(b, 8), Get32(b, 12), Get32(b, 16))
  }

  function RangeBytes(r: Range): (b: Bytes)
    ensures |b| == 20
  {
    Le64(r.start) + Le64(r.length) + Zeros(4)
  }

  function ParseRange(b: Bytes): Range
    requires |b| == 20
  {
    Range(Get64(b, 0), Get64(b, 8))
  }

  function AllMappings(ms: seq<Mapping>): seq<Bytes> {
    seq(|ms|, i requires 0 <= i < |ms| => MappingBytes(ms[i]))
  }

  function AllRanges(rs: seq<Range>): seq<Bytes> {
    seq(|rs|, i requires 0 <= i < |rs| => RangeBytes(rs[i]))
  }

  function Header(kind: byte, length: nat, revision: byte, id: nat, mappings: nat, mappingOffset: nat): (b: Bytes)
    ensures |b| == 16
  {
    [kind] + Le16(length) + [revision] + Le32(id) + Le32(mappings) + Le32(if mappings == 0 then 0 else mappingOffset)
  }

  function ItsHead(count: nat): (b: Bytes)
    ensures |b| == 20
  {
    Header(TYPE_ITS, 20 + 4 * count, 1, 0, 0, 0) + Le32(count)
  }

  function SmmuHead(id: nat, base: nat, flags: nat, event: nat, gerr: nat, deviceIdMapping: nat, mappings: nat): (b: Bytes)
    ensures |b| == 68
  {
    Header(TYPE_SMMU, 68 + 20 * mappings, 5, id, mappings, 68) + Le64(base) + Le32(flags) + Zeros(16) + Le32(event)
    + Zeros(4) + Le32(gerr) + Zeros(8) + Le32(deviceIdMapping)
  }

  function RcHead(id: nat, segment: nat, mappings: nat): (b: Bytes)
    ensures |b| == 36
  {
    Header(TYPE_RC, 36 + 20 * mappings, 3, id, mappings, 36) + Le32(1) + [0, 0, 0, 3] + Zeros(4) + Le32(segment)
    + [64, 0, 0, 0]
  }

  function RmrHead(id: nat, mappings: nat, ranges: nat): (b: Bytes)
    ensures |b| == 28
  {
    Header(TYPE_RMR, 28 + 20 * mappings + 20 * ranges, 3, id, mappings, 28) + Zeros(4) + Le32(ranges)
    + Le32(if ranges == 0 then 0 else 28 + 20 * mappings)
  }

  function Serialize(n: Node): Bytes {
    match n
    case ItsNode(ids) => ItsHead(|ids|) + Words(ids)
    case SmmuNode(id, base, flags, event, gerr, index, ms) =>
      SmmuHead(id, base, flags, event, gerr, index, |ms|) + Concat(AllMappings(ms))
    case RcNode(id, segment, ms) => RcHead(id, segment, |ms|) + Concat(AllMappings(ms))
    case RmrNode(id, ms, rs) => RmrHead(id, |ms|, |rs|) + Concat(AllMappings(ms)) + Concat(AllRanges(rs))
  }

  function NodeSize(n: Node): nat {
    match n
    case ItsNode(ids) => 20 + 4 * |ids|
    case SmmuNode(_, _, _, _, _, _, ms) => 68 + 20 * |ms|
    case RcNode(_, _, ms) => 36 + 20 * |ms|
    case RmrNode(_, ms, rs) => 28 + 20 * |ms| + 20 * |rs|
  }

  // ---- The reader of one node ----

  function ParseMappings(b: Bytes, at: nat, n: nat): Option<seq<Mapping>> {
    if at + 20 * n > |b| then None
    else Some(seq(n, i requires 0 <= i < n => ParseMapping(b[at + 20 * i..at + 20 * i + 20])))
  }

  function ParseRanges(b: Bytes, at: nat, n: nat): Option<seq<Range>> {
    if at + 20 * n > |b| then None
    else Some(seq(n, i requires 0 <= i < n => ParseRange(b[at + 20 * i..at + 20 * i + 20])))
  }

  function ParseNode(b: Bytes): Option<Node> {
    if |b| < 20 then None
    else if b[0] == TYPE_ITS then
      var n := Get32(b, 16);
      if |b| != 20 + 4 * n then None
      else Some(ItsNode(seq(n, i requires 0 <= i < n => Get32(b, 20 + 4 * i))))
    else
      match ParseMappings(b, Get32(b, 12), Get32(b, 8))
      case None => None
      case Some(ms) =>
        if b[0] == TYPE_SMMU && |b| >= 68 then
          Some(SmmuNode(Get32(b, 4), Get64(b, 16), Get32(b, 24), Get32(b, 44), Get32(b, 52), Get32(b, 64), ms))
        else if b[0] == TYPE_RC && |b| >= 36 then
          Some(RcNode(Get32(b, 4), Get32(b, 28), ms))
        else if b[0] == TYPE_RMR && |b| >= 28 then
          match ParseRanges(b, Get32(b, 24), Get32(b, 20))
          case None => None
          case Some(rs) => Some(RmrNode(Get32(b, 4), ms, rs))
        else None
  }

  predicate MappingFits(m: Mapping) {
    && m.inputBase < U32_LIMIT && m.idCount < U32_LIMIT && m.outputBase < U32_LIMIT
    && m.outputReference < U32_LIMIT && m.flags < U32_LIMIT
  }

  predicate RangeFits(r: Range) {
    r.start < U64_LIMIT && r.length < U64_LIMIT
  }

  /** Field values fit their widths and the node length fits 16 bits. */
  ghost predicate Representable(n: Node) {
    && NodeSize(n) < U16_LIMIT
    && match n
       case ItsNode(ids) => forall i :: 0 <= i < |ids| ==> ids[i] < U32_LIMIT
       case SmmuNode(id, base, flags, event, gerr, index, ms) =>
         && id < U32_LIMIT && base < U64_LIMIT && flags < U32_LIMIT && event < U32_LIMIT && gerr < U32_LIMIT
         && index < U32_LIMIT && forall m :: m in ms ==> MappingFits(m)
       case RcNode(id, segment, ms) =>
         id < U32_LIMIT && segment < U32_LIMIT && forall m :: m in ms ==> MappingFits(m)
       case RmrNode(id, ms, rs) =>
         && id < U32_LIMIT && (forall m :: m in ms ==> MappingFits(m))
         && forall r :: r in rs ==> RangeFits(r)
  }

  lemma MappingRoundTrip(m: Mapping)
    requires MappingFits(m)
    ensures ParseMapping(MappingBytes(m)) == m
  {
    hide Get32, Le32;
    var b := MappingBytes(m);
    assert b[0..4] == Le32(m.inputBase) && b[4..8] == Le32(m.idCount) && b[8..12] == Le32(m.outputBase);
    assert b[12..16] == Le32(m.outputReference) && b[16..20] == Le32(m.flags);
    Get32RoundTrip(b, 0, m.inputBase);
    Get32RoundTrip(b, 4, m.idCount);
    Get32RoundTrip(b, 8, m.outputBase);
    Get32RoundTrip(b, 12, m.outputReference);
    Get32RoundTrip(b, 16, m.flags);
  }

  lemma RangeRoundTrip(r: Range)
    requires RangeFits(r)
    ensures ParseRange(RangeBytes(r)) == r
  {
    hide Get64, Le64;
    var b := RangeBytes(r);
    assert b[0..8] == Le64(r.start) && b[8..16] == Le64(r.length);
    Get64RoundTrip(b, 0, r.start);
    Get64RoundTrip(b, 8, r.length);
  }

  lemma MappingSizes(ms: seq<Mapping>)
    requires forall m :: m in ms ==> MappingFits(m)
    ensures |Concat(AllMappings(ms))| == 20 * |ms|
    ensures forall c :: c in AllMappings(ms) ==> |c| == 20
  {
    hide MappingBytes, ParseMapping, MappingFits, Concat;
    var chunks := AllMappings(ms);
    forall i | 0 <= i < |ms|
      ensures |chunks[i]| == 20
    {
      assert ms[i] in ms;
      MappingRoundTrip(ms[i]);
    }
    UniformStart(chunks, 20, |ms|);
    assert chunks[..|ms|] == chunks;
  }

  lemma MappingsReadBack(head: Bytes, ms: seq<Mapping>, tail: Bytes)
    requires forall m :: m in ms ==> MappingFits(m)
    ensures ParseMappings(head + Concat(AllMappings(ms)) + tail, |head|, |ms|) == Some(ms)
  {
    hide MappingBytes, ParseMapping, MappingFits, Concat;
    var chunks := AllMappings(ms);
    MappingSizes(ms);
    var b := head + Concat(chunks) + tail;
    forall i | 0 <= i < |ms|
      ensures |head| + 20 * i + 20 <= |b| && ParseMapping(b[|head| + 20 * i..|head| + 20 * i + 20]) == ms[i]
    {
      ElementAt(head, chunks, tail, 20, i);
      assert ms[i] in ms;
      MappingRoundTrip(ms[i]);
    }
    assert ParseMappings(b, |head|, |ms|).value == ms;
  }

  lemma RangeSizes(rs: seq<Range>)
    requires forall r :: r in rs ==> RangeFits(r)
    ensures |Concat(AllRanges(rs))| == 20 * |rs|
    ensures forall c :: c in AllRanges(rs) ==> |c| == 20
  {
    hide RangeBytes, ParseRange, RangeFits, Concat;
    var chunks := AllRanges(rs);
    forall i | 0 <= i < |rs|
      ensures |chunks[i]| == 20
    {
      assert rs[i] in rs;
      RangeRoundTrip(rs[i]);
    }
    UniformStart(chunks, 20, |rs|);
    assert chunks[..|rs|] == chunks;
  }

  lemma RangesReadBack(head: Bytes, rs: seq<Range>, tail: Bytes)
    requires forall r :: r in rs ==> RangeFits(r)
    ensures ParseRanges(head + Concat(AllRanges(rs)) + tail, |head|, |rs|) == Some(rs)
  {
    hide RangeBytes, ParseRange, RangeFits, Concat;
    var chunks := AllRanges(rs);
    RangeSizes(rs);
    var b := head + Concat(chunks) + tail;
    forall i | 0 <= i < |rs|
      ensures |head| + 20 * i + 20 <= |b| && ParseRange(b[|head| + 20 * i..|head| + 20 * i + 20]) == rs[i]
    {
      ElementAt(head, chunks, tail, 20, i);
      assert rs[i] in rs;
      RangeRoundTrip(rs[i]);
    }
    assert ParseRanges(b, |head|, |rs|).value == rs;
  }

  /** The common header is read back wherever more data follows it. */
  lemma HeaderReadBack(kind: byte, length: nat, revision: byte, id: nat, mappings: nat, offset: nat, tail: Bytes)
    requires length < U16_LIMIT && id < U32_LIMIT && mappings < U32_LIMIT && offset < U32_LIMIT
    ensures var b := Header(kind, length, revision, id, mappings, offset) + tail;
            && b[0] == kind && Get16(b, 1) == length && Get32(b, 4) == id && Get32(b, 8) == mappings
            && Get32(b, 12) == if mappings == 0 then 0 else offset
  {
    hide Get16, Get32, Le16, Le32;
    var b := Header(kind, length, revision, id, mappings, offset) + tail;
    var at := if mappings == 0 then 0 else offset;
    assert b[1..3] == Le16(length) && b[4..8] == Le32(id) && b[8..12] == Le32(mappings) && b[12..16] == Le32(at);
    Get16RoundTrip(b, 1, length);
    Get32RoundTrip(b, 4, id);
    Get32RoundTrip(b, 8, mappings);
    Get32RoundTrip(b, 12, at);
  }

  /** The mapping array behind a node's fixed part is found through the header. */
  lemma NodeMappings(b: Bytes, size: nat, ms: seq<Mapping>, tail: Bytes)
    requires size <= |b| && b[size..] == Concat(AllMappings(ms)) + tail
    requires forall m :: m in ms ==> MappingFits(m)
    ensures ParseMappings(b, if ms == [] then 0 else size, |ms|) == Some(ms)
  {
    hide MappingBytes, ParseMapping, MappingFits, Concat;
    MappingsReadBack(b[..size], ms, tail);
    assert b == b[..size] + Concat(AllMappings(ms)) + tail;
    if ms == [] { assert ParseMappings(b, 0, 0).value == []; }
  }

  lemma ItsRoundTrip(n: Node)
    requires Representable(n) && n.ItsNode?
    ensures |Serialize(n)| == NodeSize(n) && Framed(Serialize(n), LENGTH) && ParseNode(Serialize(n)) == Some(n)
  {
    hide Get16, Get32, Le32, Words, Header;
    var b, head, words := Serialize(n), ItsHead(|n.ids|), Words(n.ids);
    HeaderReadBack(TYPE_ITS, NodeSize(n), 1, 0, 0, 0, Le32(|n.ids|) + words);
    assert b == Header(TYPE_ITS, NodeSize(n), 1, 0, 0, 0) + (Le32(|n.ids|) + words);
    assert b[16..20] == Le32(|n.ids|);
    Get32RoundTrip(b, 16, |n.ids|);
    forall i | 0 <= i < |n.ids|
      ensures Get32(b, 20 + 4 * i) == n.ids[i]
    {
      WordReadsBack(head, n.ids, [], i);
      assert head + words + [] == b;
    }
    assert ParseNode(b).value.ids == n.ids;
  }

  lemma SmmuRoundTrip(n: Node)
    requires Representable(n) && n.SmmuNode?
    ensures |Serialize(n)| == NodeSize(n) && Framed(Serialize(n), LENGTH) && ParseNode(Serialize(n)) == Some(n)
  {
    hide Get16, Get32, Get64, Le32, Le64, Header, Concat, AllMappings, MappingFits, ParseMappings;
    var b, count := Serialize(n), |n.mappings|;
    var entries := Concat(AllMappings(n.mappings));
    MappingSizes(n.mappings);
    var header := Header(TYPE_SMMU, NodeSize(n), 5, n.id, count, 68);
    HeaderReadBack(TYPE_SMMU, NodeSize(n), 5, n.id, count, 68, b[16..]);
    assert b == header + b[16..];
    assert b[16..24] == Le64(n.base) && b[24..28] == Le32(n.flags) && b[44..48] == Le32(n.eventGsiv);
    assert b[52..56] == Le32(n.gerrGsiv) && b[64..68] == Le32(n.deviceIdMapping);
    Get64RoundTrip(b, 16, n.base);
    Get32RoundTrip(b, 24, n.flags);
    Get32RoundTrip(b, 44, n.eventGsiv);
    Get32RoundTrip(b, 52, n.gerrGsiv);
    Get32RoundTrip(b, 64, n.deviceIdMapping);
    assert b[68..] == entries + [];
    NodeMappings(b, 68, n.mappings, []);
  }

  lemma RcRoundTrip(n: Node)
    requires Representable(n) && n.RcNode?
    ensures |Serialize(n)| == NodeSize(n) && Framed(Serialize(n), LENGTH) && ParseNode(Serialize(n)) == Some(n)
  {
    hide Get16, Get32, Le32, Header, Concat, AllMappings, MappingFits, ParseMappings;
    var b, count := Serialize(n), |n.mappings|;
    var entries := Concat(AllMappings(n.mappings));
    MappingSizes(n.mappings);
    HeaderReadBack(TYPE_RC, NodeSize(n), 3, n.id, count, 36, b[16..]);
    assert b == Header(TYPE_RC, NodeSize(n), 3, n.id, count, 36) + b[16..];
    assert b[28..32] == Le32(n.segment);
    Get32RoundTrip(b, 28, n.segment);
    assert b[36..] == entries + [];
    NodeMappings(b, 36, n.mappings, []);
  }

  lemma RmrHeadReadBack(id: nat, mappings: nat, ranges: nat, tail: Bytes)
    requires id < U32_LIMIT && 28 + 20 * mappings + 20 * ranges < U16_LIMIT
    ensures var b := RmrHead(id, mappings, ranges) + tail;
            && b[0] == TYPE_RMR && Get16(b, 1) == 28 + 20 * mappings + 20 * ranges && Get32(b, 4) == id
            && Get32(b, 8) == mappings && Get32(b, 12) == (if mappings == 0 then 0 else 28)
            && Get32(b, 20) == ranges && Get32(b, 24) == (if ranges == 0 then 0 else 28 + 20 * mappings)
            && b[28..] == tail
  {
    hide Get16, Get32, Le32, Header;
    var size, at := 28 + 20 * mappings + 20 * ranges, if ranges == 0 then 0 else 28 + 20 * mappings;
    var b := RmrHead(id, mappings, ranges) + tail;
    HeaderReadBack(TYPE_RMR, size, 3, id, mappings, 28, b[16..]);
    assert b == Header(TYPE_RMR, size, 3, id, mappings, 28) + b[16..];
    assert b[20..24] == Le32(ranges) && b[24..28] == Le32(at);
    Get32RoundTrip(b, 20, ranges);
    Get32RoundTrip(b, 24, at);
  }

  lemma RmrRoundTrip(n: Node)
    requires Representable(n) && n.RmrNode?
    ensures |Serialize(n)| == NodeSize(n) && Framed(Serialize(n), LENGTH) && ParseNode(Serialize(n)) == Some(n)
  {
    hide Get16, Get32, RmrHead, Concat, AllMappings, AllRanges, MappingFits, RangeFits, ParseMappings, ParseRanges;
    var b, count := Serialize(n), |n.mappings|;
    var entries, ranges := Concat(AllMappings(n.mappings)), Concat(AllRanges(n.ranges));
    MappingSizes(n.mappings);
    RangeSizes(n.ranges);
    RmrHeadReadBack(n.id, count, |n.ranges|, entries + ranges);
    assert b == RmrHead(n.id, count, |n.ranges|) + (entries + ranges);
    var at := 28 + 20 * count;
    NodeMappings(b, 28, n.mappings, ranges);
    RangesReadBack(b[..at], n.ranges, []);
    assert b == b[..at] + ranges + [];
    NoRanges(b);
  }

  lemma NoRanges(b: Bytes)
    ensures ParseRanges(b, 0, 0) == Some([])
  {
    assert ParseRanges(b, 0, 0).value == [];
  }

  lemma NodeRoundTrip(n: Node)
    requires Representable(n)
    ensures |Serialize(n)| == NodeSize(n) && Framed(Serialize(n), LENGTH) && ParseNode(Serialize(n)) == Some(n)
  {
    hide *;
    match n
    case ItsNode(_) => ItsRoundTrip(n);
    case SmmuNode(_, _, _, _, _, _, _) => SmmuRoundTrip(n);
    case RcNode(_, _, _) => RcRoundTrip(n);
    case RmrNode(_, _, _) => RmrRoundTrip(n);
  }

  // ---- What the table must hold ----

  /** The first SMMU that covers the root complex with the given index. */
  function FindSmmu(smmus: seq<Smmu>, index: nat): (r: Option<nat>)
    ensures r.None? ==> forall k :: 0 <= k < |smmus| ==> smmus[k].rcIndex != index
    ensures r.Some? ==>
      r.value < |smmus| && smmus[r.value].rcIndex == index && forall k :: 0 <= k < r.value ==> smmus[k].rcIndex != index
  {
    if smmus == [] then None
    else if smmus[0].rcIndex == index then Some(0)
    else
      match FindSmmu(smmus[1..], index)
      case None => None
      case Some(k) => Some(k + 1)
  }

  function SmmuPosition(cfg: Config, k: nat): nat {
    if cfg.its.Some? then NODE_OFFSET + 24 + 108 * k else NODE_OFFSET + 68 * k
  }

  /** The offset the builder records for an SMMU node, in 32 bits. */
  function SmmuOffset(cfg: Config, k: nat): nat {
    SmmuPosition(cfg, k) % U32_LIMIT
  }

  /** All 16-bit BDFs, moved to `base` at the node `target`. */
  function AllBdfs(base: nat, target: nat): Mapping {
    Mapping(0, 0xFFFF, base, target, 0)
  }

  function ItsNodes(cfg: Config): seq<Node> {
    if cfg.its.Some? then [ItsNode([cfg.its.value])] else []
  }

  function SmmuNodeOf(cfg: Config, smmu: Smmu): Node {
    if cfg.its.Some? then
      SmmuNode(smmu.rcIndex, smmu.base, 0x11, smmu.eventGsiv, smmu.gerrGsiv, 1,
               [AllBdfs(smmu.segment * SEGMENT_STRIDE, NODE_OFFSET), Mapping(0, 0, 0, NODE_OFFSET, SINGLE_MAPPING)])
    else
      SmmuNode(smmu.rcIndex, smmu.base, 1, smmu.eventGsiv, smmu.gerrGsiv, 0, [])
  }

  function RcNodeOf(cfg: Config, bridge: Bridge): Node {
    RcNode(bridge.index, bridge.segment,
           match FindSmmu(cfg.smmus, bridge.index)
           case Some(k) => [AllBdfs(0, SmmuOffset(cfg, k))]
           case None => if cfg.its.Some? then [AllBdfs(bridge.segment * SEGMENT_STRIDE, NODE_OFFSET)] else [])
  }

  function RmrNodeOf(cfg: Config, k: nat): Node
    requires k < |cfg.smmus|
  {
    var target := FindSmmu(cfg.smmus, cfg.smmus[k].rcIndex);
    RmrNode(RMR_FIRST_ID + k, [AllBdfs(0, SmmuOffset(cfg, target.value))], cfg.smmus[k].reserved)
  }

  function SmmuNodes(cfg: Config, n: nat): seq<Node>
    requires n <= |cfg.smmus|
  {
    seq(n, k requires 0 <= k < n => SmmuNodeOf(cfg, cfg.smmus[k]))
  }

  function RcNodes(cfg: Config, n: nat): seq<Node>
    requires n <= |cfg.bridges|
  {
    seq(n, j requires 0 <= j < n => RcNodeOf(cfg, cfg.bridges[j]))
  }

  function RmrNodes(cfg: Config, n: nat): seq<Node>
    requires n <= |cfg.smmus|
  {
    if n == 0 then []
    else RmrNodes(cfg, n - 1) + (if cfg.smmus[n - 1].reserved != [] then [RmrNodeOf(cfg, n - 1)] else [])
  }

  function Nodes(cfg: Config): seq<Node> {
    ItsNodes(cfg) + SmmuNodes(cfg, |cfg.smmus|) + RcNodes(cfg, |cfg.bridges|) + RmrNodes(cfg, |cfg.smmus|)
  }

  function Chunks(nodes: seq<Node>): seq<Bytes> {
    seq(|nodes|, k requires 0 <= k < |nodes| => Serialize(nodes[k]))
  }

  /** The bytes behind the table header and the 12-byte IORT header. */
  function Table(cfg: Config): Bytes {
    Concat(Chunks(Nodes(cfg)))
  }

  /** The length of a reserved-memory node fits its 16-bit field; otherwise the builder panics. */
  predicate RmrFits(smmu: Smmu) {
    48 + 20 * |smmu.reserved| < U16_LIMIT
  }

  predicate SmmuFits(smmu: Smmu) {
    && smmu.rcIndex < U32_LIMIT && smmu.segment < U16_LIMIT && smmu.base < U64_LIMIT
    && smmu.eventGsiv < U32_LIMIT && smmu.gerrGsiv < U32_LIMIT
    && forall r :: r in smmu.reserved ==> RangeFits(r)
  }

  /** The node count the table header declares, in 32 bits. */
  function DeclaredCount(cfg: Config): nat {
    NodeCount(cfg) % U32_LIMIT
  }

  function NodeCount(cfg: Config): nat {
    (if cfg.its.Some? then 1 else 0) + |cfg.smmus| + |cfg.bridges| + ReservedCount(cfg.smmus)
  }

  function ReservedCount(smmus: seq<Smmu>): nat {
    if smmus == [] then 0
    else ReservedCount(smmus[..|smmus| - 1]) + (if smmus[|smmus| - 1].reserved != [] then 1 else 0)
  }

  /** The configuration's fields have their Rust widths and node offsets are 32-bit. */
  ghost predicate Valid(cfg: Config) {
    && (cfg.its.Some? ==> cfg.its.value < U32_LIMIT)
    && (forall smmu :: smmu in cfg.smmus ==> SmmuFits(smmu))
    && (forall bridge :: bridge in cfg.bridges ==> bridge.index < U32_LIMIT && bridge.segment < U16_LIMIT)
    && SmmuPosition(cfg, |cfg.smmus|) < U32_LIMIT
    && NodeCount(cfg) < U32_LIMIT
  }

  lemma SmmuNodeFits(cfg: Config, smmu: Smmu)
    requires Valid(cfg) && smmu in cfg.smmus
    ensures Representable(SmmuNodeOf(cfg, smmu))
    ensures NodeSize(SmmuNodeOf(cfg, smmu)) == if cfg.its.Some? then 108 else 68
  {
  }

  lemma RcNodeFits(cfg: Config, bridge: Bridge)
    requires Valid(cfg) && bridge in cfg.bridges
    ensures Representable(RcNodeOf(cfg, bridge))
  {
  }

  lemma RmrNodeFits(cfg: Config, k: nat)
    requires Valid(cfg) && k < |cfg.smmus| && RmrFits(cfg.smmus[k])
    ensures Representable(RmrNodeOf(cfg, k))
  {
    assert cfg.smmus[k] in cfg.smmus;
  }

  lemma {:induction false} RmrNodesFit(cfg: Config, n: nat)
    requires Valid(cfg) && n <= |cfg.smmus| && forall smmu :: smmu in cfg.smmus ==> RmrFits(smmu)
    ensures forall node :: node in RmrNodes(cfg, n) ==> Representable(node)
  {
    hide Representable, RmrNodeOf, SmmuFits, RmrFits;
    if n > 0 {
      RmrNodesFit(cfg, n - 1);
      RmrNodeFits(cfg, n - 1);
    }
  }

  lemma NodesFit(cfg: Config)
    requires Valid(cfg) && forall smmu :: smmu in cfg.smmus ==> RmrFits(smmu)
    ensures forall node :: node in Nodes(cfg) ==> Representable(node)
  {
    hide Representable, RmrNodes, SmmuNodeOf, RcNodeOf, SmmuFits, RmrFits;
    RmrNodesFit(cfg, |cfg.smmus|);
    forall k | 0 <= k < |cfg.smmus|
      ensures Representable(SmmuNodes(cfg, |cfg.smmus|)[k])
    {
      SmmuNodeFits(cfg, cfg.smmus[k]);
    }
    forall j | 0 <= j < |cfg.bridges|
      ensures Representable(RcNodes(cfg, |cfg.bridges|)[j])
    {
      RcNodeFits(cfg, cfg.bridges[j]);
    }
    ItsFits(cfg);
  }

  lemma ItsFits(cfg: Config)
    requires Valid(cfg)
    ensures forall node :: node in ItsNodes(cfg) ==> Representable(node)
  {
  }

  /** The builder does not panic on this configuration, and nothing in it wraps around. */
  ghost predicate Buildable(cfg: Config) {
    Valid(cfg) && forall smmu :: smmu in cfg.smmus ==> RmrFits(smmu)
  }

  // ---- The reader ----

  function NodeAt(b: Bytes, offset: nat): Option<Node> {
    match Frames(b, LENGTH)
    case None => None
    case Some(chunks) =>
      match IndexAt(chunks, NODE_OFFSET, offset)
      case None => None
      case Some(k) => if k < |chunks| then ParseNode(chunks[k]) else None
  }

  /** Walking by length fields finds exactly the nodes, in order. */
  lemma WalkRecovers(cfg: Config)
    requires Buildable(cfg)
    ensures var nodes := Nodes(cfg);
            && Frames(Table(cfg), LENGTH) == Some(Chunks(nodes))
            && forall k :: 0 <= k < |nodes| ==>
                 ParseNode(Chunks(nodes)[k]) == Some(nodes[k]) && |Chunks(nodes)[k]| == NodeSize(nodes[k])
  {
    hide Nodes, Serialize, ParseNode, Framed, Frames, Representable, Valid;
    var nodes := Nodes(cfg);
    var chunks := Chunks(nodes);
    NodesFit(cfg);
    forall k | 0 <= k < |nodes|
      ensures Framed(chunks[k], LENGTH) && ParseNode(chunks[k]) == Some(nodes[k]) && |chunks[k]| == NodeSize(nodes[k])
    {
      assert nodes[k] in nodes;
      NodeRoundTrip(nodes[k]);
    }
    FramesRecovered(chunks, LENGTH);
  }

  /** The `k`th node, as the reader finds it. */
  lemma FoundAt(cfg: Config, k: nat)
    requires Buildable(cfg) && k < |Nodes(cfg)|
    ensures NodeAt(Table(cfg), Start(Chunks(Nodes(cfg)), NODE_OFFSET, k)) == Some(Nodes(cfg)[k])
  {
    hide Nodes, Serialize, ParseNode, Frames, Table, IndexAt, Buildable, Start;
    WalkRecovers(cfg);
    IndexAtStart(Chunks(Nodes(cfg)), NODE_OFFSET, k);
  }

  /** How many bytes precede the first nodes of the table. */
  lemma {:induction false} SmmuPlace(cfg: Config, k: nat)
    requires Buildable(cfg) && k <= |cfg.smmus|
    ensures Start(Chunks(Nodes(cfg)), NODE_OFFSET, |ItsNodes(cfg)| + k) == SmmuPosition(cfg, k)
  {
    hide Serialize, Concat, Buildable, SmmuNodeOf, RcNodeOf, RmrNodes, ParseNode, Frames, Table;
    var nodes := Nodes(cfg);
    var chunks, n := Chunks(nodes), |ItsNodes(cfg)| + k;
    WalkRecovers(cfg);
    ConcatNothing();
    if n == 0 {
      assert chunks[..0] == [];
    } else {
      assert chunks[..n] == chunks[..n - 1] + [chunks[n - 1]];
      ConcatOne(chunks[..n - 1], chunks[n - 1]);
      if k == 0 {
        assert chunks[..0] == [];
        assert nodes[0] == ItsNode([cfg.its.value]);
      } else {
        SmmuPlace(cfg, k - 1);
        assert nodes[n - 1] == SmmuNodeOf(cfg, cfg.smmus[k - 1]);
        SmmuSize(cfg, cfg.smmus[k - 1]);
      }
    }
  }

  lemma SmmuFits32(cfg: Config, k: nat)
    requires Buildable(cfg) && k <= |cfg.smmus|
    ensures SmmuOffset(cfg, k) == SmmuPosition(cfg, k)
  {
    hide SmmuFits, RmrFits, NodeCount;
  }

  lemma SmmuStart(cfg: Config, k: nat)
    requires Buildable(cfg) && k <= |cfg.smmus|
    ensures Start(Chunks(Nodes(cfg)), NODE_OFFSET, |ItsNodes(cfg)| + k) == SmmuOffset(cfg, k)
  {
    hide Buildable, Nodes, Chunks, Start, SmmuPosition, SmmuOffset, ItsNodes;
    SmmuPlace(cfg, k);
    SmmuFits32(cfg, k);
  }

  lemma SmmuSize(cfg: Config, smmu: Smmu)
    ensures NodeSize(SmmuNodeOf(cfg, smmu)) == if cfg.its.Some? then 108 else 68
  {
  }

  lemma ItsFound(cfg: Config)
    requires Buildable(cfg) && cfg.its.Some?
    ensures NodeAt(Table(cfg), NODE_OFFSET) == Some(ItsNode([cfg.its.value]))
  {
    hide Serialize, Concat, Buildable, SmmuNodeOf, RcNodeOf, RmrNodes, Table, NodeAt;
    var chunks := Chunks(Nodes(cfg));
    assert chunks[..0] == [];
    ConcatNothing();
    FoundAt(cfg, 0);
  }

  lemma SmmuFound(cfg: Config, k: nat)
    requires Buildable(cfg) && k < |cfg.smmus|
    ensures NodeAt(Table(cfg), SmmuOffset(cfg, k)) == Some(SmmuNodeOf(cfg, cfg.smmus[k]))
  {
    hide Serialize, Concat, Buildable, SmmuNodeOf, RcNodeOf, RmrNodes, Table, NodeAt, Start;
    SmmuStart(cfg, k);
    FoundAt(cfg, |ItsNodes(cfg)| + k);
  }

  /** Where the root complex node of a bridge stands. */
  function RcOffset(cfg: Config, j: nat): nat
    requires j < |cfg.bridges|
  {
    Start(Chunks(Nodes(cfg)), NODE_OFFSET, |ItsNodes(cfg)| + |cfg.smmus| + j)
  }

  lemma RcFound(cfg: Config, j: nat)
    requires Buildable(cfg) && j < |cfg.bridges|
    ensures NodeAt(Table(cfg), RcOffset(cfg, j)) == Some(RcNodeOf(cfg, cfg.bridges[j]))
    ensures forall k :: 0 <= k < |cfg.smmus| ==> SmmuOffset(cfg, k) < RcOffset(cfg, j)
    ensures NODE_OFFSET < RcOffset(cfg, j) || (cfg.its.None? && cfg.smmus == [])
  {
    hide Serialize, Concat, Buildable, SmmuNodeOf, RcNodeOf, RmrNodes, Table, NodeAt, SmmuOffset;
    var n := |ItsNodes(cfg)| + |cfg.smmus|;
    FoundAt(cfg, n + j);
    SmmuPlace(cfg, |cfg.smmus|);
    forall k | 0 <= k < |cfg.smmus| ensures SmmuOffset(cfg, k) == SmmuPosition(cfg, k) { SmmuFits32(cfg, k); }
    var chunks := Chunks(Nodes(cfg));
    assert chunks[..n + j] == chunks[..n] + chunks[n..n + j];
    ConcatAppend(chunks[..n], chunks[n..n + j]);
  }

  lemma {:induction false} RmrCount(cfg: Config, n: nat)
    requires n <= |cfg.smmus|
    ensures |RmrNodes(cfg, n)| == ReservedCount(cfg.smmus[..n])
  {
    hide RmrNodeOf;
    if n > 0 {
      RmrCount(cfg, n - 1);
      assert cfg.smmus[..n][..n - 1] == cfg.smmus[..n - 1];
    }
  }

  /** The declared node count is the number of nodes a walk finds. */
  lemma NodeCountDeclared(cfg: Config)
    requires Buildable(cfg)
    ensures Frames(Table(cfg), LENGTH).Some? && |Frames(Table(cfg), LENGTH).value| == DeclaredCount(cfg)
  {
    hide Frames, Table, Serialize, RmrNodes, ReservedCount, SmmuFits, RmrFits;
    WalkRecovers(cfg);
    RmrCount(cfg, |cfg.smmus|);
    assert cfg.smmus[..|cfg.smmus|] == cfg.smmus;
  }

  /** The kind of node a mapping of `from` may lead to. */
  predicate RightTarget(cfg: Config, from: Node, to: Option<Node>) {
    match from
    case ItsNode(_) => false
    case SmmuNode(_, _, _, _, _, _, _) => to.Some? && to.value.ItsNode?
    case RcNode(index, _, _) =>
      && to.Some?
      && (to.value.SmmuNode? || to.value.ItsNode?)
      && (to.value.SmmuNode? ==> to.value.id == index)
      && (to.value.ItsNode? ==> FindSmmu(cfg.smmus, index).None?)
    case RmrNode(id, _, ranges) =>
      && to.Some? && to.value.SmmuNode?
      && RMR_FIRST_ID <= id < RMR_FIRST_ID + |cfg.smmus|
      && to.value.id == cfg.smmus[id - RMR_FIRST_ID].rcIndex
      && ranges == cfg.smmus[id - RMR_FIRST_ID].reserved != []
  }

  lemma {:induction false} RmrMember(cfg: Config, n: nat, node: Node)
    requires n <= |cfg.smmus| && node in RmrNodes(cfg, n)
    ensures exists k :: 0 <= k < n && cfg.smmus[k].reserved != [] && node == RmrNodeOf(cfg, k)
  {
    hide RmrNodeOf;
    if node in RmrNodes(cfg, n - 1) { RmrMember(cfg, n - 1, node); }
  }

  lemma RcReference(cfg: Config, bridge: Bridge, m: Mapping)
    requires Buildable(cfg) && m in RcNodeOf(cfg, bridge).mappings
    ensures RightTarget(cfg, RcNodeOf(cfg, bridge), NodeAt(Table(cfg), m.outputReference))
  {
    hide Serialize, Concat, Buildable, Table, NodeAt, SmmuOffset;
    match FindSmmu(cfg.smmus, bridge.index)
    case Some(k) => SmmuFound(cfg, k);
    case None => if cfg.its.Some? { ItsFound(cfg); }
  }

  lemma RmrReference(cfg: Config, k: nat, m: Mapping)
    requires Buildable(cfg) && k < |cfg.smmus| && cfg.smmus[k].reserved != [] && m in RmrNodeOf(cfg, k).mappings
    ensures RightTarget(cfg, RmrNodeOf(cfg, k), NodeAt(Table(cfg), m.outputReference))
  {
    hide Serialize, Concat, Buildable, Table, NodeAt, SmmuOffset;
    SmmuFound(cfg, FindSmmu(cfg.smmus, cfg.smmus[k].rcIndex).value);
  }

  /** Every output reference is the start of a node of the required kind. */
  lemma ReferencesResolve(cfg: Config, node: Node, m: Mapping)
    requires Buildable(cfg) && node in Nodes(cfg) && !node.ItsNode? && m in node.mappings
    ensures RightTarget(cfg, node, NodeAt(Table(cfg), m.outputReference))
  {
    hide Serialize, Concat, Buildable, Table, NodeAt, RmrNodes, RcNodeOf, RmrNodeOf;
    if node in SmmuNodes(cfg, |cfg.smmus|) {
      if cfg.its.Some? { ItsFound(cfg); }
    } else if node in RcNodes(cfg, |cfg.bridges|) {
      var j :| 0 <= j < |cfg.bridges| && node == RcNodeOf(cfg, cfg.bridges[j]);
      RcReference(cfg, cfg.bridges[j], m);
    } else {
      RmrMember(cfg, |cfg.smmus|, node);
      var k :| 0 <= k < |cfg.smmus| && cfg.smmus[k].reserved != [] && node == RmrNodeOf(cfg, k);
      RmrReference(cfg, k, m);
    }
  }

  // ---- What a reader learns about each node ----

  /** The root complex node of a bridge names the bridge and its segment. */
  lemma RcFields(cfg: Config, j: nat)
    requires Buildable(cfg) && j < |cfg.bridges|
    ensures var node := NodeAt(Table(cfg), RcOffset(cfg, j));
            && node.Some? && node.value.RcNode?
            && node.value.id == cfg.bridges[j].index && node.value.segment == cfg.bridges[j].segment
            && |node.value.mappings| ==
                 (if cfg.its.Some? || exists k :: 0 <= k < |cfg.smmus| && cfg.smmus[k].rcIndex == cfg.bridges[j].index then 1 else 0)
  {
    hide NodeAt, Table, Buildable, RcOffset, FindSmmu;
    RcFound(cfg, j);
  }

  /** The SMMU node stands where its offset says, with its own registers and interrupts; it is
      coherent, and its device ID mapping is the second one, valid when there is an ITS. */
  lemma SmmuFields(cfg: Config, k: nat)
    requires Buildable(cfg) && k < |cfg.smmus|
    ensures var node, smmu := NodeAt(Table(cfg), SmmuOffset(cfg, k)), cfg.smmus[k];
            && node.Some? && node.value.SmmuNode?
            && node.value.id == smmu.rcIndex && node.value.base == smmu.base
            && node.value.eventGsiv == smmu.eventGsiv && node.value.gerrGsiv == smmu.gerrGsiv
            && node.value.flags % 2 == 1 && (node.value.flags / 16 % 2 == 1 <==> cfg.its.Some?)
            && (if cfg.its.Some? then
                  node.value.deviceIdMapping == 1 && |node.value.mappings| == 2 && node.value.mappings[1].flags == 1
                else
                  node.value.deviceIdMapping == 0 && node.value.mappings == [])
  {
    hide NodeAt, Table, Buildable, SmmuOffset;
    SmmuFound(cfg, k);
  }

  /** The ITS group comes first and holds the one ITS. */
  lemma ItsFields(cfg: Config)
    requires Buildable(cfg) && cfg.its.Some?
    ensures NodeAt(Table(cfg), NODE_OFFSET) == Some(ItsNode([cfg.its.value]))
  {
    hide NodeAt, Table, Buildable;
    ItsFound(cfg);
  }

  /** Where the reserved-memory node of an SMMU stands: behind those of the SMMUs before it. */
  function RmrOffset(cfg: Config, k: nat): nat
    requires k < |cfg.smmus| && cfg.smmus[k].reserved != []
  {
    RmrCount(cfg, |cfg.smmus|);
    RmrAt(cfg, |cfg.smmus|, k);
    Start(Chunks(Nodes(cfg)), NODE_OFFSET, |ItsNodes(cfg)| + |cfg.smmus| + |cfg.bridges| + ReservedCount(cfg.smmus[..k]))
  }

  lemma {:induction false} RmrAt(cfg: Config, n: nat, k: nat)
    requires k < n <= |cfg.smmus| && cfg.smmus[k].reserved != []
    ensures ReservedCount(cfg.smmus[..k]) < |RmrNodes(cfg, n)|
    ensures RmrNodes(cfg, n)[ReservedCount(cfg.smmus[..k])] == RmrNodeOf(cfg, k)
  {
    hide RmrNodeOf, ReservedCount;
    if k < n - 1 { RmrAt(cfg, n - 1, k); } else { RmrCount(cfg, n - 1); }
  }

  /** An SMMU with reserved ranges has a reserved-memory node with exactly those ranges and its own
      number, for all BDFs of the SMMU it belongs to. */
  lemma RmrFields(cfg: Config, k: nat)
    requires Buildable(cfg) && k < |cfg.smmus| && cfg.smmus[k].reserved != []
    ensures var node := NodeAt(Table(cfg), RmrOffset(cfg, k));
            && node.Some? && node.value.RmrNode?
            && node.value.id == 0x1000 + k && node.value.ranges == cfg.smmus[k].reserved
            && |node.value.mappings| == 1 && node.value.mappings[0].inputBase == 0
            && node.value.mappings[0].idCount == 0xFFFF && node.value.mappings[0].outputBase == 0
  {
    hide NodeAt, Table, Buildable, SmmuNodes, RcNodes, RmrNodes, ReservedCount, Chunks, Start;
    var at := |ItsNodes(cfg)| + |cfg.smmus| + |cfg.bridges| + ReservedCount(cfg.smmus[..k]);
    RmrAt(cfg, |cfg.smmus|, k);
    NodesSizes(cfg);
    assert Nodes(cfg)[at] == RmrNodeOf(cfg, k);
    FoundAt(cfg, at);
  }

  lemma NodesSizes(cfg: Config)
    ensures |SmmuNodes(cfg, |cfg.smmus|)| == |cfg.smmus| && |RcNodes(cfg, |cfg.bridges|)| == |cfg.bridges|
  {
  }

  /** The bytes of a node that do not depend on the configuration: its type and revision, and for a
      root complex coherent memory, no address translation and 64 address bits. */
  lemma ConstantBytes(n: Node)
    ensures var b := Serialize(n);
            match n
            case ItsNode(_) => |b| >= 20 && b[0] == 0 && b[3] == 1
            case SmmuNode(_, _, _, _, _, _, _) =>
              |b| >= 68 && b[0] == 4 && b[3] == 5 && b[28..44] == Zeros(16) && b[48..52] == Zeros(4) && b[56..64] == Zeros(8)
            case RcNode(_, _, _) =>
              |b| >= 36 && b[0] == 2 && b[3] == 3 && b[16..24] == Le32(1) + [0, 0, 0, 3] && b[24..28] == Zeros(4) &&
              b[32..36] == [64, 0, 0, 0]
            case RmrNode(_, _, _) => |b| >= 28 && b[0] == 6 && b[3] == 3 && b[16..20] == Zeros(4)
  {
    hide Words, Concat, AllMappings, AllRanges, SmmuHead, RcHead, RmrHead;
    match n
    case ItsNode(_) =>
    case SmmuNode(id, base, flags, event, gerr, index, ms) =>
      SmmuHeadBytes(id, base, flags, event, gerr, index, |ms|, Concat(AllMappings(ms)));
    case RcNode(id, segment, ms) => RcHeadBytes(id, segment, |ms|, Concat(AllMappings(ms)));
    case RmrNode(id, ms, rs) =>
      var tail := Concat(AllMappings(ms)) + Concat(AllRanges(rs));
      assert Serialize(n) == RmrHead(id, |ms|, |rs|) + tail;
      RmrHeadBytes(id, |ms|, |rs|, tail);
  }

  lemma SmmuHeadBytes(id: nat, base: nat, flags: nat, event: nat, gerr: nat, index: nat, mappings: nat, tail: Bytes)
    ensures var b := SmmuHead(id, base, flags, event, gerr, index, mappings) + tail;
            b[0] == 4 && b[3] == 5 && b[28..44] == Zeros(16) && b[48..52] == Zeros(4) && b[56..64] == Zeros(8)
  {
    hide Le16, Le32, Le64, Zeros;
  }

  lemma RcHeadBytes(id: nat, segment: nat, mappings: nat, tail: Bytes)
    ensures var b := RcHead(id, segment, mappings) + tail;
            b[0] == 2 && b[3] == 3 && b[16..24] == Le32(1) + [0, 0, 0, 3] && b[24..28] == Zeros(4) && b[32..36] == [64, 0, 0, 0]
  {
    hide Le16, Le32, Zeros;
  }

  lemma RmrHeadBytes(id: nat, mappings: nat, ranges: nat, tail: Bytes)
    ensures var b := RmrHead(id, mappings, ranges) + tail; b[0] == 6 && b[3] == 3 && b[16..20] == Zeros(4)
  {
    hide Le16, Le32, Zeros;
  }

  // ---- Routing ----

  /** Translates an ID by the first range mapping that covers it; the ID count is one less than the
      number of IDs. */
  function Translate(ms: seq<Mapping>, id: nat): Option<(nat, nat)> {
    if ms == [] then None
    else
      var m := ms[0];
      if m.flags % 2 == 0 && m.inputBase <= id <= m.inputBase + m.idCount then
        Some((id - m.inputBase + m.outputBase, m.outputReference))
      else Translate(ms[1..], id)
  }

  datatype Delivery = Delivery(its: nat, deviceId: nat)

  /** Follows ID mappings from node to node; references always lead backwards. */
  function Route(b: Bytes, offset: nat, id: nat): Option<Delivery>
    decreases offset
  {
    match NodeAt(b, offset)
    case None => None
    case Some(ItsNode(_)) => Some(Delivery(offset, id))
    case Some(node) =>
      match Translate(node.mappings, id)
      case None => None
      case Some((out, target)) => if target < offset then Route(b, target, out) else None
  }

  /** The segment that ends up in the device IDs of a bridge's functions. */
  function RoutedSegment(cfg: Config, bridge: Bridge): nat {
    match FindSmmu(cfg.smmus, bridge.index)
    case None => bridge.segment
    case Some(k) => cfg.smmus[k].segment
  }

  lemma RouteStep(b: Bytes, offset: nat, id: nat, node: Node, out: nat, target: nat)
    requires NodeAt(b, offset) == Some(node) && !node.ItsNode? && target < offset
    requires Translate(node.mappings, id) == Some((out, target))
    ensures Route(b, offset, id) == Route(b, target, out)
  {
    hide NodeAt, Translate;
  }

  lemma ItsReached(cfg: Config, id: nat)
    requires Buildable(cfg) && cfg.its.Some?
    ensures Route(Table(cfg), NODE_OFFSET, id) == Some(Delivery(NODE_OFFSET, id))
  {
    hide NodeAt, Table, Buildable;
    ItsFound(cfg);
  }

  lemma SmmuRoutes(cfg: Config, k: nat, bdf: nat)
    requires Buildable(cfg) && cfg.its.Some? && k < |cfg.smmus| && bdf < U16_LIMIT
    ensures Route(Table(cfg), SmmuOffset(cfg, k), bdf) ==
              Some(Delivery(NODE_OFFSET, cfg.smmus[k].segment * SEGMENT_STRIDE + bdf))
  {
    hide NodeAt, Table, Buildable, Route;
    var id := cfg.smmus[k].segment * SEGMENT_STRIDE + bdf;
    SmmuFound(cfg, k);
    SmmuFits32(cfg, k);
    RouteStep(Table(cfg), SmmuOffset(cfg, k), bdf, SmmuNodeOf(cfg, cfg.smmus[k]), id, NODE_OFFSET);
    ItsReached(cfg, id);
  }

  /** From any root complex, any BDF arrives at the ITS group, through an SMMU or not, with a device
      ID made of the routed segment and the BDF. */
  lemma RcRoutes(cfg: Config, j: nat, bdf: nat)
    requires Buildable(cfg) && cfg.its.Some? && j < |cfg.bridges| && bdf < U16_LIMIT
    ensures Route(Table(cfg), RcOffset(cfg, j), bdf) ==
              Some(Delivery(NODE_OFFSET, RoutedSegment(cfg, cfg.bridges[j]) * SEGMENT_STRIDE + bdf))
  {
    hide NodeAt, Table, Buildable, Route, RcOffset;
    var bridge := cfg.bridges[j];
    var here, node := RcOffset(cfg, j), RcNodeOf(cfg, bridge);
    RcFound(cfg, j);
    match FindSmmu(cfg.smmus, bridge.index)
    case Some(k) =>
      RouteStep(Table(cfg), here, bdf, node, bdf, SmmuOffset(cfg, k));
      SmmuRoutes(cfg, k, bdf);
    case None =>
      var id := bridge.segment * SEGMENT_STRIDE + bdf;
      RouteStep(Table(cfg), here, bdf, node, id, NODE_OFFSET);
      ItsReached(cfg, id);
  }

  /** The device IDs of a bridge are (segment << 16) | BDF exactly when the first SMMU that covers
      the bridge, if any, has the bridge's segment. */
  lemma RoutingExact(cfg: Config, j: nat)
    requires Buildable(cfg) && cfg.its.Some? && j < |cfg.bridges|
    ensures var bridge := cfg.bridges[j];
            (forall bdf: nat :: bdf < U16_LIMIT ==>
               Route(Table(cfg), RcOffset(cfg, j), bdf) ==
                 Some(Delivery(NODE_OFFSET, bridge.segment * SEGMENT_STRIDE + bdf)))
            <==> RoutedSegment(cfg, bridge) == bridge.segment
  {
    hide Table, Buildable, Route, RcOffset, RoutedSegment;
    forall bdf: nat | bdf < U16_LIMIT
      ensures Route(Table(cfg), RcOffset(cfg, j), bdf) ==
                Some(Delivery(NODE_OFFSET, RoutedSegment(cfg, cfg.bridges[j]) * SEGMENT_STRIDE + bdf))
    {
      RcRoutes(cfg, j, bdf);
    }
    assert Route(Table(cfg), RcOffset(cfg, j), 0).Some?;
  }

  /** Functions with different (segment, BDF) never share a device ID. */
  lemma DeviceIdsDistinct(cfg: Config, i: nat, j: nat, x: nat, y: nat)
    requires Buildable(cfg) && cfg.its.Some? && i < |cfg.bridges| && j < |cfg.bridges|
    requires x < U16_LIMIT && y < U16_LIMIT
    requires RoutedSegment(cfg, cfg.bridges[i]) == cfg.bridges[i].segment
    requires RoutedSegment(cfg, cfg.bridges[j]) == cfg.bridges[j].segment
    requires (cfg.bridges[i].segment, x) != (cfg.bridges[j].segment, y)
    ensures Route(Table(cfg), RcOffset(cfg, i), x) != Route(Table(cfg), RcOffset(cfg, j), y)
  {
    hide Table, Buildable, Route, RcOffset, RoutedSegment;
    RcRoutes(cfg, i, x);
    RcRoutes(cfg, j, y);
  }

  // ---- The builder ----

  datatype Built = Built(nodeCount: nat, extra: Bytes)

  function FindOffset(offsets: seq<(nat, nat)>, index: nat): Option<nat> {
    if offsets == [] then None
    else if offsets[0].0 == index then Some(offsets[0].1)
    else FindOffset(offsets[1..], index)
  }

  lemma {:induction false} FindOffsetAgrees(smmus: seq<Smmu>, offsets: seq<(nat, nat)>, index: nat)
    requires |offsets| == |smmus| && forall k :: 0 <= k < |smmus| ==> offsets[k].0 == smmus[k].rcIndex
    ensures match FindSmmu(smmus, index)
            case None => FindOffset(offsets, index) == None
            case Some(k) => FindOffset(offsets, index) == Some(offsets[k].1)
  {
    if smmus != [] { FindOffsetAgrees(smmus[1..], offsets[1..], index); }
  }

  lemma Append(nodes: seq<Node>, node: Node)
    ensures Concat(Chunks(nodes + [node])) == Concat(Chunks(nodes)) + Serialize(node)
  {
    hide Serialize, Concat;
    assert Chunks(nodes + [node]) == Chunks(nodes) + [Serialize(node)];
    ConcatOne(Chunks(nodes), Serialize(node));
  }

  lemma FewMappings(a: Mapping, b: Mapping)
    ensures Concat(AllMappings([])) == [] && Concat(AllMappings([a])) == MappingBytes(a)
    ensures Concat(AllMappings([a, b])) == MappingBytes(a) + MappingBytes(b)
  {
    hide MappingBytes, Concat;
    ConcatNothing();
    assert AllMappings([]) == [];
    assert AllMappings([a]) == [] + [MappingBytes(a)] == [MappingBytes(a)];
    ConcatOne([], MappingBytes(a));
    assert Concat([MappingBytes(a)]) == MappingBytes(a);
    assert AllMappings([a, b]) == [MappingBytes(a)] + [MappingBytes(b)];
    ConcatOne([MappingBytes(a)], MappingBytes(b));
  }

  lemma SmmuBytes(cfg: Config, smmu: Smmu)
    ensures Serialize(SmmuNodeOf(cfg, smmu)) ==
              if cfg.its.Some? then
                SmmuHead(smmu.rcIndex, smmu.base, 0x11, smmu.eventGsiv, smmu.gerrGsiv, 1, 2)
                + MappingBytes(AllBdfs(smmu.segment * SEGMENT_STRIDE, NODE_OFFSET))
                + MappingBytes(Mapping(0, 0, 0, NODE_OFFSET, SINGLE_MAPPING))
              else SmmuHead(smmu.rcIndex, smmu.base, 1, smmu.eventGsiv, smmu.gerrGsiv, 0, 0)
  {
    hide SmmuHead, MappingBytes, Concat, AllMappings;
    FewMappings(AllBdfs(smmu.segment * SEGMENT_STRIDE, NODE_OFFSET), Mapping(0, 0, 0, NODE_OFFSET, SINGLE_MAPPING));
  }

  lemma RcBytes(id: nat, segment: nat, m: Mapping)
    ensures Serialize(RcNode(id, segment, [])) == RcHead(id, segment, 0)
    ensures Serialize(RcNode(id, segment, [m])) == RcHead(id, segment, 1) + MappingBytes(m)
  {
    hide RcHead, MappingBytes, Concat, AllMappings;
    FewMappings(m, m);
  }

  method EmitSmmu(cfg: Config, before: Bytes, smmu: Smmu) returns (extra: Bytes)
    ensures extra == before + Serialize(SmmuNodeOf(cfg, smmu))
    ensures |extra| == |before| + (if cfg.its.Some? then 108 else 68)
  {
    hide SmmuHead, MappingBytes, SmmuNodeOf, Serialize;
    if cfg.its.Some? {
      extra := before + SmmuHead(smmu.rcIndex, smmu.base, 0x11, smmu.eventGsiv, smmu.gerrGsiv, 1, 2);
      extra := extra + MappingBytes(Mapping(0, 0xFFFF, smmu.segment * SEGMENT_STRIDE, NODE_OFFSET, 0));
      extra := extra + MappingBytes(Mapping(0, 0, 0, NODE_OFFSET, SINGLE_MAPPING));
    } else {
      extra := before + SmmuHead(smmu.rcIndex, smmu.base, 1, smmu.eventGsiv, smmu.gerrGsiv, 0, 0);
    }
    SmmuBytes(cfg, smmu);
  }

  lemma SmmuNext(cfg: Config, i: nat)
    ensures SmmuPosition(cfg, i + 1) == SmmuPosition(cfg, i) + (if cfg.its.Some? then 108 else 68)
    ensures SmmuOffset(cfg, i) == SmmuPosition(cfg, i) % U32_LIMIT
  {
  }

  method EmitSmmus(cfg: Config, before: Bytes) returns (extra: Bytes, offsets: seq<(nat, nat)>)
    requires before == Concat(Chunks(ItsNodes(cfg))) && NODE_OFFSET + |before| == SmmuPosition(cfg, 0)
    ensures extra == Concat(Chunks(ItsNodes(cfg) + SmmuNodes(cfg, |cfg.smmus|)))
    ensures |offsets| == |cfg.smmus|
    ensures forall k :: 0 <= k < |offsets| ==> offsets[k] == (cfg.smmus[k].rcIndex, SmmuOffset(cfg, k))
  {
    hide Concat, Chunks, SmmuNodeOf, Serialize, SmmuPosition, SmmuOffset;
    extra, offsets := before, [];
    assert ItsNodes(cfg) + SmmuNodes(cfg, 0) == ItsNodes(cfg);
    for i := 0 to |cfg.smmus|
      invariant extra == Concat(Chunks(ItsNodes(cfg) + SmmuNodes(cfg, i)))
      invariant NODE_OFFSET + |extra| == SmmuPosition(cfg, i)
      invariant |offsets| == i
      invariant forall k :: 0 <= k < i ==> offsets[k] == (cfg.smmus[k].rcIndex, SmmuOffset(cfg, k))
    {
      var smmu := cfg.smmus[i];
      ghost var nodes := ItsNodes(cfg) + SmmuNodes(cfg, i);
      SmmuNext(cfg, i);
      offsets := offsets + [(smmu.rcIndex, (NODE_OFFSET + |extra|) % U32_LIMIT)];
      extra := EmitSmmu(cfg, extra, smmu);
      Append(nodes, SmmuNodeOf(cfg, smmu));
      assert nodes + [SmmuNodeOf(cfg, smmu)] == ItsNodes(cfg) + SmmuNodes(cfg, i + 1);
    }
  }

  method EmitRcs(cfg: Config, before: Bytes, offsets: seq<(nat, nat)>, ghost nodes: seq<Node>) returns (extra: Bytes)
    requires before == Concat(Chunks(nodes)) && |offsets| == |cfg.smmus|
    requires forall k :: 0 <= k < |offsets| ==> offsets[k] == (cfg.smmus[k].rcIndex, SmmuOffset(cfg, k))
    ensures extra == Concat(Chunks(nodes + RcNodes(cfg, |cfg.bridges|)))
  {
    hide Concat, Chunks, RcHead, MappingBytes, Serialize, SmmuOffset;
    extra := before;
    assert nodes + RcNodes(cfg, 0) == nodes;
    for j := 0 to |cfg.bridges|
      invariant extra == Concat(Chunks(nodes + RcNodes(cfg, j)))
    {
      var bridge := cfg.bridges[j];
      ghost var start, done := extra, nodes + RcNodes(cfg, j);
      var smmu := FindOffset(offsets, bridge.index);
      FindOffsetAgrees(cfg.smmus, offsets, bridge.index);
      var count, target, hasSmmu :=
        if smmu.Some? then 1 else if cfg.its.Some? then 1 else 0,
        if smmu.Some? then smmu.value else if cfg.its.Some? then NODE_OFFSET else 0,
        smmu.Some?;
      extra := extra + RcHead(bridge.index, bridge.segment, count);
      var base := if hasSmmu then 0 else bridge.segment * SEGMENT_STRIDE;
      if count > 0 {
        extra := extra + MappingBytes(Mapping(0, 0xFFFF, base, target, 0));
      }
      RcBytes(bridge.index, bridge.segment, AllBdfs(base, target));
      assert extra == start + Serialize(RcNodeOf(cfg, bridge));
      Append(done, RcNodeOf(cfg, bridge));
      assert done + [RcNodeOf(cfg, bridge)] == nodes + RcNodes(cfg, j + 1);
    }
  }

  lemma NoRmrNodes(cfg: Config)
    ensures RmrNodes(cfg, 0) == []
  {
  }

  lemma RmrNodesNext(cfg: Config, i: nat)
    requires i < |cfg.smmus|
    ensures if cfg.smmus[i].reserved == [] then RmrNodes(cfg, i + 1) == RmrNodes(cfg, i) && RmrFits(cfg.smmus[i])
            else RmrNodes(cfg, i + 1) == RmrNodes(cfg, i) + [RmrNodeOf(cfg, i)]
  {
    hide RmrNodeOf;
  }

  lemma RmrNodeIs(cfg: Config, i: nat)
    requires i < |cfg.smmus|
    ensures var target := FindSmmu(cfg.smmus, cfg.smmus[i].rcIndex);
            RmrNodeOf(cfg, i) == RmrNode(RMR_FIRST_ID + i, [AllBdfs(0, SmmuOffset(cfg, target.value))], cfg.smmus[i].reserved)
  {
  }

  method EmitRmrs(cfg: Config, before: Bytes, offsets: seq<(nat, nat)>, ghost nodes: seq<Node>)
    returns (extra: Option<Bytes>)
    requires before == Concat(Chunks(nodes)) && |offsets| == |cfg.smmus|
    requires forall k :: 0 <= k < |offsets| ==> offsets[k] == (cfg.smmus[k].rcIndex, SmmuOffset(cfg, k))
    ensures extra.Some? <==> forall smmu :: smmu in cfg.smmus ==> RmrFits(smmu)
    ensures extra.Some? ==> extra.value == Concat(Chunks(nodes + RmrNodes(cfg, |cfg.smmus|)))
  {
    hide Concat, Chunks, Serialize, SmmuOffset, FindOffset, RmrFits, FindSmmu, RmrNodes, RmrNodeOf;
    var out := before;
    NoRmrNodes(cfg);
    assert nodes + RmrNodes(cfg, 0) == nodes;
    for i := 0 to |cfg.smmus|
      invariant out == Concat(Chunks(nodes + RmrNodes(cfg, i)))
      invariant forall k :: 0 <= k < i ==> RmrFits(cfg.smmus[k])
    {
      var smmu := cfg.smmus[i];
      RmrNodesNext(cfg, i);
      if smmu.reserved == [] {
        continue;
      }
      FindOffsetAgrees(cfg.smmus, offsets, smmu.rcIndex);
      var target := FindOffset(offsets, smmu.rcIndex).value;
      RmrNodeIs(cfg, i);
      if !RmrFits(smmu) {
        assert smmu in cfg.smmus;
        return None;
      }
      ghost var done := nodes + RmrNodes(cfg, i);
      out := EmitRmr(out, RMR_FIRST_ID + i, target, smmu.reserved);
      Append(done, RmrNodeOf(cfg, i));
      assert done + [RmrNodeOf(cfg, i)] == nodes + RmrNodes(cfg, i + 1);
    }
    extra := Some(out);
  }

  method EmitRmr(before: Bytes, id: nat, target: nat, ranges: seq<Range>) returns (extra: Bytes)
    ensures extra == before + Serialize(RmrNode(id, [AllBdfs(0, target)], ranges))
  {
    hide RmrHead, MappingBytes, RangeBytes, Concat;
    var m := Mapping(0, 0xFFFF, 0, target, 0);
    extra := before + RmrHead(id, 1, |ranges|) + MappingBytes(m);
    ghost var start := extra;
    ConcatNothing();
    assert AllRanges(ranges[..0]) == [];
    for i := 0 to |ranges|
      invariant extra == start + Concat(AllRanges(ranges[..i]))
    {
      extra := extra + RangeBytes(ranges[i]);
      assert AllRanges(ranges[..i + 1]) == AllRanges(ranges[..i]) + [RangeBytes(ranges[i])];
      ConcatOne(AllRanges(ranges[..i]), RangeBytes(ranges[i]));
    }
    assert ranges[..|ranges|] == ranges;
    FewMappings(m, m);
  }

  /** One pass over the configuration emits exactly the table, or fails when a reserved-memory node
      is too long. */
  method Build(cfg: Config) returns (r: Option<Built>)
    ensures r.Some? <==> forall smmu :: smmu in cfg.smmus ==> RmrFits(smmu)
    ensures r.Some? ==> r.value == Built(DeclaredCount(cfg), Table(cfg))
  {
    hide Concat, Chunks, Serialize, SmmuNodes, RcNodes, RmrNodes, RmrFits, Words;
    var itsCount := if cfg.its.Some? then 1 else 0;
    var nodeCount := (itsCount + |cfg.smmus| + |cfg.bridges| + ReservedCount(cfg.smmus)) % U32_LIMIT;
    var extra := [];
    if cfg.its.Some? {
      extra := extra + ItsHead(1);
      extra := extra + Le32(cfg.its.value);
    }
    ItsBytes(cfg);
    var offsets;
    extra, offsets := EmitSmmus(cfg, extra);
    ghost var nodes := ItsNodes(cfg) + SmmuNodes(cfg, |cfg.smmus|);
    extra := EmitRcs(cfg, extra, offsets, nodes);
    var out := EmitRmrs(cfg, extra, offsets, nodes + RcNodes(cfg, |cfg.bridges|));
    r := if out.Some? then Some(Built(nodeCount, out.value)) else None;
  }

  lemma ItsBytes(cfg: Config)
    ensures Concat(Chunks(ItsNodes(cfg))) == if cfg.its.Some? then ItsHead(1) + Le32(cfg.its.value) else []
  {
    hide ItsHead, Le32, Concat;
    ConcatNothing();
    assert Chunks([]) == [];
    if cfg.its.Some? {
      var node := ItsNode([cfg.its.value]);
      Append([], node);
      assert [] + [node] == [node];
      assert [cfg.its.value][..0] == [] && Words([cfg.its.value]) == Words([]) + Le32(cfg.its.value);
    }
  }
}
