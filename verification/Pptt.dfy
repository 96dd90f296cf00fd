/** The Processor Properties Topology Table (section 5.2.29 of the ACPI Specification 6.2).

    The builder appends caches and processors to a byte vector in one pass over the VPs, creating a
    package or a core the first time a VP needs it and remembering its byte offset, and later nodes
    point back to earlier ones by those offsets.  `Layout` lists what is emitted without any offsets
    or maps; `NodeOf` says what each entry must hold.  The reader functions see only bytes. */
module Pptt {
  import opened Wire
  import opened Wrappers

  const HEADER_SIZE := 36

  datatype CacheKind = Data | Instruction | Unified

  datatype Cache = Cache(level: nat, kind: CacheKind, size: nat, associativity: Option<nat>, lineSize: nat)

  datatype Vp = Vp(socket: nat, core: nat)

  datatype Config = Config(vps: seq<Vp>, caches: seq<Cache>, smt: bool)

  /** A node as it stands in the table. */
  datatype Node =
    | CacheNode(flags: nat, nextLevel: nat, size: nat, associativity: nat, attributes: nat, lineSize: nat)
    | ProcessorNode(flags: nat, parent: nat, uid: nat, resources: seq<nat>)

  const PHYSICAL_PACKAGE := 1
  const UID_VALID := 2
  // size, associativity, cache type and line size valid
  const CACHE_FLAGS := 0x55

  const LENGTH := LengthField(1, false)

  /** A processor node without its private resources. */
  function ProcessorHeader(flags: nat, parent: nat, uid: nat, resources: nat): Bytes {
    [0, (20 + 4 * resources) % 256] + Zeros(2) + Le32(flags) + Le32(parent) + Le32(uid) + Le32(resources)
  }

  function Serialize(n: Node): Bytes {
    match n
    case CacheNode(flags, next, size, associativity, attributes, lineSize) =>
      [1, 28] + Zeros(2) + Le32(flags) + Le32(next) + Le32(size) + Zeros(4) + [associativity % 256, attributes % 256]
      + Le16(lineSize) + Zeros(4)
    case ProcessorNode(flags, parent, uid, resources) =>
      ProcessorHeader(flags, parent, uid, |resources|) + Words(resources)
  }

  /** The reader's view of one node. */
  function ParseNode(chunk: Bytes): Option<Node> {
    if |chunk| < 2 then None
    else if chunk[0] == 1 then
      if |chunk| != 28 then None
      else Some(CacheNode(Get32(chunk, 4), Get32(chunk, 8), Get32(chunk, 12), chunk[20], chunk[21],
                          Get16(chunk, 22)))
    else if chunk[0] == 0 then
      if |chunk| < 20 then None
      else
        var n := Get32(chunk, 16);
        if |chunk| != 20 + 4 * n then None
        else Some(ProcessorNode(Get32(chunk, 4), Get32(chunk, 8), Get32(chunk, 12),
                                seq(n, i requires 0 <= i < n => Get32(chunk, 20 + 4 * i))))
    else None
  }

  /** The field values fit their widths and the node length fits its byte. */
  predicate Representable(n: Node) {
    match n
    case CacheNode(flags, next, size, associativity, attributes, lineSize) =>
      && flags < U32_LIMIT && next < U32_LIMIT && size < U32_LIMIT
      && associativity < 256 && attributes < 256 && lineSize < U16_LIMIT
    case ProcessorNode(flags, parent, uid, resources) =>
      && flags < U32_LIMIT && parent < U32_LIMIT && uid < U32_LIMIT
      && |resources| < 59
      && forall i :: 0 <= i < |resources| ==> resources[i] < U32_LIMIT
  }

  function NodeSize(n: Node): nat {
    if n.CacheNode? then 28 else 20 + 4 * |n.resources|
  }

  lemma CacheRoundTrip(n: Node)
    requires Representable(n) && n.CacheNode?
    ensures |Serialize(n)| == 28 && Framed(Serialize(n), LENGTH)
    ensures ParseNode(Serialize(n)) == Some(n)
  {
    hide Get16, Get32, Le16, Le32;
    var b := Serialize(n);
    assert b[4..8] == Le32(n.flags) && b[8..12] == Le32(n.nextLevel);
    assert b[12..16] == Le32(n.size) && b[22..24] == Le16(n.lineSize);
    Get32RoundTrip(b, 4, n.flags);
    Get32RoundTrip(b, 8, n.nextLevel);
    Get32RoundTrip(b, 12, n.size);
    Get16RoundTrip(b, 22, n.lineSize);
  }

  lemma ProcessorRoundTrip(n: Node)
    requires Representable(n) && n.ProcessorNode?
    ensures |Serialize(n)| == 20 + 4 * |n.resources| && Framed(Serialize(n), LENGTH)
    ensures ParseNode(Serialize(n)) == Some(n)
  {
    hide Get32, Le32, Words;
    var b, words := Serialize(n), Words(n.resources);
    assert b[4..8] == Le32(n.flags) && b[8..12] == Le32(n.parent);
    assert b[12..16] == Le32(n.uid) && b[16..20] == Le32(|n.resources|);
    Get32RoundTrip(b, 4, n.flags);
    Get32RoundTrip(b, 8, n.parent);
    Get32RoundTrip(b, 12, n.uid);
    Get32RoundTrip(b, 16, |n.resources|);
    forall i | 0 <= i < |n.resources|
      ensures Get32(b, 20 + 4 * i) == n.resources[i]
    {
      WordReadsBack(b[..20], n.resources, [], i);
      assert b[..20] + words + [] == b;
    }
    assert ParseNode(b).value.resources == n.resources;
  }

  lemma NodeRoundTrip(n: Node)
    requires Representable(n)
    ensures |Serialize(n)| == NodeSize(n) && Framed(Serialize(n), LENGTH)
    ensures ParseNode(Serialize(n)) == Some(n)
  {
    if n.CacheNode? { CacheRoundTrip(n); } else { ProcessorRoundTrip(n); }
  }

  /** The bytes of a node that nothing decides are zero: reserved bytes, the number of sets and the
      cache ID. */
  lemma ConstantBytes(n: Node)
    ensures var b := Serialize(n);
            |b| >= 20 && b[2..4] == Zeros(2) &&
            (n.CacheNode? ==> |b| == 28 && b[16..20] == Zeros(4) && b[24..28] == Zeros(4))
  {
    hide Words, Le32, Le16;
  }

  // ---- What the table holds, without offsets or maps ----

  /** What an entry of the table stands for. */
  datatype Entry =
    | L3(socket: nat)
    | Package(socket: nat)
    | L2(socket: nat, core: nat)
    | L1I(socket: nat, core: nat)
    | L1D(socket: nat, core: nat)
    | Core(socket: nat, core: nat)
    | Thread(vp: nat)

  /** The first cache of the given level and kind. */
  function Find(caches: seq<Cache>, level: nat, kind: CacheKind): Option<Cache> {
    if caches == [] then None
    else if caches[0].level == level && caches[0].kind == kind then Some(caches[0])
    else Find(caches[1..], level, kind)
  }

  function If<T>(cache: Option<Cache>, x: T): seq<T> {
    if cache.Some? then [x] else []
  }

  function CacheOf(cfg: Config, e: Entry): Option<Cache> {
    match e
    case L3(_) => Find(cfg.caches, 3, Unified)
    case L2(_, _) => Find(cfg.caches, 2, Unified)
    case L1I(_, _) => Find(cfg.caches, 1, Instruction)
    case L1D(_, _) => Find(cfg.caches, 1, Data)
    case _ => None
  }

  /** A cache entry, if the machine has such a cache. */
  function Caching(cfg: Config, e: Entry): seq<Entry> {
    If(CacheOf(cfg, e), e)
  }

  function SocketEntries(cfg: Config, s: nat): seq<Entry> {
    Caching(cfg, L3(s)) + [Package(s)]
  }

  function CoreEntries(cfg: Config, s: nat, c: nat): seq<Entry> {
    Caching(cfg, L2(s, c)) + Caching(cfg, L1I(s, c)) + Caching(cfg, L1D(s, c)) + [Core(s, c)]
  }

  function NewSocket(cfg: Config, before: seq<Entry>, vp: Vp): seq<Entry> {
    if Package(vp.socket) in before then [] else SocketEntries(cfg, vp.socket)
  }

  function NewCore(cfg: Config, before: seq<Entry>, vp: Vp): seq<Entry> {
    if Core(vp.socket, vp.core) in before then [] else CoreEntries(cfg, vp.socket, vp.core)
  }

  /** The entries for the first `n` VPs: a socket or core appears with the first VP that needs it. */
  function Layout(cfg: Config, n: nat): seq<Entry>
    requires n <= |cfg.vps|
  {
    if n == 0 then []
    else
      var before, vp := Layout(cfg, n - 1), cfg.vps[n - 1];
      before + NewSocket(cfg, before, vp) + NewCore(cfg, before, vp) + (if cfg.smt then [Thread(n - 1)] else [])
  }

  function Entries(cfg: Config): seq<Entry> {
    Layout(cfg, |cfg.vps|)
  }

  ghost predicate Distinct(l: seq<Entry>) {
    forall i, j :: 0 <= i < j < |l| ==> l[i] != l[j]
  }

  ghost predicate HasVp(cfg: Config, n: nat, s: nat, c: nat)
    requires n <= |cfg.vps|
  {
    exists i :: 0 <= i < n && cfg.vps[i] == Vp(s, c)
  }

  ghost predicate HasSocket(cfg: Config, n: nat, s: nat)
    requires n <= |cfg.vps|
  {
    exists i :: 0 <= i < n && cfg.vps[i].socket == s
  }

  /** Exactly the entries the first `n` VPs call for. */
  ghost predicate Called(cfg: Config, n: nat, e: Entry)
    requires n <= |cfg.vps|
  {
    match e
    case L3(s) => CacheOf(cfg, e).Some? && HasSocket(cfg, n, s)
    case Package(s) => HasSocket(cfg, n, s)
    case Core(s, c) => HasVp(cfg, n, s, c)
    case Thread(i) => cfg.smt && i < n
    case _ => CacheOf(cfg, e).Some? && HasVp(cfg, n, e.socket, e.core)
  }

  lemma DistinctAppend(a: seq<Entry>, b: seq<Entry>)
    requires Distinct(a) && Distinct(b)
    requires forall e :: e in a ==> e !in b
    ensures Distinct(a + b)
  {
    forall i, j | 0 <= i < j < |a + b|
      ensures (a + b)[i] != (a + b)[j]
    {
      if i < |a| <= j { assert a[i] in a && b[j - |a|] in b; }
    }
  }

  lemma CalledStep(cfg: Config, n: nat, e: Entry)
    requires 0 < n <= |cfg.vps|
    ensures var vp := cfg.vps[n - 1];
            Called(cfg, n, e) <==>
              || Called(cfg, n - 1, e)
              || e in SocketEntries(cfg, vp.socket)
              || e in CoreEntries(cfg, vp.socket, vp.core)
              || (cfg.smt && e == Thread(n - 1))
  {
    hide Find;
    var vp := cfg.vps[n - 1];
    assert vp == Vp(vp.socket, vp.core);
    assert forall s :: HasSocket(cfg, n, s) <==> HasSocket(cfg, n - 1, s) || s == vp.socket;
    assert forall s, c :: HasVp(cfg, n, s, c) <==> HasVp(cfg, n - 1, s, c) || Vp(s, c) == vp;
  }

  /** A socket's entries are all called for as soon as its package is, a core's as soon as the core is. */
  lemma FamilyTogether(cfg: Config, n: nat, vp: Vp, e: Entry)
    requires n <= |cfg.vps|
    ensures e in SocketEntries(cfg, vp.socket) ==> (Called(cfg, n, e) <==> Called(cfg, n, Package(vp.socket)))
    ensures e in CoreEntries(cfg, vp.socket, vp.core) ==>
              (Called(cfg, n, e) <==> Called(cfg, n, Core(vp.socket, vp.core)))
  {
  }

  lemma LayoutStep(cfg: Config, n: nat, e: Entry)
    requires 0 < n <= |cfg.vps|
    ensures var before, vp := Layout(cfg, n - 1), cfg.vps[n - 1];
            e in Layout(cfg, n) <==>
              || e in before
              || (Package(vp.socket) !in before && e in SocketEntries(cfg, vp.socket))
              || (Core(vp.socket, vp.core) !in before && e in CoreEntries(cfg, vp.socket, vp.core))
              || (cfg.smt && e == Thread(n - 1))
  {
    hide SocketEntries, CoreEntries;
    var before, vp := Layout(cfg, n - 1), cfg.vps[n - 1];
    var thread := if cfg.smt then [Thread(n - 1)] else [];
    assert Layout(cfg, n) == before + NewSocket(cfg, before, vp) + NewCore(cfg, before, vp) + thread;
  }

  lemma LayoutEmpty(cfg: Config, e: Entry)
    ensures e !in Layout(cfg, 0) && !Called(cfg, 0, e)
  {
  }

  lemma {:induction false} LayoutMember(cfg: Config, n: nat, e: Entry)
    requires n <= |cfg.vps|
    ensures e in Layout(cfg, n) <==> Called(cfg, n, e)
    decreases n
  {
    hide *;
    if n == 0 {
      LayoutEmpty(cfg, e);
    } else {
      var vp := cfg.vps[n - 1];
      LayoutStep(cfg, n, e);
      LayoutMember(cfg, n - 1, e);
      LayoutMember(cfg, n - 1, Package(vp.socket));
      LayoutMember(cfg, n - 1, Core(vp.socket, vp.core));
      CalledStep(cfg, n, e);
      FamilyTogether(cfg, n - 1, vp, e);
    }
  }

  /** What is new for a VP was not there before. */
  lemma NewIsNew(cfg: Config, n: nat, e: Entry)
    requires n < |cfg.vps|
    requires e in Layout(cfg, n)
    ensures e !in NewSocket(cfg, Layout(cfg, n), cfg.vps[n]) && e !in NewCore(cfg, Layout(cfg, n), cfg.vps[n])
    ensures e != Thread(n)
  {
    var vp := cfg.vps[n];
    LayoutMember(cfg, n, e);
    LayoutMember(cfg, n, Package(vp.socket));
    LayoutMember(cfg, n, Core(vp.socket, vp.core));
    FamilyTogether(cfg, n, vp, e);
  }

  lemma EntriesDistinct(cfg: Config, s: nat, c: nat)
    ensures Distinct(SocketEntries(cfg, s)) && Distinct(CoreEntries(cfg, s, c))
    ensures forall e :: e in SocketEntries(cfg, s) ==> e !in CoreEntries(cfg, s, c)
    ensures forall i :: Thread(i) !in SocketEntries(cfg, s) && Thread(i) !in CoreEntries(cfg, s, c)
  {
    hide CacheOf;
  }

  lemma DistinctStep(cfg: Config, n: nat)
    requires n < |cfg.vps| && Distinct(Layout(cfg, n))
    ensures Distinct(Layout(cfg, n + 1))
  {
    hide SocketEntries, CoreEntries, Distinct;
    var before, vp := Layout(cfg, n), cfg.vps[n];
    var socket, core := NewSocket(cfg, before, vp), NewCore(cfg, before, vp);
    EntriesDistinct(cfg, vp.socket, vp.core);
    forall e | e in before
      ensures e !in socket && e !in core && e != Thread(n)
    {
      NewIsNew(cfg, n, e);
    }
    DistinctEmpty(socket);
    DistinctEmpty(core);
    DistinctAppend(before, socket);
    DistinctAppend(before + socket, core);
    DistinctOne(Thread(n));
    if cfg.smt {
      DistinctAppend(before + socket + core, [Thread(n)]);
    } else {
      assert Layout(cfg, n + 1) == before + socket + core;
    }
  }

  lemma LayoutEmptySeq(cfg: Config)
    ensures Layout(cfg, 0) == []
  {
  }

  lemma DistinctEmpty(l: seq<Entry>)
    ensures l == [] ==> Distinct(l)
  {
  }

  lemma DistinctOne(e: Entry)
    ensures Distinct([e])
  {
  }

  lemma {:induction false} LayoutDistinct(cfg: Config, n: nat)
    requires n <= |cfg.vps|
    ensures Distinct(Layout(cfg, n))
  {
    hide *;
    LayoutEmptySeq(cfg);
    DistinctEmpty(Layout(cfg, 0));
    if n > 0 {
      LayoutDistinct(cfg, n - 1);
      DistinctStep(cfg, n - 1);
    }
  }

  /** What the node of an entry points at. */
  function Targets(cfg: Config, e: Entry): seq<Entry> {
    match e
    case Package(s) => Caching(cfg, L3(s))
    case L1I(s, c) => Caching(cfg, L2(s, c))
    case L1D(s, c) => Caching(cfg, L2(s, c))
    case Core(s, c) => [Package(s)] + Caching(cfg, L1I(s, c)) + Caching(cfg, L1D(s, c))
    case Thread(i) => if i < |cfg.vps| then [Core(cfg.vps[i].socket, cfg.vps[i].core)] else []
    case _ => []
  }

  /** Entries point only at entries that come before them. */
  ghost predicate Backward(cfg: Config, l: seq<Entry>) {
    forall k, t :: 0 <= k < |l| && t in Targets(cfg, l[k]) ==> t in l[..k]
  }

  lemma BackwardAppend(cfg: Config, a: seq<Entry>, b: seq<Entry>)
    requires Backward(cfg, a)
    requires forall k, t :: 0 <= k < |b| && t in Targets(cfg, b[k]) ==> t in a || t in b[..k]
    ensures Backward(cfg, a + b)
  {
    hide Targets;
    forall k, t | 0 <= k < |a + b| && t in Targets(cfg, (a + b)[k])
      ensures t in (a + b)[..k]
    {
      if k < |a| {
        assert (a + b)[..k] == a[..k];
      } else {
        assert (a + b)[..k] == a + b[..k - |a|];
      }
    }
  }

  lemma SocketBackward(cfg: Config, s: nat, k: nat, t: Entry)
    requires k < |SocketEntries(cfg, s)| && t in Targets(cfg, SocketEntries(cfg, s)[k])
    ensures t in SocketEntries(cfg, s)[..k]
  {
  }

  lemma CoreBackward(cfg: Config, s: nat, c: nat, k: nat, t: Entry)
    requires k < |CoreEntries(cfg, s, c)| && t in Targets(cfg, CoreEntries(cfg, s, c)[k])
    ensures t == Package(s) || t in CoreEntries(cfg, s, c)[..k]
  {
    var l := CoreEntries(cfg, s, c);
    if l[k] == Core(s, c) {
      assert l[..k] == Caching(cfg, L2(s, c)) + Caching(cfg, L1I(s, c)) + Caching(cfg, L1D(s, c));
    } else {
      assert CacheOf(cfg, L2(s, c)).Some? ==> l[0] == L2(s, c);
    }
  }

  lemma {:induction false} LayoutBackward(cfg: Config, n: nat)
    requires n <= |cfg.vps|
    ensures Backward(cfg, Layout(cfg, n))
  {
    hide Backward, Targets, SocketEntries, CoreEntries;
    if n == 0 {
      BackwardEmpty(cfg);
    } else {
      LayoutBackward(cfg, n - 1);
      var before, vp := Layout(cfg, n - 1), cfg.vps[n - 1];
      var socket, core := NewSocket(cfg, before, vp), NewCore(cfg, before, vp);
      var thread := if cfg.smt then [Thread(n - 1)] else [];
      forall k, t | 0 <= k < |socket| && t in Targets(cfg, socket[k])
        ensures t in before || t in socket[..k]
      {
        SocketBackward(cfg, vp.socket, k, t);
      }
      BackwardAppend(cfg, before, socket);
      forall k, t | 0 <= k < |core| && t in Targets(cfg, core[k])
        ensures t in before + socket || t in core[..k]
      {
        CoreBackward(cfg, vp.socket, vp.core, k, t);
        HeadPresent(cfg, vp);
      }
      BackwardAppend(cfg, before + socket, core);
      forall k, t | 0 <= k < |thread| && t in Targets(cfg, thread[k])
        ensures t in before + socket + core || t in thread[..k]
      {
        ThreadTarget(cfg, n - 1, t);
        HeadPresent(cfg, vp);
      }
      BackwardAppend(cfg, before + socket + core, thread);
    }
  }

  lemma BackwardEmpty(cfg: Config)
    ensures Layout(cfg, 0) == [] && Backward(cfg, [])
  {
  }

  lemma HeadPresent(cfg: Config, vp: Vp)
    ensures Package(vp.socket) in SocketEntries(cfg, vp.socket)
    ensures Core(vp.socket, vp.core) in CoreEntries(cfg, vp.socket, vp.core)
  {
  }

  lemma ThreadTarget(cfg: Config, i: nat, t: Entry)
    requires i < |cfg.vps| && t in Targets(cfg, Thread(i))
    ensures t == Core(cfg.vps[i].socket, cfg.vps[i].core)
  {
  }

  lemma {:induction false} LayoutPrefix(cfg: Config, n: nat, m: nat)
    requires n <= m <= |cfg.vps|
    ensures Layout(cfg, n) <= Layout(cfg, m)
  {
    hide NewSocket, NewCore;
    if n < m { LayoutPrefix(cfg, n, m - 1); }
  }

  // ---- Offsets ----

  function EntrySize(cfg: Config, e: Entry): nat {
    match e
    case Package(s) => 20 + 4 * |Caching(cfg, L3(s))|
    case Core(s, c) => 20 + 4 * |Caching(cfg, L1I(s, c)) + Caching(cfg, L1D(s, c))|
    case Thread(_) => 20
    case _ => 28
  }

  function TotalSize(cfg: Config, l: seq<Entry>): nat {
    if l == [] then 0 else TotalSize(cfg, l[..|l| - 1]) + EntrySize(cfg, l[|l| - 1])
  }

  function IndexOf(l: seq<Entry>, e: Entry): (i: nat)
    ensures i <= |l| && e !in l[..i] && (i < |l| ==> l[i] == e)
  {
    if l == [] || l[0] == e then 0 else 1 + IndexOf(l[1..], e)
  }

  /** The byte offset, from the start of the table, of the node of an entry, in 32 bits. */
  function Offset(cfg: Config, e: Entry): (o: nat)
    ensures o < U32_LIMIT
  {
    (HEADER_SIZE + TotalSize(cfg, Entries(cfg)[..IndexOf(Entries(cfg), e)])) % U32_LIMIT
  }

  lemma {:induction false} TotalSizeAppend(cfg: Config, a: seq<Entry>, b: seq<Entry>)
    ensures TotalSize(cfg, a + b) == TotalSize(cfg, a) + TotalSize(cfg, b)
  {
    hide EntrySize;
    if b == [] {
      assert a + b == a;
    } else {
      TotalSizeAppend(cfg, a, b[..|b| - 1]);
      assert (a + b)[..|a + b| - 1] == a + b[..|b| - 1];
    }
  }

  lemma SizeGrows(cfg: Config, l: seq<Entry>, i: nat, j: nat)
    requires i < j <= |l|
    ensures TotalSize(cfg, l[..i]) + EntrySize(cfg, l[i]) <= TotalSize(cfg, l[..j])
  {
    hide EntrySize;
    assert l[..j] == l[..i + 1] + l[i + 1..j];
    TotalSizeAppend(cfg, l[..i + 1], l[i + 1..j]);
    assert l[..i + 1][..i] == l[..i];
  }

  /** In a layout without repetitions the offset of an entry is what was emitted before it. */
  lemma OffsetAt(cfg: Config, k: nat)
    requires k < |Entries(cfg)|
    ensures Offset(cfg, Entries(cfg)[k]) == (HEADER_SIZE + TotalSize(cfg, Entries(cfg)[..k])) % U32_LIMIT
  {
    hide Layout, TotalSize;
    var l := Entries(cfg);
    LayoutDistinct(cfg, |cfg.vps|);
    var i := IndexOf(l, l[k]);
  }

  const MAX_PER_VP := 184

  lemma {:induction false} LayoutBounded(cfg: Config, n: nat)
    requires n <= |cfg.vps|
    ensures TotalSize(cfg, Layout(cfg, n)) <= MAX_PER_VP * n
  {
    hide *;
    if n == 0 {
      BackwardEmpty(cfg);
      SizeOne(cfg, Thread(0));
    } else {
      LayoutBounded(cfg, n - 1);
      StepBounded(cfg, n);
    }
  }

  lemma StepBounded(cfg: Config, n: nat)
    requires 0 < n <= |cfg.vps|
    ensures TotalSize(cfg, Layout(cfg, n)) <= TotalSize(cfg, Layout(cfg, n - 1)) + MAX_PER_VP
  {
    hide TotalSize, SocketEntries, CoreEntries;
    var before, vp := Layout(cfg, n - 1), cfg.vps[n - 1];
    var socket, core := NewSocket(cfg, before, vp), NewCore(cfg, before, vp);
    var thread := if cfg.smt then [Thread(n - 1)] else [];
    assert Layout(cfg, n) == before + socket + core + thread;
    TotalSizeAppend(cfg, before, socket);
    TotalSizeAppend(cfg, before + socket, core);
    TotalSizeAppend(cfg, before + socket + core, thread);
    FamilySizes(cfg, vp.socket, vp.core, n - 1);
  }

  lemma SizeOne(cfg: Config, e: Entry)
    ensures TotalSize(cfg, []) == 0
    ensures TotalSize(cfg, [e]) == EntrySize(cfg, e)
    ensures TotalSize(cfg, Caching(cfg, e)) <= EntrySize(cfg, e)
  {
    hide EntrySize;
    assert [e][..0] == [];
  }

  lemma FamilySizes(cfg: Config, s: nat, c: nat, i: nat)
    ensures TotalSize(cfg, []) == 0 && TotalSize(cfg, [Thread(i)]) == 20
    ensures TotalSize(cfg, SocketEntries(cfg, s)) <= 52
    ensures TotalSize(cfg, CoreEntries(cfg, s, c)) <= 112
  {
    hide TotalSize, CacheOf;
    var l3, l2, l1i, l1d := Caching(cfg, L3(s)), Caching(cfg, L2(s, c)), Caching(cfg, L1I(s, c)), Caching(cfg, L1D(s, c));
    SizeOne(cfg, L3(s));
    SizeOne(cfg, L2(s, c));
    SizeOne(cfg, L1I(s, c));
    SizeOne(cfg, L1D(s, c));
    SizeOne(cfg, Package(s));
    SizeOne(cfg, Core(s, c));
    SizeOne(cfg, Thread(i));
    TotalSizeAppend(cfg, l3, [Package(s)]);
    TotalSizeAppend(cfg, l2, l1i);
    TotalSizeAppend(cfg, l2 + l1i, l1d);
    TotalSizeAppend(cfg, l2 + l1i + l1d, [Core(s, c)]);
  }

  // ---- The table ----

  function First(vps: seq<Vp>, vp: Vp): (i: nat)
    ensures i <= |vps| && vp !in vps[..i] && (i < |vps| ==> vps[i] == vp)
    ensures vp in vps ==> i < |vps|
  {
    if vps == [] || vps[0] == vp then 0 else 1 + First(vps[1..], vp)
  }

  function Offsets(cfg: Config, es: seq<Entry>): seq<nat> {
    seq(|es|, i requires 0 <= i < |es| => Offset(cfg, es[i]))
  }

  function Attributes(kind: CacheKind): nat {
    match kind
    case Data => 0
    case Instruction => 4
    case Unified => 12
  }

  function Describe(c: Cache, next: nat): Node {
    CacheNode(CACHE_FLAGS, next, c.size,
              if c.associativity.Some? then c.associativity.value % 256 else 0,
              Attributes(c.kind), c.lineSize % U16_LIMIT)
  }

  function NextLevel(cfg: Config, e: Entry): nat {
    match e
    case L1I(s, c) => if CacheOf(cfg, L2(s, c)).Some? then Offset(cfg, L2(s, c)) else 0
    case L1D(s, c) => if CacheOf(cfg, L2(s, c)).Some? then Offset(cfg, L2(s, c)) else 0
    case _ => 0
  }

  /** The node the table must hold for an entry. */
  function NodeOf(cfg: Config, e: Entry): Node {
    match e
    case Package(s) => ProcessorNode(PHYSICAL_PACKAGE, 0, 0, Offsets(cfg, Caching(cfg, L3(s))))
    case Core(s, c) =>
      ProcessorNode(if cfg.smt then 0 else UID_VALID, Offset(cfg, Package(s)),
                    if cfg.smt then 0 else First(cfg.vps, Vp(s, c)) + 1,
                    Offsets(cfg, Caching(cfg, L1I(s, c)) + Caching(cfg, L1D(s, c))))
    case Thread(i) =>
      ProcessorNode(UID_VALID, if i < |cfg.vps| then Offset(cfg, Core(cfg.vps[i].socket, cfg.vps[i].core)) else 0,
                    i + 1, [])
    case _ =>
      match CacheOf(cfg, e)
      case None => CacheNode(0, 0, 0, 0, 0, 0)
      case Some(cache) => Describe(cache, NextLevel(cfg, e))
  }

  /** Cache sizes and the processors' numbers, which start at one, are 32-bit. */
  ghost predicate Typed(cfg: Config) {
    |cfg.vps| < U32_LIMIT && forall c :: c in cfg.caches ==> c.size < U32_LIMIT
  }

  /** And the table is shorter than 4 GiB. */
  ghost predicate Valid(cfg: Config) {
    Typed(cfg) && HEADER_SIZE + MAX_PER_VP * |cfg.vps| < U32_LIMIT
  }

  /** Then no offset wraps around. */
  lemma OffsetFits(cfg: Config, k: nat)
    requires Valid(cfg) && k < |Entries(cfg)|
    ensures Offset(cfg, Entries(cfg)[k]) == HEADER_SIZE + TotalSize(cfg, Entries(cfg)[..k])
  {
    hide Layout, TotalSize, EntrySize, Offset;
    var l := Entries(cfg);
    OffsetAt(cfg, k);
    LayoutBounded(cfg, |cfg.vps|);
    assert l[..k] + l[k..] == l;
    TotalSizeAppend(cfg, l[..k], l[k..]);
  }

  lemma OffsetInjective(cfg: Config, d: Entry, e: Entry)
    requires Valid(cfg) && d in Entries(cfg) && e in Entries(cfg) && Offset(cfg, d) == Offset(cfg, e)
    ensures d == e
  {
    hide Layout, TotalSize, Offset;
    var l := Entries(cfg);
    var i :| 0 <= i < |l| && l[i] == d;
    var j :| 0 <= j < |l| && l[j] == e;
    OffsetFits(cfg, i);
    OffsetFits(cfg, j);
    if i < j { SizeGrows(cfg, l, i, j); }
    if j < i { SizeGrows(cfg, l, j, i); }
  }

  lemma {:induction false} FindMember(caches: seq<Cache>, level: nat, kind: CacheKind)
    ensures Find(caches, level, kind).Some? ==>
              var c := Find(caches, level, kind).value; c in caches && c.level == level && c.kind == kind
  {
    if caches != [] { FindMember(caches[1..], level, kind); }
  }

  lemma NodeFits(cfg: Config, e: Entry)
    requires Typed(cfg) && (e.Thread? ==> e.vp < |cfg.vps|) && (e.Core? ==> Vp(e.socket, e.core) in cfg.vps)
    ensures Representable(NodeOf(cfg, e)) && NodeSize(NodeOf(cfg, e)) == EntrySize(cfg, e)
  {
    hide Offset, Find;
    forall level: nat, kind
      ensures Find(cfg.caches, level, kind).Some? ==> Find(cfg.caches, level, kind).value in cfg.caches
    {
      FindMember(cfg.caches, level, kind);
    }
  }

  function Chunks(cfg: Config, l: seq<Entry>): seq<Bytes> {
    seq(|l|, k requires 0 <= k < |l| => Serialize(NodeOf(cfg, l[k])))
  }

  /** The bytes after the table header. */
  function Table(cfg: Config): Bytes {
    Concat(Chunks(cfg, Entries(cfg)))
  }

  lemma EntryFits(cfg: Config, e: Entry)
    requires Typed(cfg) && e in Entries(cfg)
    ensures Representable(NodeOf(cfg, e))
    ensures |Serialize(NodeOf(cfg, e))| == EntrySize(cfg, e) && Framed(Serialize(NodeOf(cfg, e)), LENGTH)
    ensures ParseNode(Serialize(NodeOf(cfg, e))) == Some(NodeOf(cfg, e))
  {
    hide Layout, NodeOf, Serialize, ParseNode, Framed;
    LayoutMember(cfg, |cfg.vps|, e);
    NodeFits(cfg, e);
    NodeRoundTrip(NodeOf(cfg, e));
  }

  lemma SerializedSize(cfg: Config, e: Entry)
    ensures |Serialize(NodeOf(cfg, e))| == EntrySize(cfg, e)
  {
    hide Offset, Find, Words, Le32;
  }

  lemma {:induction false} ChunksSize(cfg: Config, l: seq<Entry>)
    ensures |Concat(Chunks(cfg, l))| == TotalSize(cfg, l)
  {
    hide Entries, NodeOf, Serialize, EntrySize;
    if l != [] {
      var init, last := l[..|l| - 1], l[|l| - 1];
      ChunksSize(cfg, init);
      SerializedSize(cfg, last);
      assert Chunks(cfg, l) == Chunks(cfg, init) + [Serialize(NodeOf(cfg, last))];
      ConcatOne(Chunks(cfg, init), Serialize(NodeOf(cfg, last)));
    }
  }

  // ---- The reader ----

  /** The node at an offset from the start of the table, found by walking the nodes by their lengths. */
  function NodeAt(b: Bytes, offset: nat): Option<Node> {
    match Frames(b, LENGTH)
    case None => None
    case Some(chunks) =>
      match IndexAt(chunks, HEADER_SIZE, offset)
      case None => None
      case Some(k) => if k < |chunks| then ParseNode(chunks[k]) else None
  }

  /** Walking the table by length fields finds exactly the nodes of the layout, in order. */
  lemma WalkRecovers(cfg: Config)
    requires Typed(cfg)
    ensures Frames(Table(cfg), LENGTH) == Some(Chunks(cfg, Entries(cfg)))
    ensures forall k :: 0 <= k < |Entries(cfg)| ==>
              ParseNode(Chunks(cfg, Entries(cfg))[k]) == Some(NodeOf(cfg, Entries(cfg)[k]))
  {
    hide Layout, NodeOf, Serialize, ParseNode, Framed, Frames, EntrySize;
    var l := Entries(cfg);
    var chunks := Chunks(cfg, l);
    forall k | 0 <= k < |l|
      ensures Framed(chunks[k], LENGTH) && ParseNode(chunks[k]) == Some(NodeOf(cfg, l[k]))
    {
      EntryFits(cfg, l[k]);
    }
    FramesRecovered(chunks, LENGTH);
  }

  lemma StartIsOffset(cfg: Config, k: nat)
    requires Valid(cfg) && k < |Entries(cfg)|
    ensures Start(Chunks(cfg, Entries(cfg)), HEADER_SIZE, k) == Offset(cfg, Entries(cfg)[k])
  {
    hide Layout, NodeOf, Serialize, TotalSize, Offset;
    var l := Entries(cfg);
    OffsetFits(cfg, k);
    assert Chunks(cfg, l)[..k] == Chunks(cfg, l[..k]);
    ChunksSize(cfg, l[..k]);
  }

  /** The node of an entry is found at the entry's offset. */
  lemma FoundAt(cfg: Config, e: Entry)
    requires Valid(cfg) && e in Entries(cfg)
    ensures NodeAt(Table(cfg), Offset(cfg, e)) == Some(NodeOf(cfg, e))
  {
    hide Layout, NodeOf, Serialize, ParseNode, Frames, EntrySize, TotalSize, Table, Offset, IndexAt;
    var l := Entries(cfg);
    var chunks := Chunks(cfg, l);
    WalkRecovers(cfg);
    var k :| 0 <= k < |l| && l[k] == e;
    StartIsOffset(cfg, k);
    forall c | c in chunks
      ensures 0 < |c|
    {
      var j :| 0 <= j < |l| && c == Serialize(NodeOf(cfg, l[j]));
      EntryFits(cfg, l[j]);
      SizePositive(cfg, l[j]);
    }
    IndexAtStart(chunks, HEADER_SIZE, k);
  }

  lemma SizePositive(cfg: Config, e: Entry)
    ensures EntrySize(cfg, e) > 0
  {
  }

  predicate IsPackage(b: Bytes, offset: nat) {
    var n := NodeAt(b, offset);
    n.Some? && n.value.ProcessorNode? && n.value.flags % 2 == 1
  }

  function ParentOf(b: Bytes, offset: nat): nat {
    match NodeAt(b, offset)
    case Some(ProcessorNode(_, parent, _, _)) => parent
    case _ => 0
  }

  /** From a VP's node up to the node just below the package. */
  function CoreOf(b: Bytes, leaf: nat): nat {
    if IsPackage(b, ParentOf(b, leaf)) then leaf else ParentOf(b, leaf)
  }

  function PackageOf(b: Bytes, leaf: nat): nat {
    ParentOf(b, CoreOf(b, leaf))
  }

  predicate IsLeaf(n: Option<Node>, uid: nat) {
    n.Some? && n.value.ProcessorNode? && n.value.flags / 2 % 2 == 1 && n.value.uid == uid
  }

  function LeavesFrom(chunks: seq<Bytes>, base: nat, uid: nat): seq<nat> {
    if chunks == [] then []
    else (if IsLeaf(ParseNode(chunks[0]), uid) then [base] else [])
         + LeavesFrom(chunks[1..], base + |chunks[0]|, uid)
  }

  /** The offsets of all processor nodes that carry the given ACPI processor UID. */
  function LeavesOf(b: Bytes, uid: nat): seq<nat> {
    match Frames(b, LENGTH)
    case None => []
    case Some(chunks) => LeavesFrom(chunks, HEADER_SIZE, uid)
  }

  lemma {:induction false} NoLeaf(chunks: seq<Bytes>, base: nat, uid: nat)
    requires forall c :: c in chunks ==> !IsLeaf(ParseNode(c), uid)
    ensures LeavesFrom(chunks, base, uid) == []
  {
    hide IsLeaf, ParseNode;
    if chunks != [] {
      assert chunks[0] in chunks;
      NoLeaf(chunks[1..], base + |chunks[0]|, uid);
    }
  }

  lemma {:induction false} OneLeaf(chunks: seq<Bytes>, base: nat, uid: nat, k: nat)
    requires k < |chunks| && IsLeaf(ParseNode(chunks[k]), uid)
    requires forall j :: 0 <= j < |chunks| && j != k ==> !IsLeaf(ParseNode(chunks[j]), uid)
    ensures LeavesFrom(chunks, base, uid) == [Start(chunks, base, k)]
  {
    hide IsLeaf, ParseNode;
    if k == 0 {
      forall c | c in chunks[1..]
        ensures !IsLeaf(ParseNode(c), uid)
      {
        var j :| 0 <= j < |chunks[1..]| && c == chunks[1..][j];
        assert c == chunks[j + 1];
      }
      NoLeaf(chunks[1..], base + |chunks[0]|, uid);
      assert chunks[..0] == [];
    } else {
      assert !IsLeaf(ParseNode(chunks[0]), uid);
      forall j | 0 <= j < |chunks[1..]| && j != k - 1
        ensures !IsLeaf(ParseNode(chunks[1..][j]), uid)
      {
        assert chunks[1..][j] == chunks[j + 1];
      }
      OneLeaf(chunks[1..], base + |chunks[0]|, uid, k - 1);
      assert chunks[..k][1..] == chunks[1..][..k - 1];
    }
  }

  function LeafEntry(cfg: Config, i: nat): Entry
    requires i < |cfg.vps|
  {
    if cfg.smt then Thread(i) else Core(cfg.vps[i].socket, cfg.vps[i].core)
  }

  /** No VP before `i` sits on the same core. */
  ghost predicate FirstOnCore(cfg: Config, i: nat)
    requires i < |cfg.vps|
  {
    cfg.vps[i] !in cfg.vps[..i]
  }

  lemma LeafNode(cfg: Config, i: nat, e: Entry)
    requires i < |cfg.vps| && Called(cfg, |cfg.vps|, e)
    ensures IsLeaf(Some(NodeOf(cfg, e)), i + 1) <==> e == LeafEntry(cfg, i) && (cfg.smt || FirstOnCore(cfg, i))
  {
    hide Offset, CacheOf;
    if !cfg.smt && e.Core? {
      var f := First(cfg.vps, Vp(e.socket, e.core));
      assert Vp(e.socket, e.core) in cfg.vps;
      if e == LeafEntry(cfg, i) && FirstOnCore(cfg, i) {
        assert f == i;
      }
    }
  }

  lemma LeafPresent(cfg: Config, i: nat)
    requires i < |cfg.vps|
    ensures LeafEntry(cfg, i) in Entries(cfg)
    ensures Core(cfg.vps[i].socket, cfg.vps[i].core) in Entries(cfg)
    ensures Package(cfg.vps[i].socket) in Entries(cfg)
  {
    hide Layout;
    var vp := cfg.vps[i];
    assert cfg.vps[i] == Vp(vp.socket, vp.core);
    LayoutMember(cfg, |cfg.vps|, LeafEntry(cfg, i));
    LayoutMember(cfg, |cfg.vps|, Core(vp.socket, vp.core));
    LayoutMember(cfg, |cfg.vps|, Package(vp.socket));
  }

  /** A VP has a node of its own exactly when SMT is on or no earlier VP shares its core; then it
      has only that one. */
  lemma LeafFound(cfg: Config, i: nat)
    requires Valid(cfg) && i < |cfg.vps|
    ensures LeavesOf(Table(cfg), i + 1) ==
              if cfg.smt || FirstOnCore(cfg, i) then [Offset(cfg, LeafEntry(cfg, i))] else []
  {
    hide Layout, NodeOf, Serialize, ParseNode, Frames, EntrySize, TotalSize, Table, Offset, IsLeaf, LeafEntry, Called;
    var l := Entries(cfg);
    var chunks := Chunks(cfg, l);
    WalkRecovers(cfg);
    forall k | 0 <= k < |l|
      ensures IsLeaf(ParseNode(chunks[k]), i + 1) <==> l[k] == LeafEntry(cfg, i) && (cfg.smt || FirstOnCore(cfg, i))
    {
      LayoutMember(cfg, |cfg.vps|, l[k]);
      LeafNode(cfg, i, l[k]);
    }
    if cfg.smt || FirstOnCore(cfg, i) {
      LeafPresent(cfg, i);
      var k :| 0 <= k < |l| && l[k] == LeafEntry(cfg, i);
      LayoutDistinct(cfg, |cfg.vps|);
      OneLeaf(chunks, HEADER_SIZE, i + 1, k);
      StartIsOffset(cfg, k);
    } else {
      NoLeaf(chunks, HEADER_SIZE, i + 1);
    }
  }

  lemma Climb(cfg: Config, i: nat)
    requires Valid(cfg) && i < |cfg.vps|
    ensures var b, vp, leaf := Table(cfg), cfg.vps[i], Offset(cfg, LeafEntry(cfg, i));
            && CoreOf(b, leaf) == Offset(cfg, Core(vp.socket, vp.core))
            && PackageOf(b, leaf) == Offset(cfg, Package(vp.socket))
            && IsPackage(b, PackageOf(b, leaf))
  {
    hide Layout, Serialize, ParseNode, Frames, EntrySize, TotalSize, Table, Offset, NodeAt, Find;
    var vp := cfg.vps[i];
    LeafPresent(cfg, i);
    FoundAt(cfg, LeafEntry(cfg, i));
    FoundAt(cfg, Core(vp.socket, vp.core));
    FoundAt(cfg, Package(vp.socket));
  }

  /** Following parent pointers from two VPs' nodes meets at the core node exactly when the VPs
      share a core, and at the package node exactly when they share a socket. */
  lemma TopologyRecovered(cfg: Config, i: nat, j: nat)
    requires Valid(cfg) && i < |cfg.vps| && j < |cfg.vps|
    requires cfg.smt || (FirstOnCore(cfg, i) && FirstOnCore(cfg, j))
    ensures var b := Table(cfg);
            && |LeavesOf(b, i + 1)| == 1 && |LeavesOf(b, j + 1)| == 1
            && var x, y := LeavesOf(b, i + 1)[0], LeavesOf(b, j + 1)[0];
            && (x == y <==> i == j)
            && (CoreOf(b, x) == CoreOf(b, y) <==> cfg.vps[i] == cfg.vps[j])
            && (PackageOf(b, x) == PackageOf(b, y) <==> cfg.vps[i].socket == cfg.vps[j].socket)
            && IsPackage(b, PackageOf(b, x))
  {
    hide Layout, Table, Offset, LeavesOf, CoreOf, PackageOf, IsPackage;
    LeafFound(cfg, i);
    LeafFound(cfg, j);
    Climb(cfg, i);
    Climb(cfg, j);
    LeafPresent(cfg, i);
    LeafPresent(cfg, j);
    if Offset(cfg, LeafEntry(cfg, i)) == Offset(cfg, LeafEntry(cfg, j)) {
      OffsetInjective(cfg, LeafEntry(cfg, i), LeafEntry(cfg, j));
    }
    var v, w := cfg.vps[i], cfg.vps[j];
    if Offset(cfg, Core(v.socket, v.core)) == Offset(cfg, Core(w.socket, w.core)) {
      OffsetInjective(cfg, Core(v.socket, v.core), Core(w.socket, w.core));
    }
    if Offset(cfg, Package(v.socket)) == Offset(cfg, Package(w.socket)) {
      OffsetInjective(cfg, Package(v.socket), Package(w.socket));
    }
  }

  /** The nodes that a node's private resources point at. */
  function ResourcesAt(b: Bytes, offset: nat): seq<Option<Node>> {
    match NodeAt(b, offset)
    case Some(ProcessorNode(_, _, _, rs)) => seq(|rs|, i requires 0 <= i < |rs| => NodeAt(b, rs[i]))
    case _ => []
  }

  /** What a reader sees of an optional cache. */
  function Seen(cache: Option<Cache>, next: nat): seq<Option<Node>> {
    if cache.Some? then [Some(Describe(cache.value, next))] else []
  }

  lemma CacheFound(cfg: Config, i: nat, e: Entry)
    requires Valid(cfg) && i < |cfg.vps| && CacheOf(cfg, e).Some?
    requires e.socket == cfg.vps[i].socket && (!e.L3? ==> e.core == cfg.vps[i].core)
    ensures NodeAt(Table(cfg), Offset(cfg, e)) == Some(Describe(CacheOf(cfg, e).value, NextLevel(cfg, e)))
  {
    hide Layout, Find, Describe, NextLevel, Offset, NodeAt, Table;
    assert cfg.vps[i] == Vp(cfg.vps[i].socket, cfg.vps[i].core);
    LayoutMember(cfg, |cfg.vps|, e);
    FoundAt(cfg, e);
  }

  lemma ResourcesOf(b: Bytes, offset: nat, flags: nat, parent: nat, uid: nat, rs: seq<nat>)
    requires NodeAt(b, offset) == Some(ProcessorNode(flags, parent, uid, rs))
    ensures ResourcesAt(b, offset) == seq(|rs|, i requires 0 <= i < |rs| => NodeAt(b, rs[i]))
  {
    hide NodeAt;
  }

  lemma PackageCaches(cfg: Config, i: nat)
    requires Valid(cfg) && i < |cfg.vps|
    ensures ResourcesAt(Table(cfg), Offset(cfg, Package(cfg.vps[i].socket))) == Seen(Find(cfg.caches, 3, Unified), 0)
  {
    hide Layout, Table, Offset, NodeAt, Find, Describe, ResourcesAt;
    var b, s := Table(cfg), cfg.vps[i].socket;
    LeafPresent(cfg, i);
    FoundAt(cfg, Package(s));
    ResourcesOf(b, Offset(cfg, Package(s)), PHYSICAL_PACKAGE, 0, 0, Offsets(cfg, Caching(cfg, L3(s))));
    if CacheOf(cfg, L3(s)).Some? { CacheFound(cfg, i, L3(s)); }
  }

  lemma CoreCaches(cfg: Config, i: nat)
    requires Valid(cfg) && i < |cfg.vps|
    ensures var b, vp, l2 := Table(cfg), cfg.vps[i], Find(cfg.caches, 2, Unified);
            var next := NextLevel(cfg, L1I(vp.socket, vp.core));
            && ResourcesAt(b, Offset(cfg, Core(vp.socket, vp.core))) ==
                 Seen(Find(cfg.caches, 1, Instruction), next) + Seen(Find(cfg.caches, 1, Data), next)
            && (if l2.Some? then NodeAt(b, next) == Some(Describe(l2.value, 0)) else next == 0)
  {
    hide Layout, Table, Offset, NodeAt, Find, Describe, ResourcesAt, First;
    var b, vp := Table(cfg), cfg.vps[i];
    var l1i, l1d, l2 := L1I(vp.socket, vp.core), L1D(vp.socket, vp.core), L2(vp.socket, vp.core);
    LeafPresent(cfg, i);
    var core := Core(vp.socket, vp.core);
    FoundAt(cfg, core);
    var node := NodeOf(cfg, core);
    var rs := Caching(cfg, l1i) + Caching(cfg, l1d);
    ResourcesOf(b, Offset(cfg, core), node.flags, node.parent, node.uid, Offsets(cfg, rs));
    if CacheOf(cfg, l1i).Some? { CacheFound(cfg, i, l1i); }
    if CacheOf(cfg, l1d).Some? { CacheFound(cfg, i, l1d); }
    if CacheOf(cfg, l2).Some? { CacheFound(cfg, i, l2); }
  }

  /** What the nodes of a VP say about themselves: its own node carries its number, marked valid; its
      core carries no number of its own under SMT; its package is marked as one and has no parent. */
  lemma ProcessorFields(cfg: Config, i: nat)
    requires Valid(cfg) && i < |cfg.vps| && (cfg.smt || FirstOnCore(cfg, i))
    ensures var b := Table(cfg);
            && |LeavesOf(b, i + 1)| == 1
            && var leaf := LeavesOf(b, i + 1)[0];
            && var own, core, package := NodeAt(b, leaf), NodeAt(b, CoreOf(b, leaf)), NodeAt(b, PackageOf(b, leaf));
            && own.Some? && own.value.ProcessorNode? && own.value.flags == 2 && own.value.uid == i + 1
            && (cfg.smt ==> own.value.resources == [])
            && core.Some? && core.value.ProcessorNode? && core.value.flags == (if cfg.smt then 0 else 2)
            && core.value.uid == (if cfg.smt then 0 else i + 1) && core.value.parent == PackageOf(b, leaf)
            && package.Some? && package.value.ProcessorNode? && package.value.flags == 1
            && package.value.uid == 0 && package.value.parent == 0
  {
    hide Layout, Table, Offset, LeavesOf, CoreOf, PackageOf, NodeAt, Find, First;
    var vp := cfg.vps[i];
    assert vp == Vp(vp.socket, vp.core);
    LeafFound(cfg, i);
    Climb(cfg, i);
    LeafPresent(cfg, i);
    FoundAt(cfg, LeafEntry(cfg, i));
    FoundAt(cfg, Core(vp.socket, vp.core));
    FoundAt(cfg, Package(vp.socket));
    if !cfg.smt { FirstIs(cfg, i); }
  }

  lemma FirstIs(cfg: Config, i: nat)
    requires i < |cfg.vps| && FirstOnCore(cfg, i)
    ensures First(cfg.vps, cfg.vps[i]) == i
  {
    assert cfg.vps[i] in cfg.vps;
  }

  // ---- What a reader learns about caches ----

  /** Cache `k` is the first of the given level and kind. */
  ghost predicate FirstCache(caches: seq<Cache>, level: nat, kind: CacheKind, k: nat) {
    k < |caches| && caches[k].level == level && caches[k].kind == kind &&
    forall j :: 0 <= j < k ==> caches[j].level != level || caches[j].kind != kind
  }

  /** A cache node with the size, line size, associativity and type of `c`, all marked valid. */
  ghost predicate Shows(node: Option<Node>, c: Cache, next: nat) {
    && node.Some? && node.value.CacheNode?
    && node.value.flags == 1 + 4 + 16 + 64 && node.value.nextLevel == next
    && node.value.size == c.size && node.value.lineSize == c.lineSize % U16_LIMIT
    && node.value.associativity == (if c.associativity.Some? then c.associativity.value % 256 else 0)
    && node.value.attributes / 4 % 4 == (match c.kind case Data => 0 case Instruction => 1 case Unified => 3)
  }

  /** The nodes show the first cache of the given level and kind, if the machine has one. */
  ghost predicate ShowsFirst(nodes: seq<Option<Node>>, caches: seq<Cache>, level: nat, kind: CacheKind, next: nat) {
    if nodes == [] then forall k: nat :: !FirstCache(caches, level, kind, k)
    else |nodes| == 1 && exists k: nat :: FirstCache(caches, level, kind, k) && k < |caches| && Shows(nodes[0], caches[k], next)
  }

  lemma {:induction false} FindExact(caches: seq<Cache>, level: nat, kind: CacheKind)
    ensures var found := Find(caches, level, kind);
            if found.None? then forall k: nat :: !FirstCache(caches, level, kind, k)
            else exists k: nat :: FirstCache(caches, level, kind, k) && k < |caches| && caches[k] == found.value
  {
    if caches == [] {
    } else if caches[0].level == level && caches[0].kind == kind {
      assert FirstCache(caches, level, kind, 0);
    } else {
      var rest := caches[1..];
      FindExact(rest, level, kind);
      forall k: nat ensures FirstCache(caches, level, kind, k) <==> k > 0 && FirstCache(rest, level, kind, k - 1) {
        TailFirst(caches, level, kind, k);
      }
      if Find(rest, level, kind).Some? {
        var k: nat :| FirstCache(rest, level, kind, k) && k < |rest| && rest[k] == Find(rest, level, kind).value;
        assert FirstCache(caches, level, kind, k + 1);
      }
    }
  }

  lemma TailFirst(caches: seq<Cache>, level: nat, kind: CacheKind, k: nat)
    requires caches != [] && (caches[0].level != level || caches[0].kind != kind)
    ensures FirstCache(caches, level, kind, k) <==> k > 0 && FirstCache(caches[1..], level, kind, k - 1)
  {
    var rest := caches[1..];
    assert forall j :: 0 <= j < |rest| ==> rest[j] == caches[j + 1];
    if k > 0 && FirstCache(rest, level, kind, k - 1) {
      forall j | 0 <= j < k ensures caches[j].level != level || caches[j].kind != kind {
        if j > 0 { assert rest[j - 1] == caches[j]; }
      }
    }
  }

  lemma SeenShows(cfg: Config, level: nat, kind: CacheKind, next: nat)
    ensures ShowsFirst(Seen(Find(cfg.caches, level, kind), next), cfg.caches, level, kind, next)
  {
    hide Find, FirstCache;
    FindExact(cfg.caches, level, kind);
    var found := Find(cfg.caches, level, kind);
    if found.Some? {
      var k: nat :| FirstCache(cfg.caches, level, kind, k) && k < |cfg.caches| && cfg.caches[k] == found.value;
      DescribeShows(found.value, next);
    }
  }

  lemma DescribeShows(c: Cache, next: nat)
    ensures Shows(Some(Describe(c, next)), c, next)
  {
  }

  /** A VP's package shows the L3 cache, its core the L1 caches in order, and both L1 caches lead to
      the one L2 cache; a level the machine does not have is absent, and then the chain ends. */
  lemma CachesRecovered(cfg: Config, i: nat)
    requires Valid(cfg) && i < |cfg.vps| && (cfg.smt || FirstOnCore(cfg, i))
    ensures var b := Table(cfg);
            && |LeavesOf(b, i + 1)| == 1
            && var leaf := LeavesOf(b, i + 1)[0];
            && ShowsFirst(ResourcesAt(b, PackageOf(b, leaf)), cfg.caches, 3, Unified, 0)
            && exists next: nat, l1i, l1d ::
                 && ResourcesAt(b, CoreOf(b, leaf)) == l1i + l1d
                 && ShowsFirst(l1i, cfg.caches, 1, Instruction, next) && ShowsFirst(l1d, cfg.caches, 1, Data, next)
                 && ShowsFirst(if next == 0 then [] else [NodeAt(b, next)], cfg.caches, 2, Unified, 0)
  {
    hide *;
    LeafFound(cfg, i);
    Climb(cfg, i);
    PackageCaches(cfg, i);
    SeenShows(cfg, 3, Unified, 0);
    var vp := cfg.vps[i];
    var next := NextLevel(cfg, L1I(vp.socket, vp.core));
    CoreCaches(cfg, i);
    SeenShows(cfg, 1, Instruction, next);
    SeenShows(cfg, 1, Data, next);
    SeenShows(cfg, 2, Unified, 0);
    SecondLevel(cfg, i);
  }

  lemma SecondLevel(cfg: Config, i: nat)
    requires Valid(cfg) && i < |cfg.vps|
    ensures var next := NextLevel(cfg, L1I(cfg.vps[i].socket, cfg.vps[i].core));
            (if next == 0 then [] else [NodeAt(Table(cfg), next)]) == Seen(Find(cfg.caches, 2, Unified), 0)
  {
    hide Layout, Table, Offset, NodeAt, Find, Describe, ResourcesAt, First;
    CoreCaches(cfg, i);
    var vp := cfg.vps[i];
    var l2 := L2(vp.socket, vp.core);
    if CacheOf(cfg, l2).Some? {
      CacheFound(cfg, i, l2);
      OffsetPositive(cfg, i, l2);
    }
  }

  /** The header comes first. */
  lemma OffsetPositive(cfg: Config, i: nat, e: Entry)
    requires Valid(cfg) && i < |cfg.vps| && CacheOf(cfg, e).Some?
    requires e.socket == cfg.vps[i].socket && (!e.L3? ==> e.core == cfg.vps[i].core)
    ensures Offset(cfg, e) > 0
  {
    hide Layout, Find, Offset, TotalSize, CacheOf;
    assert cfg.vps[i] == Vp(cfg.vps[i].socket, cfg.vps[i].core);
    assert Called(cfg, |cfg.vps|, e) by { IsCalled(cfg, i, e); }
    LayoutMember(cfg, |cfg.vps|, e);
    var k :| 0 <= k < |Entries(cfg)| && Entries(cfg)[k] == e;
    OffsetFits(cfg, k);
  }

  lemma IsCalled(cfg: Config, i: nat, e: Entry)
    requires i < |cfg.vps| && CacheOf(cfg, e).Some?
    requires e.socket == cfg.vps[i].socket && (!e.L3? ==> e.core == cfg.vps[i].core)
    ensures Called(cfg, |cfg.vps|, e)
  {
    hide Find;
    assert cfg.vps[i] == Vp(cfg.vps[i].socket, cfg.vps[i].core);
  }

  /** Every reference in the table is the start of an earlier node of the right kind. */
  lemma ReferencesResolve(cfg: Config, k: nat)
    requires Valid(cfg) && k < |Entries(cfg)|
    ensures var b, chunks := Table(cfg), Chunks(cfg, Entries(cfg));
            var here := Start(chunks, HEADER_SIZE, k);
            NodeAt(b, here).Some? &&
            match NodeAt(b, here).value
            case ProcessorNode(flags, parent, _, resources) =>
              && (if flags % 2 == 1 then parent == 0
                  else parent < here && NodeAt(b, parent).Some? && NodeAt(b, parent).value.ProcessorNode?)
              && forall r :: r in resources ==> r < here && NodeAt(b, r).Some? && NodeAt(b, r).value.CacheNode?
            case CacheNode(_, next, _, _, _, _) =>
              next == 0 || (next < here && NodeAt(b, next).Some? && NodeAt(b, next).value.CacheNode?)
  {
    hide Layout, Serialize, ParseNode, Frames, EntrySize, TotalSize, Table, Offset, NodeAt, Find, Start;
    var l := Entries(cfg);
    StartIsOffset(cfg, k);
    FoundAt(cfg, l[k]);
    forall t | t in Targets(cfg, l[k])
      ensures Offset(cfg, t) < Offset(cfg, l[k]) && NodeAt(Table(cfg), Offset(cfg, t)) == Some(NodeOf(cfg, t))
    {
      TargetEarlier(cfg, k, t);
    }
    LayoutMember(cfg, |cfg.vps|, l[k]);
  }

  lemma TargetEarlier(cfg: Config, k: nat, t: Entry)
    requires Valid(cfg) && k < |Entries(cfg)| && t in Targets(cfg, Entries(cfg)[k])
    ensures Offset(cfg, t) < Offset(cfg, Entries(cfg)[k])
    ensures NodeAt(Table(cfg), Offset(cfg, t)) == Some(NodeOf(cfg, t))
  {
    hide Layout, Serialize, ParseNode, Frames, EntrySize, TotalSize, Table, Offset, NodeAt, NodeOf, Targets;
    var l := Entries(cfg);
    LayoutBackward(cfg, |cfg.vps|);
    var j :| 0 <= j < |l[..k]| && l[..k][j] == t;
    assert l[j] == t;
    OffsetFits(cfg, j);
    OffsetFits(cfg, k);
    SizeGrows(cfg, l, j, k);
    SizePositive(cfg, l[j]);
    FoundAt(cfg, t);
  }

  // ---- The builder ----

  datatype Socket = Socket(offset: nat, cores: map<nat, nat>)

  function CurrentOffset(extra: Bytes): nat {
    (HEADER_SIZE + |extra|) % U32_LIMIT
  }

  /** `extra` holds the nodes of the first entries of the layout. */
  ghost predicate Emitted(cfg: Config, extra: Bytes, done: seq<Entry>) {
    done <= Entries(cfg) && extra == Concat(Chunks(cfg, done))
  }

  /** The maps know exactly the sockets and cores emitted so far, with their offsets. */
  ghost predicate Tracked(cfg: Config, sockets: map<nat, Socket>, done: seq<Entry>) {
    && (forall s :: s in sockets <==> Package(s) in done)
    && (forall s :: s in sockets ==> sockets[s].offset == Offset(cfg, Package(s)))
    && (forall s, c :: s in sockets ==> (c in sockets[s].cores <==> Core(s, c) in done))
    && (forall s, c :: s in sockets && c in sockets[s].cores ==> sockets[s].cores[c] == Offset(cfg, Core(s, c)))
  }

  lemma EmitOne(cfg: Config, extra: Bytes, done: seq<Entry>, e: Entry)
    requires Emitted(cfg, extra, done) && done + [e] <= Entries(cfg)
    ensures Emitted(cfg, extra + Serialize(NodeOf(cfg, e)), done + [e])
    ensures Offset(cfg, e) == CurrentOffset(extra)
  {
    hide Layout, NodeOf, Serialize, Offset, TotalSize;
    var l := Entries(cfg);
    assert l[|done|] == (done + [e])[|done|] == e && l[..|done|] == done;
    OffsetAt(cfg, |done|);
    ChunksSize(cfg, done);
    assert Chunks(cfg, done + [e]) == Chunks(cfg, done) + [Serialize(NodeOf(cfg, e))];
    ConcatOne(Chunks(cfg, done), Serialize(NodeOf(cfg, e)));
  }

  lemma FewWords(a: nat, b: nat)
    ensures Words([]) == [] && Words([a]) == Le32(a) && Words([a, b]) == Le32(a) + Le32(b)
  {
    assert [a, b][..1] == [a] && [a][..0] == [];
  }

  /** Appends a cache node if the machine has such a cache. */
  method EmitCache(cfg: Config, before: Bytes, level: nat, kind: CacheKind, next: Option<nat>,
                   ghost done: seq<Entry>, ghost e: Entry)
    returns (extra: Bytes, offset: Option<nat>)
    requires Emitted(cfg, before, done) && done + Caching(cfg, e) <= Entries(cfg)
    requires !e.Package? && !e.Core? && !e.Thread? && CacheOf(cfg, e) == Find(cfg.caches, level, kind)
    requires NextLevel(cfg, e) == if next.Some? then next.value else 0
    ensures Emitted(cfg, extra, done + Caching(cfg, e))
    ensures offset == if CacheOf(cfg, e).Some? then Some(Offset(cfg, e)) else None
  {
    hide Layout, Serialize, Offset, Find, Describe, NextLevel;
    var found := Find(cfg.caches, level, kind);
    match found
    case None =>
      extra, offset := before, None;
      assert done + Caching(cfg, e) == done;
    case Some(descriptor) =>
      EmitOne(cfg, before, done, e);
      offset := Some(CurrentOffset(before));
      extra := before + Serialize(Describe(descriptor, if next.Some? then next.value else 0));
  }

  method EmitSocket(cfg: Config, before: Bytes, s: nat, ghost done: seq<Entry>)
    returns (extra: Bytes, offset: nat)
    requires Emitted(cfg, before, done) && done + SocketEntries(cfg, s) <= Entries(cfg)
    ensures Emitted(cfg, extra, done + SocketEntries(cfg, s))
    ensures offset == Offset(cfg, Package(s))
  {
    hide Layout, Offset, Find, ProcessorHeader, Words;
    ghost var caching := Caching(cfg, L3(s));
    assert done + caching + [Package(s)] == done + SocketEntries(cfg, s);
    var l3;
    extra, l3 := EmitCache(cfg, before, 3, Unified, None, done, L3(s));
    EmitOne(cfg, extra, done + caching, Package(s));
    offset := CurrentOffset(extra);
    extra := extra + ProcessorHeader(PHYSICAL_PACKAGE, 0, 0, if l3.Some? then 1 else 0);
    FewWords(Offset(cfg, L3(s)), 0);
    ghost var resources := Offsets(cfg, caching);
    if l3.Some? {
      extra := extra + Le32(l3.value);
      assert resources == [Offset(cfg, L3(s))];
    } else {
      assert resources == [];
    }
  }

  /** A core node's bytes: the header, then the instruction and data caches that exist. */
  lemma CoreBytes(cfg: Config, s: nat, c: nat)
    ensures var hasI, hasD := CacheOf(cfg, L1I(s, c)).Some?, CacheOf(cfg, L1D(s, c)).Some?;
            Serialize(NodeOf(cfg, Core(s, c))) ==
              ProcessorHeader(if cfg.smt then 0 else UID_VALID, Offset(cfg, Package(s)),
                              if cfg.smt then 0 else First(cfg.vps, Vp(s, c)) + 1,
                              (if hasI then 1 else 0) + (if hasD then 1 else 0))
              + (if hasI then Le32(Offset(cfg, L1I(s, c))) else [])
              + (if hasD then Le32(Offset(cfg, L1D(s, c))) else [])
  {
    hide Offset, Find, Le32, Words, First, ProcessorHeader;
    var i, d := Offset(cfg, L1I(s, c)), Offset(cfg, L1D(s, c));
    FewWords(i, d);
    FewWords(d, i);
    var rs := NodeOf(cfg, Core(s, c)).resources;
    var hasI, hasD := CacheOf(cfg, L1I(s, c)).Some?, CacheOf(cfg, L1D(s, c)).Some?;
    assert hasI && hasD ==> rs == [i, d];
    assert hasI && !hasD ==> rs == [i];
    assert !hasI && hasD ==> rs == [d];
    assert !hasI && !hasD ==> rs == [];
  }

  method EmitCore(cfg: Config, before: Bytes, s: nat, c: nat, socketOffset: nat, acpiId: nat, ghost done: seq<Entry>)
    returns (extra: Bytes, offset: nat)
    requires Emitted(cfg, before, done) && done + CoreEntries(cfg, s, c) <= Entries(cfg)
    requires socketOffset == Offset(cfg, Package(s)) && acpiId == First(cfg.vps, Vp(s, c)) + 1
    ensures Emitted(cfg, extra, done + CoreEntries(cfg, s, c))
    ensures offset == Offset(cfg, Core(s, c))
  {
    hide Layout, Offset, Find, ProcessorHeader, Words, Emitted, First, NodeOf, Serialize, Le32;
    ghost var e2, e1i, e1d := Caching(cfg, L2(s, c)), Caching(cfg, L1I(s, c)), Caching(cfg, L1D(s, c));
    ghost var all := done + CoreEntries(cfg, s, c);
    assert done + e2 <= all && done + e2 + e1i <= all && done + e2 + e1i + e1d + [Core(s, c)] == all;
    var l2, l1i, l1d;
    extra, l2 := EmitCache(cfg, before, 2, Unified, None, done, L2(s, c));
    extra, l1i := EmitCache(cfg, extra, 1, Instruction, l2, done + e2, L1I(s, c));
    extra, l1d := EmitCache(cfg, extra, 1, Data, l2, done + e2 + e1i, L1D(s, c));
    EmitOne(cfg, extra, done + e2 + e1i + e1d, Core(s, c));
    offset := CurrentOffset(extra);
    ghost var start := extra;
    CoreBytes(cfg, s, c);
    extra := extra + ProcessorHeader(if cfg.smt then 0 else UID_VALID, socketOffset, if cfg.smt then 0 else acpiId,
                                     (if l1i.Some? then 1 else 0) + (if l1d.Some? then 1 else 0));
    if l1i.Some? { extra := extra + Le32(l1i.value); }
    if l1d.Some? { extra := extra + Le32(l1d.value); }
    assert extra == start + Serialize(NodeOf(cfg, Core(s, c)));
  }

  lemma NothingEmitted(cfg: Config)
    ensures Layout(cfg, 0) == [] && Emitted(cfg, [], []) && Tracked(cfg, map[], [])
  {
    hide Offset;
    assert Chunks(cfg, []) == [];
  }

  lemma TrackSocket(cfg: Config, sockets: map<nat, Socket>, done: seq<Entry>, s: nat)
    requires Tracked(cfg, sockets, done)
    requires forall c :: Core(s, c) !in done
    ensures Tracked(cfg, sockets[s := Socket(Offset(cfg, Package(s)), map[])], done + SocketEntries(cfg, s))
  {
    hide Offset, CacheOf;
  }

  lemma TrackCore(cfg: Config, sockets: map<nat, Socket>, done: seq<Entry>, s: nat, c: nat)
    requires Tracked(cfg, sockets, done) && s in sockets
    ensures var cores := sockets[s].cores[c := Offset(cfg, Core(s, c))];
            Tracked(cfg, sockets[s := Socket(sockets[s].offset, cores)], done + CoreEntries(cfg, s, c))
  {
    hide Offset, CacheOf;
  }

  lemma TrackThread(cfg: Config, sockets: map<nat, Socket>, done: seq<Entry>, i: nat)
    requires Tracked(cfg, sockets, done)
    ensures Tracked(cfg, sockets, done + [Thread(i)])
  {
    hide Offset;
  }

  lemma CoreNeedsSocket(cfg: Config, n: nat, s: nat)
    requires n <= |cfg.vps| && Package(s) !in Layout(cfg, n)
    ensures forall c :: Core(s, c) !in Layout(cfg, n)
  {
    hide Layout;
    LayoutMember(cfg, n, Package(s));
    forall c: nat
      ensures Core(s, c) !in Layout(cfg, n)
    {
      LayoutMember(cfg, n, Core(s, c));
    }
  }

  lemma NewCoreIsFirst(cfg: Config, n: nat)
    requires n < |cfg.vps| && Core(cfg.vps[n].socket, cfg.vps[n].core) !in Layout(cfg, n)
    ensures First(cfg.vps, cfg.vps[n]) == n
  {
    hide Layout;
    var vp := cfg.vps[n];
    LayoutMember(cfg, n, Core(vp.socket, vp.core));
    var f := First(cfg.vps, vp);
    assert vp == Vp(vp.socket, vp.core);
    assert f >= n;
    assert f <= n;
  }

  lemma ThreadNode(cfg: Config, i: nat)
    requires i < |cfg.vps|
    ensures var core := Offset(cfg, Core(cfg.vps[i].socket, cfg.vps[i].core));
            Serialize(NodeOf(cfg, Thread(i))) == ProcessorHeader(UID_VALID, core, i + 1, 0)
  {
    hide Offset, ProcessorHeader;
    FewWords(0, 0);
  }

  lemma LayoutUnfold(cfg: Config, i: nat)
    requires i < |cfg.vps|
    ensures var before, vp := Layout(cfg, i), cfg.vps[i];
            && Layout(cfg, i + 1) == before + NewSocket(cfg, before, vp) + NewCore(cfg, before, vp)
                                     + (if cfg.smt then [Thread(i)] else [])
            && Layout(cfg, i + 1) <= Entries(cfg)
  {
    hide NewSocket, NewCore;
    LayoutPrefix(cfg, i + 1, |cfg.vps|);
  }

  /** Creates the VP's socket on first use. */
  method EnsureSocket(cfg: Config, before: Bytes, known: map<nat, Socket>, i: nat, ghost done: seq<Entry>)
    returns (extra: Bytes, sockets: map<nat, Socket>)
    requires i < |cfg.vps| && done == Layout(cfg, i)
    requires Emitted(cfg, before, done) && Tracked(cfg, known, done)
    ensures var after := done + NewSocket(cfg, done, cfg.vps[i]);
            Emitted(cfg, extra, after) && Tracked(cfg, sockets, after) && cfg.vps[i].socket in sockets
  {
    hide Offset, SocketEntries, Emitted, Layout, NewCore;
    var s := cfg.vps[i].socket;
    extra, sockets := before, known;
    LayoutUnfold(cfg, i);
    if s !in sockets {
      CoreNeedsSocket(cfg, i, s);
      TrackSocket(cfg, sockets, done, s);
      var offset;
      extra, offset := EmitSocket(cfg, extra, s, done);
      sockets := sockets[s := Socket(offset, map[])];
    } else {
      assert done + NewSocket(cfg, done, cfg.vps[i]) == done;
    }
  }

  /** Creates the VP's core on first use. */
  method EnsureCore(cfg: Config, before: Bytes, known: map<nat, Socket>, i: nat, ghost done: seq<Entry>)
    returns (extra: Bytes, sockets: map<nat, Socket>, core: nat)
    requires i < |cfg.vps| && cfg.vps[i].socket in known
    requires done == Layout(cfg, i) + NewSocket(cfg, Layout(cfg, i), cfg.vps[i])
    requires Emitted(cfg, before, done) && Tracked(cfg, known, done)
    ensures var after := done + NewCore(cfg, Layout(cfg, i), cfg.vps[i]);
            Emitted(cfg, extra, after) && Tracked(cfg, sockets, after)
    ensures core == Offset(cfg, Core(cfg.vps[i].socket, cfg.vps[i].core))
  {
    hide Offset, SocketEntries, CoreEntries, Emitted, Layout, First, Distinct;
    var vp := cfg.vps[i];
    assert vp == Vp(vp.socket, vp.core);
    extra, sockets := before, known;
    LayoutUnfold(cfg, i);
    EntriesDistinct(cfg, vp.socket, vp.core);
    HeadPresent(cfg, vp);
    var socket := sockets[vp.socket];
    if vp.core !in socket.cores {
      NewCoreIsFirst(cfg, i);
      TrackCore(cfg, sockets, done, vp.socket, vp.core);
      var offset;
      extra, offset := EmitCore(cfg, extra, vp.socket, vp.core, socket.offset, i + 1, done);
      sockets := sockets[vp.socket := Socket(socket.offset, socket.cores[vp.core := offset])];
    } else {
      assert done + NewCore(cfg, Layout(cfg, i), vp) == done;
    }
    core := sockets[vp.socket].cores[vp.core];
  }

  /** One pass over the VPs emits exactly the table. */
  method Build(cfg: Config) returns (extra: Bytes)
    ensures extra == Table(cfg)
  {
    hide Offset, NodeOf, Serialize, Concat, ProcessorHeader, Chunks, Layout, NewSocket, NewCore, Tracked, Emitted;
    extra := [];
    var sockets: map<nat, Socket> := map[];
    ghost var done: seq<Entry> := [];
    NothingEmitted(cfg);
    for i := 0 to |cfg.vps|
      invariant done == Layout(cfg, i)
      invariant Emitted(cfg, extra, done)
      invariant Tracked(cfg, sockets, done)
    {
      var vp := cfg.vps[i];
      LayoutUnfold(cfg, i);
      ghost var before := done;
      extra, sockets := EnsureSocket(cfg, extra, sockets, i, done);
      done := done + NewSocket(cfg, before, vp);
      var core;
      extra, sockets, core := EnsureCore(cfg, extra, sockets, i, done);
      done := done + NewCore(cfg, before, vp);
      if cfg.smt {
        EmitOne(cfg, extra, done, Thread(i));
        ThreadNode(cfg, i);
        TrackThread(cfg, sockets, done, i);
        extra := extra + ProcessorHeader(UID_VALID, core, i + 1, 0);
        done := done + [Thread(i)];
      }
    }
    EmittedAll(cfg, extra);
  }

  lemma EmittedAll(cfg: Config, extra: Bytes)
    requires Emitted(cfg, extra, Entries(cfg))
    ensures extra == Table(cfg)
  {
    hide Layout, NodeOf, Serialize;
  }
}
