/** The DMA Remapping table (section 8.3 of the Intel VT-d specification): one DRHD structure per
    remapping unit, each holding device scopes; both levels carry their own lengths. */
module Dmar {
  import opened Wire
  import opened Wrappers

  const DRHD_LENGTH := LengthField(2, true)
  const SCOPE_LENGTH := LengthField(1, false)

  const SCOPE_ENDPOINT := 1
  const SCOPE_BRIDGE := 2
  const SCOPE_IOAPIC := 3
  const IOAPIC_ID := 0

  datatype DeviceScope = DeviceScope(devfn: nat, isBridge: bool)

  datatype Unit = Unit(mmioBase: nat, segment: nat, startBus: nat, scopes: seq<DeviceScope>)

  datatype Config = Config(units: seq<Unit>, ioapicRid: Option<nat>)

  /** A device scope as a reader sees it. */
  datatype Scope = Scope(kind: nat, enumerationId: nat, startBus: nat, devfn: nat)

  datatype Drhd = Drhd(segment: nat, base: nat, scopes: seq<Scope>)

  // ---- Bytes ----

  function ScopeBytes(s: Scope): (b: Bytes)
    ensures |b| == 8
  {
    [s.kind % 256, 8] + Zeros(2) + [s.enumerationId % 256, s.startBus % 256] + [s.devfn / 8 % 256, s.devfn % 8]
  }

  function DrhdHead(segment: nat, base: nat, scopes: nat): (b: Bytes)
    ensures |b| == 16
  {
    Le16(0) + Le16((16 + 8 * scopes) % U16_LIMIT) + [0, 0] + Le16(segment) + Le64(base)
  }

  function ScopeChunks(scopes: seq<Scope>): seq<Bytes> {
    seq(|scopes|, i requires 0 <= i < |scopes| => ScopeBytes(scopes[i]))
  }

  function Serialize(d: Drhd): Bytes {
    DrhdHead(d.segment, d.base, |d.scopes|) + Concat(ScopeChunks(d.scopes))
  }

  function ParseScope(b: Bytes): Option<Scope> {
    if |b| != 8 then None else Some(Scope(b[0], b[4], b[5], (b[6] as int) * 8 + b[7] as int))
  }

  function ParseScopes(chunks: seq<Bytes>): Option<seq<Scope>> {
    if chunks == [] then Some([])
    else
      match (ParseScope(chunks[0]), ParseScopes(chunks[1..]))
      case (Some(s), Some(rest)) => Some([s] + rest)
      case _ => None
  }

  function ParseDrhd(b: Bytes): Option<Drhd> {
    if |b| < 16 then None
    else
      match Frames(b[16..], SCOPE_LENGTH)
      case None => None
      case Some(chunks) =>
        match ParseScopes(chunks)
        case None => None
        case Some(scopes) => Some(Drhd(Get16(b, 6), Get64(b, 8), scopes))
  }

  predicate ScopeFits(s: Scope) {
    s.kind < 256 && s.enumerationId < 256 && s.startBus < 256 && s.devfn < 256
  }

  /** A scope's device and function are recovered from its path. */
  lemma ScopeRoundTrip(s: Scope)
    requires ScopeFits(s)
    ensures Framed(ScopeBytes(s), SCOPE_LENGTH) && ParseScope(ScopeBytes(s)) == Some(s)
  {
  }

  lemma {:induction false} ScopesRoundTrip(scopes: seq<Scope>)
    requires forall s :: s in scopes ==> ScopeFits(s)
    ensures ParseScopes(ScopeChunks(scopes)) == Some(scopes)
  {
    hide ScopeBytes, ScopeFits, ParseScope;
    if scopes != [] {
      ScopeRoundTrip(scopes[0]);
      ScopesRoundTrip(scopes[1..]);
      assert ScopeChunks(scopes)[1..] == ScopeChunks(scopes[1..]);
      assert [scopes[0]] + scopes[1..] == scopes;
    }
  }

  lemma DrhdHeadReadBack(segment: nat, base: nat, scopes: nat, tail: Bytes)
    requires segment < U16_LIMIT && base < U64_LIMIT
    ensures var b := DrhdHead(segment, base, scopes) + tail;
            Get16(b, 2) == (16 + 8 * scopes) % U16_LIMIT && Get16(b, 6) == segment && Get64(b, 8) == base
  {
    hide Get16, Get64, Le16, Le64;
    var b, length := DrhdHead(segment, base, scopes) + tail, (16 + 8 * scopes) % U16_LIMIT;
    assert b[2..4] == Le16(length) && b[6..8] == Le16(segment) && b[8..16] == Le64(base);
    Get16RoundTrip(b, 2, length);
    Get16RoundTrip(b, 6, segment);
    Get64RoundTrip(b, 8, base);
  }

  lemma ScopesSize(scopes: seq<Scope>)
    ensures |Concat(ScopeChunks(scopes))| == 8 * |scopes|
  {
    hide ScopeBytes, Concat;
    UniformStart(ScopeChunks(scopes), 8, |scopes|);
    assert ScopeChunks(scopes)[..|scopes|] == ScopeChunks(scopes);
  }

  predicate DrhdFits(d: Drhd) {
    d.segment < U16_LIMIT && d.base < U64_LIMIT && forall s :: s in d.scopes ==> ScopeFits(s)
  }

  /** A unit reads back whole; it states its own length exactly when that length fits 16 bits. */
  lemma DrhdRoundTrip(d: Drhd)
    requires DrhdFits(d)
    ensures |Serialize(d)| == 16 + 8 * |d.scopes|
    ensures Framed(Serialize(d), DRHD_LENGTH) <==> 16 + 8 * |d.scopes| < U16_LIMIT
    ensures ParseDrhd(Serialize(d)) == Some(d)
  {
    hide ScopeBytes, DrhdHead, ScopeFits, ParseScopes, Frames, Get16, Get64, Concat;
    var b, chunks := Serialize(d), ScopeChunks(d.scopes);
    ScopesSize(d.scopes);
    DrhdHeadReadBack(d.segment, d.base, |d.scopes|, Concat(chunks));
    forall c | c in chunks
      ensures Framed(c, SCOPE_LENGTH)
    {
      var i :| 0 <= i < |d.scopes| && c == ScopeBytes(d.scopes[i]);
      assert d.scopes[i] in d.scopes;
      ScopeRoundTrip(d.scopes[i]);
    }
    FramesRecovered(chunks, SCOPE_LENGTH);
    ScopesRoundTrip(d.scopes);
    assert b[16..] == Concat(chunks);
  }

  // ---- What the table must hold ----

  /** The unit whose bus the IOAPIC's requester ID names. */
  predicate HoldsIoapic(cfg: Config, unit: Unit) {
    cfg.ioapicRid.Some? && unit.segment == 0 && unit.startBus == cfg.ioapicRid.value / 256
  }

  function ScopeOf(unit: Unit, s: DeviceScope): Scope {
    Scope(if s.isBridge then SCOPE_BRIDGE else SCOPE_ENDPOINT, 0, unit.startBus, s.devfn)
  }

  function DeviceScopes(unit: Unit, n: nat): seq<Scope>
    requires n <= |unit.scopes|
  {
    seq(n, i requires 0 <= i < n => ScopeOf(unit, unit.scopes[i]))
  }

  function IoapicScopes(cfg: Config, unit: Unit): seq<Scope> {
    if HoldsIoapic(cfg, unit) then [Scope(SCOPE_IOAPIC, IOAPIC_ID, unit.startBus, cfg.ioapicRid.value % 256)] else []
  }

  function DrhdOf(cfg: Config, unit: Unit): Drhd {
    Drhd(unit.segment, unit.mmioBase, DeviceScopes(unit, |unit.scopes|) + IoapicScopes(cfg, unit))
  }

  function Drhds(cfg: Config, n: nat): seq<Drhd>
    requires n <= |cfg.units|
  {
    seq(n, i requires 0 <= i < n => DrhdOf(cfg, cfg.units[i]))
  }

  function Chunks(ds: seq<Drhd>): seq<Bytes> {
    seq(|ds|, i requires 0 <= i < |ds| => Serialize(ds[i]))
  }

  function Table(cfg: Config): Bytes {
    Concat(Chunks(Drhds(cfg, |cfg.units|)))
  }

  function Matching(cfg: Config, n: nat): nat
    requires n <= |cfg.units|
  {
    if n == 0 then 0 else Matching(cfg, n - 1) + (if HoldsIoapic(cfg, cfg.units[n - 1]) then 1 else 0)
  }

  /** The configuration's fields have their Rust widths. */
  ghost predicate Valid(cfg: Config) {
    && (cfg.ioapicRid.Some? ==> cfg.ioapicRid.value < U16_LIMIT)
    && forall u :: u in cfg.units ==>
         && u.mmioBase < U64_LIMIT && u.segment < U16_LIMIT && u.startBus < 256
         && forall s :: s in u.scopes ==> s.devfn < 256
  }

  /** The unit's DRHD structure is shorter than 64 KiB. */
  predicate LengthFits(cfg: Config, unit: Unit) {
    16 + 8 * (|unit.scopes| + |IoapicScopes(cfg, unit)|) < U16_LIMIT
  }

  lemma DrhdOfFits(cfg: Config, unit: Unit)
    requires Valid(cfg) && unit in cfg.units
    ensures DrhdFits(DrhdOf(cfg, unit))
  {
    forall s | s in DrhdOf(cfg, unit).scopes
      ensures ScopeFits(s)
    {
      if s in DeviceScopes(unit, |unit.scopes|) {
        var i :| 0 <= i < |unit.scopes| && s == ScopeOf(unit, unit.scopes[i]);
        assert unit.scopes[i] in unit.scopes;
      }
    }
  }

  /** Walking by DRHD lengths finds exactly the configured units, with their scopes, if and only if
      every unit's length fits its 16-bit field. */
  lemma WalkRecovers(cfg: Config)
    requires Valid(cfg)
    ensures var drhds := Drhds(cfg, |cfg.units|);
            && (forall i :: 0 <= i < |drhds| ==> ParseDrhd(Chunks(drhds)[i]) == Some(drhds[i]))
            && (Frames(Table(cfg), DRHD_LENGTH) == Some(Chunks(drhds)) <==>
                  forall u :: u in cfg.units ==> LengthFits(cfg, u))
  {
    hide Serialize, ParseDrhd, Frames, Framed, DrhdFits, Concat;
    var drhds := Drhds(cfg, |cfg.units|);
    var chunks := Chunks(drhds);
    forall i | 0 <= i < |drhds|
      ensures ParseDrhd(chunks[i]) == Some(drhds[i]) && |chunks[i]| >= 16
      ensures Framed(chunks[i], DRHD_LENGTH) <==> LengthFits(cfg, cfg.units[i])
    {
      DrhdOfFits(cfg, cfg.units[i]);
      DrhdRoundTrip(drhds[i]);
    }
    if forall u :: u in cfg.units ==> LengthFits(cfg, u) {
      FramesRecovered(chunks, DRHD_LENGTH);
    }
    if Frames(Table(cfg), DRHD_LENGTH) == Some(chunks) {
      FramesFramed(chunks, DRHD_LENGTH);
      forall i | 0 <= i < |cfg.units|
        ensures LengthFits(cfg, cfg.units[i])
      {
        assert chunks[i] in chunks;
      }
    }
  }

  // ---- What a reader learns ----

  function ParseAll(chunks: seq<Bytes>): Option<seq<Drhd>> {
    if chunks == [] then Some([])
    else
      match (ParseDrhd(chunks[0]), ParseAll(chunks[1..]))
      case (Some(d), Some(rest)) => Some([d] + rest)
      case _ => None
  }

  /** The units a reader finds by walking the table. */
  function ReadUnits(b: Bytes): Option<seq<Drhd>> {
    match Frames(b, DRHD_LENGTH)
    case None => None
    case Some(chunks) => ParseAll(chunks)
  }

  lemma {:induction false} ParseAllIs(chunks: seq<Bytes>, ds: seq<Drhd>)
    requires |chunks| == |ds| && forall i :: 0 <= i < |ds| ==> ParseDrhd(chunks[i]) == Some(ds[i])
    ensures ParseAll(chunks) == Some(ds)
  {
    hide ParseDrhd;
    if ds != [] {
      ParseAllIs(chunks[1..], ds[1..]);
      assert ds == [ds[0]] + ds[1..];
    }
  }

  /** What was read is the configured unit: its segment and base, a scope for every device in order,
      with the type, bus and device and function of that device, and after them the IOAPIC's scope
      if and only if the unit is the one on segment 0 whose bus the IOAPIC's requester ID names. */
  ghost predicate Describes(d: Drhd, cfg: Config, unit: Unit) {
    var n := |unit.scopes|;
    var ioapic := cfg.ioapicRid.Some? && unit.segment == 0 && unit.startBus == cfg.ioapicRid.value / 256;
    && d.segment == unit.segment && d.base == unit.mmioBase
    && |d.scopes| == (if ioapic then n + 1 else n)
    && (forall i :: 0 <= i < n ==>
          d.scopes[i] == Scope(if unit.scopes[i].isBridge then 2 else 1, 0, unit.startBus, unit.scopes[i].devfn))
    && (ioapic ==> d.scopes[n] == Scope(3, 0, unit.startBus, cfg.ioapicRid.value % 256))
  }

  /** A reader of the table finds the configured units, if their lengths fit. */
  lemma UnitsRead(cfg: Config)
    requires Valid(cfg) && forall u :: u in cfg.units ==> LengthFits(cfg, u)
    ensures var read := ReadUnits(Table(cfg));
            && read.Some? && |read.value| == |cfg.units|
            && forall i :: 0 <= i < |cfg.units| ==> Describes(read.value[i], cfg, cfg.units[i])
  {
    hide Table, Frames, ParseDrhd, Valid, LengthFits;
    WalkRecovers(cfg);
    ParseAllIs(Chunks(Drhds(cfg, |cfg.units|)), Drhds(cfg, |cfg.units|));
  }

  /** The fixed bytes of a unit and a scope: their types' and lengths' places, no flags, a register set
      of one page. */
  lemma ConstantBytes(d: Drhd, s: Scope)
    ensures Serialize(d)[..2] == [0, 0] && Serialize(d)[4..6] == [0, 0]
    ensures ScopeBytes(s)[1] == 8 && ScopeBytes(s)[2..4] == [0, 0]
  {
    hide Concat, Le64;
  }

  // ---- The IOAPIC ----

  function IoapicCount(scopes: seq<Scope>): nat {
    if scopes == [] then 0
    else IoapicCount(scopes[..|scopes| - 1]) + (if scopes[|scopes| - 1].kind == SCOPE_IOAPIC then 1 else 0)
  }

  /** How many IOAPIC scopes a reader finds in the whole table. */
  function IoapicTotal(ds: seq<Drhd>): nat {
    if ds == [] then 0 else IoapicTotal(ds[..|ds| - 1]) + IoapicCount(ds[|ds| - 1].scopes)
  }

  lemma {:induction false} NoIoapicAmongDevices(unit: Unit, n: nat)
    requires n <= |unit.scopes|
    ensures IoapicCount(DeviceScopes(unit, n)) == 0
  {
    if n > 0 {
      NoIoapicAmongDevices(unit, n - 1);
      assert DeviceScopes(unit, n)[..n - 1] == DeviceScopes(unit, n - 1);
    }
  }

  lemma IoapicInUnit(cfg: Config, unit: Unit)
    ensures IoapicCount(DrhdOf(cfg, unit).scopes) == if HoldsIoapic(cfg, unit) then 1 else 0
  {
    var devices := DeviceScopes(unit, |unit.scopes|);
    NoIoapicAmongDevices(unit, |unit.scopes|);
    if HoldsIoapic(cfg, unit) {
      var all := devices + IoapicScopes(cfg, unit);
      assert all[..|all| - 1] == devices;
    } else {
      assert devices + [] == devices;
    }
  }

  /** The table holds one IOAPIC scope for every unit that covers the IOAPIC's requester ID. */
  lemma {:induction false} IoapicScopesCounted(cfg: Config, n: nat)
    requires n <= |cfg.units|
    ensures IoapicTotal(Drhds(cfg, n)) == Matching(cfg, n)
  {
    hide DrhdOf, IoapicCount, HoldsIoapic;
    if n > 0 {
      IoapicScopesCounted(cfg, n - 1);
      assert Drhds(cfg, n)[..n - 1] == Drhds(cfg, n - 1);
      IoapicInUnit(cfg, cfg.units[n - 1]);
    }
  }

  // ---- The builder ----

  method EmitUnit(cfg: Config, before: Bytes, unit: Unit) returns (extra: Bytes)
    ensures extra == before + Serialize(DrhdOf(cfg, unit))
  {
    hide DrhdHead, ScopeBytes, Concat;
    var ioapic := if cfg.ioapicRid.Some? && unit.segment == 0 && unit.startBus == cfg.ioapicRid.value / 256
                  then Some(cfg.ioapicRid.value % 256) else None;
    extra := before + DrhdHead(unit.segment, unit.mmioBase, |unit.scopes| + (if ioapic.Some? then 1 else 0));
    ghost var start := extra;
    assert ScopeChunks(DeviceScopes(unit, 0)) == [];
    ConcatNothing();
    for i := 0 to |unit.scopes|
      invariant extra == start + Concat(ScopeChunks(DeviceScopes(unit, i)))
    {
      var s := unit.scopes[i];
      var scope := Scope(if s.isBridge then SCOPE_BRIDGE else SCOPE_ENDPOINT, 0, unit.startBus, s.devfn);
      extra := extra + ScopeBytes(scope);
      ghost var done := ScopeChunks(DeviceScopes(unit, i));
      assert ScopeChunks(DeviceScopes(unit, i + 1)) == done + [ScopeBytes(scope)];
      ConcatOne(done, ScopeBytes(scope));
    }
    ghost var devices := DeviceScopes(unit, |unit.scopes|);
    if ioapic.Some? {
      var scope := Scope(SCOPE_IOAPIC, IOAPIC_ID, unit.startBus, ioapic.value);
      extra := extra + ScopeBytes(scope);
      assert ScopeChunks(devices + [scope]) == ScopeChunks(devices) + [ScopeBytes(scope)];
      ConcatOne(ScopeChunks(devices), ScopeBytes(scope));
    } else {
      assert devices + [] == devices;
    }
  }

  /** Emits the table, or panics when the IOAPIC is not covered by exactly one unit. */
  method Build(cfg: Config) returns (r: Option<Bytes>)
    ensures r.Some? <==> (cfg.ioapicRid.Some? ==> Matching(cfg, |cfg.units|) == 1)
    ensures r.Some? ==> r.value == Table(cfg)
  {
    hide Serialize, DrhdOf, Concat;
    if cfg.ioapicRid.Some? && Matching(cfg, |cfg.units|) != 1 { return None; }
    var extra := [];
    assert Chunks(Drhds(cfg, 0)) == [];
    ConcatNothing();
    for i := 0 to |cfg.units|
      invariant extra == Concat(Chunks(Drhds(cfg, i)))
    {
      extra := EmitUnit(cfg, extra, cfg.units[i]);
      ghost var done, chunk := Chunks(Drhds(cfg, i)), Serialize(DrhdOf(cfg, cfg.units[i]));
      assert Chunks(Drhds(cfg, i + 1)) == done + [chunk];
      ConcatOne(done, chunk);
    }
    r := Some(extra);
  }
}
