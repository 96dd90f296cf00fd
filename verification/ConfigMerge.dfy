/** How the partial configs that callers send to one node become a single config. A config is a list
    of fields, each an optional value or a table; `Lookup` is what a config says about one slot. */
module ConfigMerge {
  import opened Wrappers

  datatype Field<K, V> = Scalar(value: Option<V>) | Table(entries: map<K, V>)

  type Config<K, V> = seq<Field<K, V>>

  /** Which kind each field of the config struct has. */
  datatype Kind = OptionField | TableField

  datatype Slot<K> = Whole | At(key: K)

  predicate HasShape<K, V>(c: Config<K, V>, shape: seq<Kind>) {
    |c| == |shape| && forall i :: 0 <= i < |c| ==> (c[i].Table? <==> shape[i] == TableField)
  }

  function Default<K, V>(shape: seq<Kind>): (c: Config<K, V>)
    ensures HasShape(c, shape)
  {
    seq(|shape|, i requires 0 <= i < |shape| => if shape[i] == TableField then Table(map[]) else Scalar(None))
  }

  function Look<K(==), V>(f: Field<K, V>, s: Slot<K>): Option<V> {
    match f
    case Scalar(value) => if s.Whole? then value else None
    case Table(entries) => if s.At? && s.key in entries then Some(entries[s.key]) else None
  }

  function Lookup<K(==), V>(c: Config<K, V>, i: nat, s: Slot<K>): Option<V> {
    if i < |c| then Look(c[i], s) else None
  }

  predicate Compatible<V(==)>(a: Option<V>, b: Option<V>) {
    a.Some? && b.Some? ==> a == b
  }

  function Either<V>(a: Option<V>, b: Option<V>): Option<V> {
    if a.Some? then a else b
  }

  // ---- Merging ----

  /** First setter wins; later setters must agree. */
  method MergeScalar<V(==)>(current: Option<V>, other: Option<V>) returns (merged: Option<Option<V>>)
    ensures merged.Some? <==> Compatible(current, other)
    ensures merged.Some? ==> merged.value == Either(current, other)
  {
    if other.Some? {
      if current.None? {
        return Some(other);
      } else if current.value != other.value {
        return None;
      }
    }
    merged := Some(current);
  }

  predicate TablesAgree<K(==), V(==)>(a: map<K, V>, b: map<K, V>) {
    forall k :: k in a && k in b ==> a[k] == b[k]
  }

  /** Key by key, each key's value must agree. */
  method MergeTable<K(==), V(==)>(table: map<K, V>, other: map<K, V>) returns (merged: Option<map<K, V>>)
    ensures merged.Some? <==> TablesAgree(table, other)
    ensures merged.Some? ==> merged.value == table + other
  {
    var self, keys := table, other.Keys;
    while keys != {}
      invariant keys <= other.Keys
      invariant self.Keys == table.Keys + (other.Keys - keys)
      invariant forall k :: k in table ==> self[k] == table[k]
      invariant forall k :: k in other && k !in keys ==> self[k] == other[k]
      decreases |keys|
    {
      var k :| k in keys;
      if k !in self {
        self := self[k := other[k]];
      } else if self[k] != other[k] {
        return None;
      }
      keys := keys - {k};
    }
    merged := Some(self);
  }

  function MergeField<K, V(==)>(a: Field<K, V>, b: Field<K, V>): Option<Field<K, V>> {
    if a.Scalar? && b.Scalar? then
      if Compatible(a.value, b.value) then Some(Scalar(Either(a.value, b.value))) else None
    else if a.Table? && b.Table? then
      if TablesAgree(a.entries, b.entries) then Some(Table(a.entries + b.entries)) else None
    else None
  }

  /** Field by field, in the order the struct declares them. */
  function Merge<K, V(==)>(a: Config<K, V>, b: Config<K, V>): Option<Config<K, V>>
    requires |a| == |b|
  {
    if a == [] then Some([])
    else
      var head := MergeField(a[0], b[0]);
      if head.None? then None
      else
        var tail := Merge(a[1..], b[1..]);
        if tail.None? then None else Some([head.value] + tail.value)
  }

  function Fold<K, V(==)>(merged: Config<K, V>, partials: seq<Config<K, V>>): Option<Config<K, V>>
    decreases |partials|
  {
    if partials == [] then Some(merged)
    else if |merged| != |partials[0]| || Merge(merged, partials[0]).None? then None
    else Fold(Merge(merged, partials[0]).value, partials[1..])
  }

  class Accumulator<K(==), V(==)> {
    var fields: Config<K, V>

    constructor (shape: seq<Kind>)
      ensures fields == Default(shape)
    {
      fields := Default(shape);
    }

    method MergeFieldAt(i: nat, other: Field<K, V>) returns (ok: bool)
      requires i < |fields| && fields[i].Table? == other.Table?
      modifies this
      ensures ok <==> MergeField(old(fields[i]), other).Some?
      ensures fields == if ok then old(fields)[i := MergeField(old(fields[i]), other).value] else old(fields)
    {
      ok := true;
      match other {
        case Scalar(value) =>
          var merged := MergeScalar(fields[i].value, value);
          if merged.None? { return false; }
          fields := fields[i := Scalar(merged.value)];
        case Table(entries) =>
          var merged := MergeTable(fields[i].entries, entries);
          if merged.None? { return false; }
          fields := fields[i := Table(merged.value)];
      }
    }

    /** After a failure the fields merged so far have changed, and the caller gives up. */
    method MergeWith(shape: seq<Kind>, other: Config<K, V>) returns (ok: bool)
      requires HasShape(fields, shape) && HasShape(other, shape)
      modifies this
      ensures HasShape(fields, shape)
      ensures ok <==> Merge(old(fields), other).Some?
      ensures ok ==> Merge(old(fields), other) == Some(fields)
    {
      hide Merge, MergeField;
      MergeNothing<K, V>();
      var i := 0;
      ghost var start := fields;
      while i < |other|
        invariant 0 <= i <= |other| && HasShape(fields, shape)
        invariant fields[i..] == start[i..]
        invariant Merge(start[..i], other[..i]) == Some(fields[..i])
      {
        MergeSnoc(start[..i + 1], other[..i + 1]);
        assert start[..i + 1][..i] == start[..i] && other[..i + 1][..i] == other[..i];
        assert fields[i] == fields[i..][0] == start[i];
        MergedKind(fields[i], other[i]);
        ok := MergeFieldAt(i, other[i]);
        if !ok {
          MergePrefix(start, other, i + 1);
          return false;
        }
        assert fields[..i + 1] == fields[..i] + [fields[i]];
        assert fields[i + 1..] == start[i + 1..];
        i := i + 1;
      }
      assert start[..i] == start && other[..i] == other && fields[..i] == fields;
      ok := true;
    }
  }

  lemma MergeNothing<K, V>()
    ensures Merge<K, V>([], []) == Some([])
  {
  }

  lemma MergedKind<K, V>(a: Field<K, V>, b: Field<K, V>)
    requires a.Table? == b.Table?
    ensures MergeField(a, b).Some? ==> MergeField(a, b).value.Table? == a.Table?
  {
  }

  /** What a node with config does before it emits: default, then one merge for each partial. */
  method MergeAll<K(==), V(==)>(shape: seq<Kind>, partials: seq<Config<K, V>>) returns (merged: Option<Config<K, V>>)
    requires forall c :: c in partials ==> HasShape(c, shape)
    ensures merged == Fold(Default(shape), partials)
  {
    var acc := new Accumulator<K, V>(shape);
    var i := 0;
    while i < |partials|
      invariant 0 <= i <= |partials| && HasShape(acc.fields, shape)
      invariant Fold(acc.fields, partials[i..]) == Fold(Default(shape), partials)
    {
      assert partials[i..][0] == partials[i] && partials[i..][1..] == partials[i + 1..];
      var ok := acc.MergeWith(shape, partials[i]);
      if !ok { return None; }
      i := i + 1;
    }
    merged := Some(acc.fields);
  }

  lemma {:induction false} MergeSnoc<K, V>(a: Config<K, V>, b: Config<K, V>)
    requires |a| == |b| > 0
    ensures var n := |a| - 1;
            var init := Merge(a[..n], b[..n]);
            var last := MergeField(a[n], b[n]);
            Merge(a, b) == if init.None? || last.None? then None else Some(init.value + [last.value])
  {
    var n := |a| - 1;
    if n > 0 {
      MergeSnoc(a[1..], b[1..]);
      assert a[1..][..n - 1] == a[..n][1..] && b[1..][..n - 1] == b[..n][1..];
      var mid := Merge(a[..n][1..], b[..n][1..]);
      var first, last := MergeField(a[0], b[0]), MergeField(a[n], b[n]);
      if mid.Some? && first.Some? && last.Some? {
        assert [first.value] + (mid.value + [last.value]) == ([first.value] + mid.value) + [last.value];
      }
    } else {
      assert a[1..] == [] && b[1..] == [] && a[..n] == [] && b[..n] == [];
      assert Merge(a[1..], b[1..]) == Some([]) && Merge(a[..n], b[..n]) == Some([]);
      var last := MergeField(a[0], b[0]);
      if last.Some? { assert [last.value] + [] == [] + [last.value]; }
    }
  }

  lemma {:induction false} MergePrefix<K, V>(a: Config<K, V>, b: Config<K, V>, n: nat)
    requires n <= |a| == |b| && Merge(a[..n], b[..n]).None?
    ensures Merge(a, b).None?
    decreases |a|
  {
    if n == |a| {
      assert a[..n] == a && b[..n] == b;
    } else {
      MergeSnoc(a, b);
      var m := |a| - 1;
      assert a[..m][..n] == a[..n] && b[..m][..n] == b[..n];
      MergePrefix(a[..m], b[..m], n);
    }
  }

  // ---- What merging means ----

  ghost predicate Agrees<K(!new), V(!new)>(a: Config<K, V>, b: Config<K, V>) {
    forall i: nat, s: Slot<K> :: Compatible(Lookup(a, i, s), Lookup(b, i, s))
  }

  /** `m` says exactly what `a` and `b` say together. */
  ghost predicate Joins<K(!new), V(!new)>(m: Config<K, V>, a: Config<K, V>, b: Config<K, V>) {
    forall i: nat, s: Slot<K> :: Lookup(m, i, s) == Either(Lookup(a, i, s), Lookup(b, i, s))
  }

  ghost predicate PairwiseAgree<K(!new), V(!new)>(cs: seq<Config<K, V>>) {
    forall a, b :: a in cs && b in cs ==> Agrees(a, b)
  }

  /** `m` says exactly what some member of `cs` says. */
  ghost predicate Union<K(!new), V(!new)>(m: Config<K, V>, cs: seq<Config<K, V>>) {
    forall i: nat, s: Slot<K>, v: V ::
      Lookup(m, i, s) == Some(v) <==> exists c :: c in cs && Lookup(c, i, s) == Some(v)
  }

  lemma FieldExact<K(!new), V(!new)>(a: Field<K, V>, b: Field<K, V>)
    requires a.Table? == b.Table?
    ensures MergeField(a, b).Some? <==> forall s: Slot<K> :: Compatible(Look(a, s), Look(b, s))
    ensures MergeField(a, b).Some? ==>
              forall s: Slot<K> :: Look(MergeField(a, b).value, s) == Either(Look(a, s), Look(b, s))
  {
    if a.Table? {
      if forall s: Slot<K> :: Compatible(Look(a, s), Look(b, s)) {
        forall k | k in a.entries && k in b.entries ensures a.entries[k] == b.entries[k] {
          assert Compatible(Look(a, At(k)), Look(b, At(k)));
        }
      }
    } else {
      assert Compatible(Look(a, Whole), Look(b, Whole)) <==> Compatible(a.value, b.value);
    }
  }

  lemma LookupTail<K(!new), V(!new)>(c: Config<K, V>, i: nat, s: Slot<K>)
    requires c != []
    ensures Lookup(c, i, s) == if i == 0 then Look(c[0], s) else Lookup(c[1..], i - 1, s)
  {
  }

  lemma AgreesSplit<K(!new), V(!new)>(a: Config<K, V>, b: Config<K, V>)
    requires a != [] && b != []
    ensures Agrees(a, b) <==> (forall s: Slot<K> :: Compatible(Look(a[0], s), Look(b[0], s))) && Agrees(a[1..], b[1..])
  {
    if Agrees(a, b) {
      forall s: Slot<K> ensures Compatible(Look(a[0], s), Look(b[0], s)) {
        assert Compatible(Lookup(a, 0, s), Lookup(b, 0, s));
      }
      forall i: nat, s: Slot<K> ensures Compatible(Lookup(a[1..], i, s), Lookup(b[1..], i, s)) {
        assert Compatible(Lookup(a, i + 1, s), Lookup(b, i + 1, s));
      }
    }
    if (forall s: Slot<K> :: Compatible(Look(a[0], s), Look(b[0], s))) && Agrees(a[1..], b[1..]) {
      forall i: nat, s: Slot<K> ensures Compatible(Lookup(a, i, s), Lookup(b, i, s)) {
        LookupTail(a, i, s);
        LookupTail(b, i, s);
      }
    }
  }

  /** A merge succeeds exactly when the two configs agree, and then says what both say. */
  lemma {:induction false} MergeExact<K(!new), V(!new)>(shape: seq<Kind>, a: Config<K, V>, b: Config<K, V>)
    requires HasShape(a, shape) && HasShape(b, shape)
    ensures Merge(a, b).Some? <==> Agrees(a, b)
    ensures Merge(a, b).Some? ==> HasShape(Merge(a, b).value, shape) && Joins(Merge(a, b).value, a, b)
  {
    if a != [] {
      hide HasShape, MergeField, Look;
      TailShape(a, shape);
      TailShape(b, shape);
      MergeExact(shape[1..], a[1..], b[1..]);
      AgreesSplit(a, b);
      FieldExact(a[0], b[0]);
      if Merge(a, b).Some? {
        var m := Merge(a, b).value;
        assert m[1..] == Merge(a[1..], b[1..]).value;
        ConsShape(m, shape, a[0], b[0]);
        forall i: nat, s: Slot<K> ensures Lookup(m, i, s) == Either(Lookup(a, i, s), Lookup(b, i, s)) {
          LookupTail(a, i, s);
          LookupTail(b, i, s);
          LookupTail(m, i, s);
        }
      }
    }
  }

  lemma TailShape<K, V>(a: Config<K, V>, shape: seq<Kind>)
    requires HasShape(a, shape) && a != []
    ensures shape != [] && HasShape(a[1..], shape[1..]) && (a[0].Table? <==> shape[0] == TableField)
  {
  }

  lemma ConsShape<K, V>(m: Config<K, V>, shape: seq<Kind>, a: Field<K, V>, b: Field<K, V>)
    requires m != [] && shape != [] && HasShape(m[1..], shape[1..])
    requires a.Table? == b.Table? == (shape[0] == TableField) && MergeField(a, b) == Some(m[0])
    ensures HasShape(m, shape)
  {
    forall i | 0 <= i < |m| ensures m[i].Table? <==> shape[i] == TableField {
      if i > 0 { assert m[i] == m[1..][i - 1] && shape[i] == shape[1..][i - 1]; }
    }
  }

  /** Agreeing with the join of two configs is agreeing with both. */
  lemma AgreesWithJoin<K(!new), V(!new)>(m: Config<K, V>, a: Config<K, V>, b: Config<K, V>, c: Config<K, V>)
    requires Joins(m, a, b) && Agrees(a, b)
    ensures Agrees(m, c) <==> Agrees(a, c) && Agrees(b, c)
    ensures Agrees(c, m) <==> Agrees(m, c)
  {
    if Agrees(m, c) {
      forall i: nat, s: Slot<K> ensures Compatible(Lookup(a, i, s), Lookup(c, i, s)) && Compatible(Lookup(b, i, s), Lookup(c, i, s)) {
        assert Compatible(Lookup(m, i, s), Lookup(c, i, s)) && Compatible(Lookup(a, i, s), Lookup(b, i, s));
        assert Lookup(m, i, s) == Either(Lookup(a, i, s), Lookup(b, i, s));
      }
    }
  }

  lemma AgreesSymmetric<K(!new), V(!new)>(a: Config<K, V>, b: Config<K, V>)
    ensures Agrees(a, b) <==> Agrees(b, a)
    ensures Agrees(a, a)
  {
  }

  lemma PairwiseCons<K(!new), V(!new)>(m: Config<K, V>, cs: seq<Config<K, V>>)
    ensures PairwiseAgree([m] + cs) <==> PairwiseAgree(cs) && forall c :: c in cs ==> Agrees(m, c)
  {
    hide Agrees;
    forall c ensures (Agrees(m, c) <==> Agrees(c, m)) && Agrees(c, c) { AgreesSymmetric(m, c); AgreesSymmetric(c, c); }
    if PairwiseAgree([m] + cs) {
      forall a, b | a in cs && b in cs ensures Agrees(a, b) { assert a in [m] + cs && b in [m] + cs; }
      forall c | c in cs ensures Agrees(m, c) { assert m in [m] + cs && c in [m] + cs; }
    }
  }

  /** Folding succeeds exactly when every two contributions agree, and then says what they all say. */
  lemma {:induction false} FoldFromExact<K(!new), V(!new)>(shape: seq<Kind>, m: Config<K, V>, cs: seq<Config<K, V>>)
    requires HasShape(m, shape) && forall c :: c in cs ==> HasShape(c, shape)
    ensures Fold(m, cs).Some? <==> PairwiseAgree([m] + cs)
    ensures Fold(m, cs).Some? ==> HasShape(Fold(m, cs).value, shape) && Union(Fold(m, cs).value, [m] + cs)
    decreases |cs|
  {
    hide Agrees, PairwiseAgree, Joins, Merge, HasShape, Union;
    if cs == [] {
      PairwiseOne(m);
    } else {
      var c, rest := cs[0], cs[1..];
      assert cs == [c] + rest;
      ShapeLength(m, shape);
      ShapeLength(c, shape);
      MergeExact(shape, m, c);
      PairwiseCons(m, cs);
      PairwiseCons(c, rest);
      if Merge(m, c).Some? {
        var j := Merge(m, c).value;
        FoldFromExact(shape, j, rest);
        PairwiseCons(j, rest);
        forall d | d in rest ensures Agrees(j, d) <==> Agrees(m, d) && Agrees(c, d) {
          AgreesWithJoin(j, m, c, d);
        }
        if Fold(j, rest).Some? { UnionOfJoin(Fold(j, rest).value, j, m, c, rest); }
      }
    }
  }

  lemma ShapeLength<K, V>(c: Config<K, V>, shape: seq<Kind>)
    requires HasShape(c, shape)
    ensures |c| == |shape|
  {
  }

  lemma PairwiseOne<K(!new), V(!new)>(m: Config<K, V>)
    ensures PairwiseAgree([m] + []) && Union(m, [m] + [])
  {
    assert [m] + [] == [m];
    forall i: nat, s: Slot<K>, v: V ensures Lookup(m, i, s) == Some(v) <==> exists c :: c in [m] && Lookup(c, i, s) == Some(v) {
      assert m in [m];
    }
  }

  lemma UnionOfJoin<K(!new), V(!new)>(u: Config<K, V>, j: Config<K, V>, m: Config<K, V>, c: Config<K, V>, rest: seq<Config<K, V>>)
    requires Union(u, [j] + rest) && Joins(j, m, c) && Agrees(m, c)
    ensures Union(u, [m] + ([c] + rest))
  {
    var all := [m] + ([c] + rest);
    forall i: nat, s: Slot<K>, v: V
      ensures Lookup(u, i, s) == Some(v) <==> exists x :: x in all && Lookup(x, i, s) == Some(v)
    {
      assert Lookup(j, i, s) == Either(Lookup(m, i, s), Lookup(c, i, s));
      assert Compatible(Lookup(m, i, s), Lookup(c, i, s));
      assert m in all && c in all && j in [j] + rest;
      if Lookup(u, i, s) == Some(v) {
        var x :| x in [j] + rest && Lookup(x, i, s) == Some(v);
        if x in rest { assert x in all; }
      }
      if x :| x in all && Lookup(x, i, s) == Some(v) {
        if x in rest { assert x in [j] + rest; } else { assert Lookup(j, i, s) == Some(v); }
      }
    }
  }

  /** The config a node sees: defined exactly when the contributions agree pairwise on every optional
      field and every table key they share, and then their union. */
  lemma FoldExact<K(!new), V(!new)>(shape: seq<Kind>, cs: seq<Config<K, V>>)
    requires forall c :: c in cs ==> HasShape(c, shape)
    ensures Fold(Default(shape), cs).Some? <==> PairwiseAgree(cs)
    ensures Fold(Default(shape), cs).Some? ==>
              HasShape(Fold(Default(shape), cs).value, shape) && Union(Fold(Default(shape), cs).value, cs)
  {
    var empty: Config<K, V> := Default(shape);
    FoldFromExact(shape, empty, cs);
    PairwiseCons(empty, cs);
    if Fold(empty, cs).Some? {
      var m := Fold(empty, cs).value;
      forall i: nat, s: Slot<K>, v: V
        ensures Lookup(m, i, s) == Some(v) <==> exists c :: c in cs && Lookup(c, i, s) == Some(v)
      {
        if Lookup(m, i, s) == Some(v) {
          var c :| c in [empty] + cs && Lookup(c, i, s) == Some(v);
          assert c in cs;
        }
        if c :| c in cs && Lookup(c, i, s) == Some(v) { assert c in [empty] + cs; }
      }
    }
  }

  lemma SameLookups<K(!new), V(!new)>(shape: seq<Kind>, a: Config<K, V>, b: Config<K, V>)
    requires HasShape(a, shape) && HasShape(b, shape)
    requires forall i: nat, s: Slot<K> :: Lookup(a, i, s) == Lookup(b, i, s)
    ensures a == b
  {
    forall i | 0 <= i < |a| ensures a[i] == b[i] {
      assert Lookup(a, i, Whole) == Lookup(b, i, Whole);
      if a[i].Table? {
        forall k ensures (k in a[i].entries <==> k in b[i].entries) && (k in a[i].entries ==> a[i].entries[k] == b[i].entries[k]) {
          assert Lookup(a, i, At(k)) == Lookup(b, i, At(k));
        }
        assert a[i].entries == b[i].entries;
      }
    }
  }

  /** Only the set of contributions matters: not their order, not how often each is made. */
  lemma OrderIrrelevant<K(!new), V(!new)>(shape: seq<Kind>, cs: seq<Config<K, V>>, ds: seq<Config<K, V>>)
    requires forall c :: c in cs ==> HasShape(c, shape)
    requires forall c :: c in cs <==> c in ds
    ensures Fold(Default(shape), cs) == Fold(Default(shape), ds)
  {
    hide Agrees, Fold, HasShape;
    FoldExact(shape, cs);
    FoldExact(shape, ds);
    var x, y := Fold(Default(shape), cs), Fold(Default(shape), ds);
    if x.Some? && y.Some? {
      forall i: nat, s: Slot<K> ensures Lookup(x.value, i, s) == Lookup(y.value, i, s) {
        SameUnion(x.value, y.value, cs, ds, i, s);
      }
      SameLookups(shape, x.value, y.value);
    }
  }

  lemma SameUnion<K(!new), V(!new)>(m: Config<K, V>, n: Config<K, V>, cs: seq<Config<K, V>>, ds: seq<Config<K, V>>, i: nat, s: Slot<K>)
    requires Union(m, cs) && Union(n, ds) && forall c :: c in cs <==> c in ds
    ensures Lookup(m, i, s) == Lookup(n, i, s)
  {
    if Lookup(m, i, s).Some? {
      var v := Lookup(m, i, s).value;
      var c :| c in cs && Lookup(c, i, s) == Some(v);
      assert c in ds;
    }
    if Lookup(n, i, s).Some? {
      var v := Lookup(n, i, s).value;
      var c :| c in ds && Lookup(c, i, s) == Some(v);
      assert c in cs;
    }
  }
}
