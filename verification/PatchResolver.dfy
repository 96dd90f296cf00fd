/** Resolving patches: swaps of one node for another, and side effects injected into nodes, which
    `Finalize` moves along the swaps in the order of the swapped nodes. */
module PatchResolver {
  import opened Wire
  import opened Wrappers

  /** Node handles, by the order the maps keep them in. */
  type Node = nat

  datatype Effect = Effect(node: Node, variable: string, request: Bytes)

  datatype Patch = Swap(from: Node, to: Node) | Inject(from: Node, node: Node, request: Bytes)

  type Swaps = map<Node, Node>

  type Injections = map<Node, seq<Effect>>

  datatype Resolver = Resolver(counter: nat, swap: Swaps, inject: Injections)

  // ---- Variable names ----

  function Digits(n: nat): (s: string)
    ensures s != []
  {
    if n < 10 then [Digit(n)] else Digits(n / 10) + [Digit(n % 10)]
  }

  function Digit(d: nat): char
    requires d < 10
  {
    "0123456789"[d]
  }

  lemma {:induction false} DigitsInjective(a: nat, b: nat)
    requires Digits(a) == Digits(b)
    ensures a == b
  {
    var s := Digits(a);
    var last := s[|s| - 1];
    assert last == Digit(a % 10) && last == Digit(b % 10);
    DigitInjective(a % 10, b % 10);
    if a >= 10 && b >= 10 {
      assert s[..|s| - 1] == Digits(a / 10) && s[..|s| - 1] == Digits(b / 10);
      DigitsInjective(a / 10, b / 10);
    }
  }

  lemma DigitInjective(a: nat, b: nat)
    requires a < 10 && b < 10 && Digit(a) == Digit(b)
    ensures a == b
  {
  }

  function Name(n: nat): string {
    "patch_side_effect:" + Digits(n)
  }

  lemma NameInjective(a: nat, b: nat)
    requires Name(a) == Name(b)
    ensures a == b
  {
    hide Digits;
    var prefix := "patch_side_effect:";
    assert Name(a)[|prefix|..] == Digits(a) && Name(b)[|prefix|..] == Digits(b);
    DigitsInjective(a, b);
  }

  // ---- Applying patches ----

  function At(inject: Injections, n: Node): seq<Effect> {
    if n in inject then inject[n] else []
  }

  /** `None` is the assertion against swapping the same node twice. */
  function Apply(r: Resolver, p: Patch): Option<Resolver> {
    match p
    case Swap(from, to) =>
      if from in r.swap then None else Some(r.(swap := r.swap[from := to]))
    case Inject(from, node, request) =>
      var effect := Effect(node, Name(r.counter + 1), request);
      Some(r.(counter := r.counter + 1, inject := r.inject[from := At(r.inject, from) + [effect]]))
  }

  function Resolve(ps: seq<Patch>): Option<Resolver> {
    if ps == [] then Some(Resolver(0, map[], map[]))
    else
      var before := Resolve(ps[..|ps| - 1]);
      if before.None? then None else Apply(before.value, ps[|ps| - 1])
  }

  // ---- Finalising ----

  predicate Lower(keys: set<Node>, k: Node) {
    forall j :: j in keys ==> k <= j
  }

  lemma {:induction false} LeastExists(keys: set<Node>)
    requires keys != {}
    ensures exists k :: k in keys && Lower(keys, k)
    decreases keys
  {
    var x :| x in keys;
    var rest := keys - {x};
    assert forall j :: j in keys ==> j == x || j in rest;
    if rest == {} {
      assert Lower(keys, x);
    } else {
      LeastExists(rest);
      var k :| k in rest && Lower(rest, k);
      assert Lower(keys, if x <= k then x else k);
    }
  }

  function Least(keys: set<Node>): (k: Node)
    requires keys != {}
    ensures k in keys && Lower(keys, k)
  {
    LeastExists(keys);
    var k :| k in keys && Lower(keys, k);
    k
  }

  function Hop(inject: Injections, from: Node, to: Node): Injections {
    if from in inject then (inject - {from})[to := inject[from]] else inject
  }

  /** The moves for the swapped nodes in `keys`, in ascending order. */
  function Moves(inject: Injections, swap: Swaps, keys: set<Node>): Injections
    requires keys <= swap.Keys
    decreases keys
  {
    if keys == {} then inject
    else
      var from := Least(keys);
      Moves(Hop(inject, from, swap[from]), swap, keys - {from})
  }

  class PatchResolver {
    var counter: nat
    var swap: Swaps
    var inject: Injections

    constructor ()
      ensures View() == Resolver(0, map[], map[])
    {
      counter, swap, inject := 0, map[], map[];
    }

    ghost function View(): Resolver
      reads this
    {
      Resolver(counter, swap, inject)
    }

    method NewSideEffectVar() returns (name: string)
      modifies this
      ensures name == Name(old(counter) + 1)
      ensures View() == old(View()).(counter := old(counter) + 1)
    {
      counter := counter + 1;
      name := "patch_side_effect:" + Digits(counter);
    }

    /** Swapping inserts before it asserts; nothing runs after the assertion fails. */
    method OnSwap(from: Node, to: Node) returns (ok: bool)
      modifies this
      ensures ok <==> Apply(old(View()), Swap(from, to)).Some?
      ensures ok ==> Apply(old(View()), Swap(from, to)) == Some(View())
    {
      ok := from !in swap;
      swap := swap[from := to];
    }

    method InjectSideEffect(from: Node, node: Node, request: Bytes)
      modifies this
      ensures Apply(old(View()), Inject(from, node, request)) == Some(View())
    {
      var name := NewSideEffectVar();
      ghost var before := inject;
      if from !in inject { inject := inject[from := []]; }
      inject := inject[from := inject[from] + [Effect(node, name, request)]];
      assert inject == before[from := At(before, from) + [Effect(node, name, request)]];
    }

    method ApplyAll(ps: seq<Patch>) returns (ok: bool)
      requires View() == Resolver(0, map[], map[])
      modifies this
      ensures ok <==> Resolve(ps).Some?
      ensures ok ==> Resolve(ps) == Some(View())
    {
      hide Apply;
      var i := 0;
      while i < |ps|
        invariant 0 <= i <= |ps| && Resolve(ps[..i]) == Some(View())
      {
        assert ps[..i + 1][..i] == ps[..i];
        match ps[i] {
          case Swap(from, to) =>
            ok := OnSwap(from, to);
            if !ok {
              ResolvePrefix(ps, i + 1);
              return;
            }
          case Inject(from, node, request) =>
            InjectSideEffect(from, node, request);
        }
        i := i + 1;
      }
      assert ps[..i] == ps;
      ok := true;
    }

    method Finalize() returns (final: Injections)
      ensures final == Moves(inject, swap, swap.Keys)
    {
      final := inject;
      var keys := swap.Keys;
      while keys != {}
        invariant keys <= swap.Keys
        invariant Moves(final, swap, keys) == Moves(inject, swap, swap.Keys)
        decreases keys
      {
        LeastExists(keys);
        var from :| from in keys && Lower(keys, from);
        assert from == Least(keys);
        if from in final {
          var injected := final[from];
          final := final - {from};
          final := final[swap[from] := injected];
        }
        keys := keys - {from};
      }
    }
  }

  lemma {:induction false} ResolvePrefix(ps: seq<Patch>, n: nat)
    requires n <= |ps| && Resolve(ps[..n]).None?
    ensures Resolve(ps).None?
    decreases |ps|
  {
    if n == |ps| {
      assert ps[..n] == ps;
    } else {
      assert ps[..|ps| - 1][..n] == ps[..n];
      ResolvePrefix(ps[..|ps| - 1], n);
    }
  }

  // ---- What applying patches records ----

  /** No two recorded effects share a variable. */
  ghost predicate DistinctNames(inject: Injections) {
    forall m, i, n, j ::
      m in inject && n in inject && 0 <= i < |inject[m]| && 0 <= j < |inject[n]| && (m != n || i != j) ==>
        inject[m][i].variable != inject[n][j].variable
  }

  /** Every variable is one of the first `counter` names. */
  ghost predicate NamesUsed(r: Resolver) {
    forall n, i :: n in r.inject && 0 <= i < |r.inject[n]| ==> Issued(r.inject[n][i].variable, r.counter)
  }

  ghost predicate Issued(name: string, counter: nat) {
    exists k: nat :: k <= counter && name == Name(k)
  }

  ghost predicate NoEmptyList(inject: Injections) {
    forall n :: n in inject ==> inject[n] != []
  }

  lemma IssuedBefore(name: string, counter: nat)
    requires Issued(name, counter)
    ensures Issued(name, counter + 1) && name != Name(counter + 1)
  {
    var k: nat :| k <= counter && name == Name(k);
    if name == Name(counter + 1) { NameInjective(k, counter + 1); }
  }

  lemma ApplyKeepsNames(r: Resolver, p: Patch)
    requires DistinctNames(r.inject) && NamesUsed(r) && NoEmptyList(r.inject) && Apply(r, p).Some?
    ensures var q := Apply(r, p).value; DistinctNames(q.inject) && NamesUsed(q) && NoEmptyList(q.inject)
  {
    hide Name, Issued;
    var q := Apply(r, p).value;
    if p.Inject? {
      NewIssued(q.counter);
      forall n, i | n in r.inject && 0 <= i < |r.inject[n]|
        ensures r.inject[n][i].variable != Name(q.counter) && Issued(r.inject[n][i].variable, q.counter)
      {
        IssuedBefore(r.inject[n][i].variable, r.counter);
      }
      forall n, i | n in q.inject && 0 <= i < |q.inject[n]|
        ensures if n == p.from && i == |At(r.inject, n)| then q.inject[n][i].variable == Name(q.counter)
                else n in r.inject && i < |r.inject[n]| && q.inject[n][i] == r.inject[n][i]
      {
      }
    }
  }

  lemma NewIssued(counter: nat)
    ensures Issued(Name(counter), counter)
  {
  }

  /** The side-effect variables of all applied patches are pairwise distinct. */
  lemma {:induction false} ResolvedNamesDistinct(ps: seq<Patch>)
    requires Resolve(ps).Some?
    ensures var r := Resolve(ps).value; DistinctNames(r.inject) && NamesUsed(r) && NoEmptyList(r.inject)
    decreases |ps|
  {
    hide Apply, DistinctNames, NamesUsed, NoEmptyList;
    if ps == [] {
      EmptyNames();
    } else {
      var before := ps[..|ps| - 1];
      ResolvedNamesDistinct(before);
      ApplyKeepsNames(Resolve(before).value, ps[|ps| - 1]);
    }
  }

  lemma EmptyNames()
    ensures DistinctNames(map[]) && NamesUsed(Resolver(0, map[], map[])) && NoEmptyList(map[])
  {
  }

  ghost predicate SwapAt(ps: seq<Patch>, i: nat, n: Node) {
    i < |ps| && ps[i].Swap? && ps[i].from == n
  }

  lemma SwapAtInit(ps: seq<Patch>, i: nat, n: Node)
    requires ps != []
    ensures SwapAt(ps, i, n) <==> SwapAt(ps[..|ps| - 1], i, n) || (i == |ps| - 1 && ps[i].Swap? && ps[i].from == n)
  {
  }

  /** Every swap is recorded, and resolving fails exactly when a node is swapped twice. */
  lemma {:induction false} ResolvedSwaps(ps: seq<Patch>)
    ensures Resolve(ps).None? <==> exists n: Node, i: nat, j: nat :: i < j && SwapAt(ps, i, n) && SwapAt(ps, j, n)
    ensures Resolve(ps).Some? ==> forall n: Node :: n in Resolve(ps).value.swap <==> exists i: nat :: SwapAt(ps, i, n)
    ensures Resolve(ps).Some? ==>
              forall n: Node, i: nat :: SwapAt(ps, i, n) ==> i < |ps| && Resolve(ps).value.swap[n] == ps[i].to
    decreases |ps|
  {
    hide SwapAt, Name;
    if ps == [] {
      forall n: Node, i: nat ensures !SwapAt(ps, i, n) { NoSwaps(i, n); }
    } else {
      var last := |ps| - 1;
      var init, p := ps[..last], ps[last];
      ResolvedSwaps(init);
      forall n: Node, i: nat ensures SwapAt(ps, i, n) <==> SwapAt(init, i, n) || (i == last && p.Swap? && p.from == n) {
        SwapAtInit(ps, i, n);
      }
      forall n: Node, i: nat ensures SwapAt(init, i, n) ==> i < last && init[i] == ps[i] { SwapInRange(init, i, n); }
      if Resolve(init).Some? {
        NoDoubleSwap(ps);
        if Resolve(ps).Some? { SwapsGrow(ps); }
      } else {
        var n: Node, i: nat, j: nat :| i < j && SwapAt(init, i, n) && SwapAt(init, j, n);
        assert SwapAt(ps, i, n) && SwapAt(ps, j, n);
      }
    }
  }

  lemma SwapsGrow(ps: seq<Patch>)
    requires ps != [] && Resolve(ps).Some?
    requires var init := ps[..|ps| - 1];
             && (forall n: Node :: n in Resolve(init).value.swap <==> exists i: nat :: SwapAt(init, i, n))
             && (forall n: Node, i: nat :: SwapAt(init, i, n) ==> i < |init| && Resolve(init).value.swap[n] == init[i].to)
    ensures forall n: Node :: n in Resolve(ps).value.swap <==> exists i: nat :: SwapAt(ps, i, n)
    ensures forall n: Node, i: nat :: SwapAt(ps, i, n) ==> i < |ps| && Resolve(ps).value.swap[n] == ps[i].to
  {
    hide Name;
    var last := |ps| - 1;
    var init, p := ps[..last], ps[last];
    forall n: Node ensures n in Resolve(ps).value.swap <==> exists i: nat :: SwapAt(ps, i, n) {
      if n in Resolve(init).value.swap {
        var i: nat :| SwapAt(init, i, n);
        assert SwapAt(ps, i, n);
      } else if p.Swap? && p.from == n {
        assert SwapAt(ps, last, n);
      }
      if i: nat :| SwapAt(ps, i, n) {
        if i < last { assert SwapAt(init, i, n); }
      }
    }
    forall n: Node, i: nat | SwapAt(ps, i, n) ensures Resolve(ps).value.swap[n] == ps[i].to {
      if i < last { assert SwapAt(init, i, n); }
    }
  }

  lemma NoSwaps(i: nat, n: Node)
    ensures !SwapAt([], i, n)
  {
  }

  lemma SwapInRange(ps: seq<Patch>, i: nat, n: Node)
    ensures SwapAt(ps, i, n) ==> i < |ps|
  {
  }

  /** With no double swap so far, the last patch decides. */
  lemma NoDoubleSwap(ps: seq<Patch>)
    requires ps != []
    requires var init := ps[..|ps| - 1];
             Resolve(init).Some? && !(exists n: Node, i: nat, j: nat :: i < j && SwapAt(init, i, n) && SwapAt(init, j, n)) &&
             forall n: Node :: n in Resolve(init).value.swap <==> exists i: nat :: SwapAt(init, i, n)
    ensures Resolve(ps).None? <==> exists n: Node, i: nat, j: nat :: i < j && SwapAt(ps, i, n) && SwapAt(ps, j, n)
  {
    hide SwapAt, Name;
    var last := |ps| - 1;
    var init, p := ps[..last], ps[last];
    forall n: Node, i: nat
      ensures SwapAt(ps, i, n) <==> SwapAt(init, i, n) || (i == last && p.Swap? && p.from == n)
      ensures SwapAt(init, i, n) ==> i < last
    {
      SwapAtInit(ps, i, n);
      SwapInRange(init, i, n);
    }
    if Resolve(ps).None? {
      var i: nat :| SwapAt(init, i, p.from);
      assert SwapAt(ps, i, p.from) && SwapAt(ps, last, p.from);
    }
  }

  /** What was injected into `n`, as the patches say it: node and request, in order. */
  function InjectedInto(ps: seq<Patch>, n: Node): seq<(Node, Bytes)> {
    if ps == [] then []
    else
      var p := ps[|ps| - 1];
      InjectedInto(ps[..|ps| - 1], n) + (if p.Inject? && p.from == n then [(p.node, p.request)] else [])
  }

  function Content(effects: seq<Effect>): (c: seq<(Node, Bytes)>)
    ensures |c| == |effects|
  {
    seq(|effects|, i requires 0 <= i < |effects| => (effects[i].node, effects[i].request))
  }

  /** Every injection is recorded under its node, in the order of the patches. */
  lemma {:induction false} ResolvedInOrder(ps: seq<Patch>, n: Node)
    requires Resolve(ps).Some?
    ensures Content(At(Resolve(ps).value.inject, n)) == InjectedInto(ps, n)
    decreases |ps|
  {
    if ps != [] {
      ResolvedInOrder(ps[..|ps| - 1], n);
      var r := Resolve(ps[..|ps| - 1]).value;
      var p := ps[|ps| - 1];
      if p.Inject? && p.from == n {
        var effect := Effect(p.node, Name(r.counter + 1), p.request);
        assert Content(At(r.inject, n) + [effect]) == Content(At(r.inject, n)) + [(p.node, p.request)];
      }
    }
  }

  // ---- Where injections end up ----

  /** Where a list at `n` ends up if nothing replaces it. */
  function Follow(n: Node, swap: Swaps, keys: set<Node>): Node
    requires keys <= swap.Keys
    decreases keys
  {
    if keys == {} then n
    else
      var from := Least(keys);
      Follow(if n == from then swap[from] else n, swap, keys - {from})
  }

  /** Where a list at `n` should end up. */
  function Destination(n: Node, swap: Swaps): Node {
    if n in swap then swap[n] else n
  }

  /** What `final` holds at `q` is the list that was at `n` and followed the swaps to `q`. */
  ghost predicate CameFrom(final: Injections, q: Node, inject: Injections, n: Node, swap: Swaps, keys: set<Node>)
    requires keys <= swap.Keys
  {
    q in final && n in inject && Follow(n, swap, keys) == q && final[q] == inject[n]
  }

  /** There is a list wherever one goes, and every list came from somewhere. */
  ghost predicate Traced(final: Injections, inject: Injections, swap: Swaps, keys: set<Node>)
    requires keys <= swap.Keys
  {
    && (forall n :: n in inject ==> Follow(n, swap, keys) in final)
    && (forall q :: q in final ==> exists n :: CameFrom(final, q, inject, n, swap, keys))
  }

  lemma Origin(final: Injections, inject: Injections, swap: Swaps, keys: set<Node>, q: Node) returns (n: Node)
    requires keys <= swap.Keys && Traced(final, inject, swap, keys) && q in final
    ensures n in inject && Follow(n, swap, keys) == q && final[q] == inject[n]
  {
    hide Follow;
    n :| CameFrom(final, q, inject, n, swap, keys);
  }

  lemma Arrives(final: Injections, inject: Injections, swap: Swaps, keys: set<Node>, n: Node)
    requires keys <= swap.Keys && Traced(final, inject, swap, keys) && n in inject
    ensures Follow(n, swap, keys) in final
  {
    hide Follow;
  }

  function Moved(n: Node, from: Node, to: Node): Node {
    if n == from then to else n
  }

  lemma FirstHop(inject: Injections, swap: Swaps, keys: set<Node>, n: Node)
    requires keys != {} && keys <= swap.Keys
    ensures var from := Least(keys);
            var to, rest := swap[from], keys - {from};
            Moves(inject, swap, keys) == Moves(Hop(inject, from, to), swap, rest) &&
            Follow(n, swap, keys) == Follow(Moved(n, from, to), swap, rest)
  {
  }

  /** The list at `m` after a hop was at exactly one place before it. */
  lemma HopOrigin(inject: Injections, from: Node, to: Node, m: Node) returns (n: Node)
    requires m in Hop(inject, from, to)
    ensures n in inject && Moved(n, from, to) == m && Hop(inject, from, to)[m] == inject[n]
  {
    n := if from in inject && m == to then from else m;
  }

  /** Lists go where the swaps take them; when two meet, one replaces the other. */
  lemma {:induction false} MovesFollow(inject: Injections, swap: Swaps, keys: set<Node>)
    requires keys <= swap.Keys
    ensures Traced(Moves(inject, swap, keys), inject, swap, keys)
    decreases keys
  {
    var final := Moves(inject, swap, keys);
    if keys == {} {
      forall q | q in final ensures CameFrom(final, q, inject, q, swap, keys) {
      }
    } else {
      MovesFollowHop(inject, swap, keys);
    }
  }

  lemma {:induction false} MovesFollowHop(inject: Injections, swap: Swaps, keys: set<Node>)
    requires keys != {} && keys <= swap.Keys
    ensures Traced(Moves(inject, swap, keys), inject, swap, keys)
    decreases keys, 0
  {
    hide Moves, Follow, Hop;
    var final := Moves(inject, swap, keys);
    var from := Least(keys);
    var to, rest := swap[from], keys - {from};
    var hopped := Hop(inject, from, to);
    FirstHop(inject, swap, keys, from);
    MovesFollow(hopped, swap, rest);
    forall n | n in inject ensures Follow(n, swap, keys) in final {
      FirstHop(inject, swap, keys, n);
      HopKeeps(inject, from, to, n);
    }
    forall q | q in final ensures exists n :: CameFrom(final, q, inject, n, swap, keys) {
      var m :| CameFrom(final, q, hopped, m, swap, rest);
      var n := HopOrigin(inject, from, to, m);
      FirstHop(inject, swap, keys, n);
      assert CameFrom(final, q, inject, n, swap, keys);
    }
  }

  lemma HopKeeps(inject: Injections, from: Node, to: Node, n: Node)
    requires n in inject
    ensures Moved(n, from, to) in Hop(inject, from, to)
  {
  }

  // ---- Where a list goes, read off the swaps ----

  function Above(swap: Swaps, bound: int): set<Node> {
    set k | k in swap && k > bound
  }

  /** Where a list at `n` ends up once the swaps up to `bound` are done: on along swapped nodes for as
      long as they increase. */
  function Chain(n: Node, swap: Swaps, bound: int): Node
    decreases Above(swap, bound)
  {
    if n in swap && n > bound then
      assert n in Above(swap, bound) && n !in Above(swap, n);
      Chain(swap[n], swap, n)
    else n
  }

  lemma {:induction false} FollowIsChain(n: Node, swap: Swaps, bound: int)
    ensures Follow(n, swap, Above(swap, bound)) == Chain(n, swap, bound)
    decreases Above(swap, bound)
  {
    var keys := Above(swap, bound);
    assert n in keys <==> n in swap && n > bound;
    if keys != {} {
      var from := Least(keys);
      assert keys - {from} == Above(swap, from);
      FollowIsChain(if n == from then swap[from] else n, swap, from);
    }
  }

  /** Swaps that lead from `path[0]` on, each from a later node than the one before. */
  ghost predicate Climbs(path: seq<Node>, swap: Swaps) {
    && path != []
    && (forall i :: 0 <= i < |path| ==> path[i] in swap)
    && (forall i :: 0 <= i < |path| - 1 ==> path[i] < path[i + 1] == swap[path[i]])
  }

  function Last(path: seq<Node>): Node
    requires path != []
  {
    path[|path| - 1]
  }

  lemma {:induction false} ClimbFollowed(path: seq<Node>, swap: Swaps, bound: int)
    requires Climbs(path, swap) && path[0] > bound
    ensures path[0] <= Last(path)
    ensures Chain(path[0], swap, bound) == Chain(swap[Last(path)], swap, Last(path))
    decreases |path|
  {
    if |path| > 1 {
      var rest := path[1..];
      assert Climbs(rest, swap) by {
        forall i | 0 <= i < |rest| - 1 ensures rest[i] < rest[i + 1] == swap[rest[i]] {
          assert path[i + 1] < path[i + 2] == swap[path[i + 1]];
        }
      }
      assert path[0] < path[1] == swap[path[0]];
      ClimbFollowed(rest, swap, path[0]);
    }
  }

  lemma {:induction false} ChainClimbs(n: Node, swap: Swaps, bound: int) returns (path: seq<Node>)
    requires n in swap && n > bound
    ensures Climbs(path, swap) && path[0] == n && swap[Last(path)] == Chain(n, swap, bound)
    decreases Above(swap, bound)
  {
    var next := swap[n];
    if next in swap && next > n {
      assert n in Above(swap, bound) && n !in Above(swap, n);
      var rest := ChainClimbs(next, swap, n);
      path := [n] + rest;
      assert Last(path) == Last(rest);
      forall i | 0 <= i < |path| - 1 ensures path[i] < path[i + 1] == swap[path[i]] {
        if i > 0 { assert rest[i - 1] < rest[i] == swap[rest[i - 1]]; }
      }
    } else {
      path := [n];
    }
  }

  /** A list moved to `t` by the swap of `n` stays there or comes back: `t` is not swapped after `n`,
      or later swaps lead from `t` upwards and then back to `t`. */
  ghost predicate Keeps(t: Node, n: Node, swap: Swaps) {
    t !in swap || t <= n || exists path :: Climbs(path, swap) && path[0] == t == swap[Last(path)]
  }

  lemma KeepsExact(t: Node, n: Node, swap: Swaps)
    ensures Keeps(t, n, swap) <==> Chain(t, swap, n) == t
  {
    if t in swap && t > n {
      if Chain(t, swap, n) == t {
        var path := ChainClimbs(t, swap, n);
      }
      forall path | Climbs(path, swap) && path[0] == t == swap[Last(path)] ensures Chain(t, swap, n) == t {
        ClimbFollowed(path, swap, n);
      }
    }
  }

  lemma FollowExact(n: Node, swap: Swaps)
    ensures Follow(n, swap, swap.Keys) == Destination(n, swap) <==> (n in swap ==> Keeps(swap[n], n, swap))
  {
    assert Above(swap, -1) == swap.Keys;
    FollowIsChain(n, swap, -1);
    if n in swap { KeepsExact(swap[n], n, swap); }
  }

  /** Every list is under its swapped node, and nothing else is there. */
  ghost predicate Conserved(final: Injections, r: Resolver) {
    && (forall n :: n in r.inject ==> Destination(n, r.swap) in final && final[Destination(n, r.swap)] == r.inject[n])
    && (forall q :: q in final ==> exists n :: n in r.inject && Destination(n, r.swap) == q)
  }

  /** No two injected nodes share a swapped node, and each one's list stays where its swap puts it. */
  ghost predicate Routable(r: Resolver) {
    && (forall n :: n in r.inject && n in r.swap ==> Keeps(r.swap[n], n, r.swap))
    && (forall m, n :: m in r.inject && n in r.inject && m != n ==> Destination(m, r.swap) != Destination(n, r.swap))
  }

  lemma ListsDistinct(inject: Injections, m: Node, n: Node)
    requires DistinctNames(inject) && NoEmptyList(inject) && m in inject && n in inject && inject[m] == inject[n]
    ensures m == n
  {
    assert inject[m][0].variable == inject[n][0].variable;
  }

  /** Exactly when finalising conserves what the patches injected. */
  lemma ConservedExactly(ps: seq<Patch>)
    requires Resolve(ps).Some?
    ensures var r := Resolve(ps).value; Conserved(Moves(r.inject, r.swap, r.swap.Keys), r) <==> Routable(r)
  {
    hide Moves, Follow, DistinctNames, NoEmptyList, NamesUsed, Resolve, Traced, Conserved, Routable;
    var r := Resolve(ps).value;
    var keys := r.swap.Keys;
    var final := Moves(r.inject, r.swap, keys);
    ResolvedNamesDistinct(ps);
    MovesFollow(r.inject, r.swap, keys);
    if Conserved(final, r) { ConservedRoutable(final, r); }
    if Routable(r) { RoutableConserved(final, r); }
  }

  lemma ConservedRoutable(final: Injections, r: Resolver)
    requires Conserved(final, r) && DistinctNames(r.inject) && NoEmptyList(r.inject)
    requires Traced(final, r.inject, r.swap, r.swap.Keys)
    ensures Routable(r)
  {
    hide Follow, DistinctNames, NoEmptyList, Traced, Keeps;
    forall n | n in r.inject && n in r.swap ensures Keeps(r.swap[n], n, r.swap) {
      var q := Destination(n, r.swap);
      assert q in final && final[q] == r.inject[n];
      var m := Origin(final, r.inject, r.swap, r.swap.Keys, q);
      ListsDistinct(r.inject, m, n);
      FollowExact(n, r.swap);
    }
    forall m, n | m in r.inject && n in r.inject && m != n ensures Destination(m, r.swap) != Destination(n, r.swap) {
      if r.inject[m] == r.inject[n] { ListsDistinct(r.inject, m, n); }
    }
  }

  lemma RoutableConserved(final: Injections, r: Resolver)
    requires Routable(r) && Traced(final, r.inject, r.swap, r.swap.Keys)
    ensures Conserved(final, r)
  {
    hide Follow, Traced, Keeps;
    forall n | n in r.inject ensures Follow(n, r.swap, r.swap.Keys) == Destination(n, r.swap) { FollowExact(n, r.swap); }
    forall n | n in r.inject ensures Destination(n, r.swap) in final && final[Destination(n, r.swap)] == r.inject[n] {
      var q := Destination(n, r.swap);
      Arrives(final, r.inject, r.swap, r.swap.Keys, n);
      var m := Origin(final, r.inject, r.swap, r.swap.Keys, q);
      assert Destination(m, r.swap) == q;
    }
    forall q | q in final ensures exists n :: n in r.inject && Destination(n, r.swap) == q {
      var m := Origin(final, r.inject, r.swap, r.swap.Keys, q);
      assert Destination(m, r.swap) == q;
    }
  }

  /** Enough for conservation: swap targets are distinct, are not swapped, and have no injections. */
  lemma SeparateTargets(r: Resolver)
    requires forall m, n :: m in r.swap && n in r.swap && r.swap[m] == r.swap[n] ==> m == n
    requires forall n :: n in r.swap ==> r.swap[n] !in r.swap && r.swap[n] !in r.inject
    ensures Routable(r)
  {
    hide Climbs;
  }

  /** A swap onto a node with injections of its own loses those: here the one into node 2. */
  lemma SharedTargetLoses(request: Bytes)
    ensures var ps := [Inject(1, 7, request), Inject(2, 8, request), Swap(1, 2)];
            Resolve(ps).Some? &&
            var r := Resolve(ps).value;
            Moves(r.inject, r.swap, r.swap.Keys) == map[2 := [Effect(7, Name(1), request)]] && !Routable(r)
  {
    hide Name;
    var ps := [Inject(1, 7, request), Inject(2, 8, request), Swap(1, 2)];
    var e1, e2 := Effect(7, Name(1), request), Effect(8, Name(2), request);
    assert ps[..2][..1][..0] == [] && ps[..2][..1] == [ps[0]] && ps[..2] == [ps[0], ps[1]];
    assert Resolve([ps[0]]) == Some(Resolver(1, map[], map[1 := [e1]])) by { assert [ps[0]][..0] == []; assert [] + [e1] == [e1]; }
    assert [ps[0], ps[1]][..1] == [ps[0]];
    assert Resolve(ps[..2]) == Some(Resolver(2, map[], map[1 := [e1], 2 := [e2]])) by { assert [] + [e2] == [e2]; }
    var r := Resolver(2, map[1 := 2], map[1 := [e1], 2 := [e2]]);
    assert Resolve(ps) == Some(r);
    assert r.swap.Keys == {1};
    assert Moves(r.inject, r.swap, {1}) == Hop(r.inject, 1, 2) by { assert Least({1}) == 1 && {1} - {1} == {}; }
    assert Hop(r.inject, 1, 2) == map[2 := [e1]];
    assert Destination(1, r.swap) == Destination(2, r.swap);
  }

  /** Swaps can take a list further and bring it back: here from 2 by way of 3. */
  lemma LoopKeeps()
    ensures Keeps(2, 1, map[1 := 2, 2 := 3, 3 := 2])
  {
    var swap: Swaps := map[1 := 2, 2 := 3, 3 := 2];
    assert Climbs([2, 3], swap) && swap[Last([2, 3])] == 2;
  }
}
