/** Write-once flow variables with a secrecy mark, and steps that read and write them. A step is any
    deterministic program: its next action depends on what it has observed so far. */
module SecretFlow {
  import opened Wire
  import opened Wrappers

  datatype Entry = Entry(secret: bool, data: Bytes)

  type Store = map<string, Entry>

  /** How a write decides its mark: from the step's reads, or by an override. */
  datatype Mode = Inherit | Secret | NotSecret

  datatype Action =
    | Read(name: string, sideEffect: bool)
    | Write(name: string, sideEffect: bool, data: Bytes, mode: Mode)
    | Done

  datatype Observation = Got(data: Bytes) | Wrote

  type Program = seq<Observation> -> Action

  const NULL: Bytes := [110, 117, 108, 108]

  datatype State = State(store: Store, hasReadSecret: bool, seen: seq<Observation>)

  datatype Outcome = Running(state: State) | Completed(store: Store) | Panicked

  // ---- The runtime services ----

  function SecretMark(mode: Mode, hasReadSecret: bool): bool {
    match mode case Inherit => hasReadSecret case Secret => true case NotSecret => false
  }

  function Next(p: Program, st: State): Outcome {
    match p(st.seen)
    case Done => Completed(st.store)
    case Read(name, sideEffect) =>
      if name !in st.store then Panicked
      else
        var entry := st.store[name];
        Running(State(st.store, st.hasReadSecret || (entry.secret && !sideEffect),
                      st.seen + [Got(if sideEffect then NULL else entry.data)]))
    case Write(name, sideEffect, data, mode) =>
      if name in st.store then Panicked
      else
        var entry := Entry(SecretMark(mode, st.hasReadSecret), if sideEffect then NULL else data);
        Running(State(st.store[name := entry], st.hasReadSecret, st.seen + [Wrote]))
  }

  function Run(p: Program, st: State, fuel: nat): Outcome
    decreases fuel
  {
    if fuel == 0 then Running(st)
    else
      var o := Next(p, st);
      if o.Running? then Run(p, o.state, fuel - 1) else o
  }

  function Init(store: Store): State {
    State(store, false, [])
  }

  /** The in-memory variable database. */
  class VarDb {
    var vars: Store

    method GetVar(name: string) returns (entry: Option<Entry>)
      ensures entry == if name in vars then Some(vars[name]) else None
    {
      entry := if name in vars then Some(vars[name]) else None;
    }

    /** All variables are written once; a second write trips an assertion. */
    method SetVar(name: string, secret: bool, data: Bytes) returns (ok: bool)
      modifies this
      ensures vars == old(vars)[name := Entry(secret, data)]
      ensures ok <==> name !in old(vars)
    {
      ok := name !in vars;
      vars := vars[name := Entry(secret, data)];
    }
  }

  class RuntimeServices {
    const db: VarDb
    var hasReadSecret: bool

    constructor (db: VarDb)
      ensures this.db == db && !hasReadSecret
    {
      this.db := db;
      hasReadSecret := false;
    }

    method Read(name: string, sideEffect: bool) returns (data: Option<Bytes>)
      modifies this
      ensures data.Some? <==> name in db.vars
      ensures data.Some? ==> data.value == if sideEffect then NULL else db.vars[name].data
      ensures hasReadSecret == (old(hasReadSecret) || (data.Some? && db.vars[name].secret && !sideEffect))
    {
      var entry := db.GetVar(name);
      if entry.None? { return None; }
      hasReadSecret := hasReadSecret || (entry.value.secret && !sideEffect);
      data := Some(if sideEffect then NULL else entry.value.data);
    }

    method Write(name: string, sideEffect: bool, data: Bytes, mode: Mode) returns (ok: bool)
      modifies db
      ensures ok <==> name !in old(db.vars)
      ensures db.vars == old(db.vars)[name := Entry(SecretMark(mode, hasReadSecret), if sideEffect then NULL else data)]
      ensures match mode
              case Inherit => db.vars[name].secret == hasReadSecret
              case Secret => db.vars[name].secret
              case NotSecret => !db.vars[name].secret
    {
      var secret := match mode case Inherit => hasReadSecret case Secret => true case NotSecret => false;
      ok := db.SetVar(name, secret, if sideEffect then NULL else data);
    }
  }

  /** Runs one step with fresh services over `db`, for at most `fuel` actions. */
  method RunStep(p: Program, db: VarDb, fuel: nat) returns (finished: Option<bool>)
    modifies db
    ensures var o := Run(p, Init(old(db.vars)), fuel);
            match finished
            case None => o.Running? && o.state.store == db.vars
            case Some(ok) => if ok then o == Completed(db.vars) else o == Panicked
  {
    var rt := new RuntimeServices(db);
    var seen: seq<Observation> := [];
    var left := fuel;
    while left > 0
      invariant rt.db == db && fresh(rt)
      invariant Run(p, State(db.vars, rt.hasReadSecret, seen), left) == Run(p, Init(old(db.vars)), fuel)
      decreases left
    {
      match p(seen) {
        case Done =>
          return Some(true);
        case Read(name, sideEffect) =>
          var data := rt.Read(name, sideEffect);
          if data.None? { return Some(false); }
          seen := seen + [Got(data.value)];
        case Write(name, sideEffect, data, mode) =>
          var ok := rt.Write(name, sideEffect, data, mode);
          if !ok { return Some(false); }
          seen := seen + [Wrote];
      }
      left := left - 1;
    }
    finished := None;
  }

  // ---- What a step can reveal ----

  /** The variables that are not secret, and their data. */
  function Public(store: Store): map<string, Bytes> {
    map name | name in store && !store[name].secret :: store[name].data
  }

  /** The run never marks a variable as not secret by override after reading a secret. */
  ghost predicate Clean(p: Program, st: State, fuel: nat)
    decreases fuel
  {
    fuel == 0 ||
    (var a := p(st.seen);
     (a.Write? && a.mode == NotSecret ==> !st.hasReadSecret) &&
     (Next(p, st).Running? ==> Clean(p, Next(p, st).state, fuel - 1)))
  }

  /** Only `read`, `write` and `write_secret`. */
  ghost predicate NoOverride(p: Program) {
    forall seen :: p(seen).Write? ==> p(seen).mode != NotSecret
  }

  lemma {:induction false} NoOverrideIsClean(p: Program, st: State, fuel: nat)
    requires NoOverride(p)
    ensures Clean(p, st, fuel)
    decreases fuel
  {
    if fuel > 0 && Next(p, st).Running? { NoOverrideIsClean(p, Next(p, st).state, fuel - 1); }
  }

  lemma PublicAfterWrite(store: Store, name: string, entry: Entry)
    requires name !in store
    ensures Public(store[name := entry]) == if entry.secret then Public(store) else Public(store)[name := entry.data]
  {
  }

  /** After a secret is read, a clean run adds nothing public. */
  lemma {:induction false} SecretRunKeepsPublic(p: Program, st: State, fuel: nat)
    requires st.hasReadSecret && Clean(p, st, fuel) && Run(p, st, fuel).Completed?
    ensures Public(Run(p, st, fuel).store) == Public(st.store)
    decreases fuel
  {
    if fuel > 0 && Next(p, st).Running? {
      var st' := Next(p, st).state;
      var a := p(st.seen);
      if a.Write? { PublicAfterWrite(st.store, a.name, st'.store[a.name]); }
      SecretRunKeepsPublic(p, st', fuel - 1);
    }
  }

  /** Two runs that a public observer cannot tell apart. */
  ghost predicate Alike(a: State, b: State) {
    Public(a.store) == Public(b.store) && a.hasReadSecret == b.hasReadSecret && (!a.hasReadSecret ==> a.seen == b.seen)
  }

  /** A variable present in both stores is public in both, with the same data, or secret in both. */
  lemma SameMark(s: Store, t: Store, name: string)
    requires Public(s) == Public(t) && name in s && name in t
    ensures s[name].secret == t[name].secret && (!s[name].secret ==> s[name].data == t[name].data)
  {
    assert name in Public(s) <==> !s[name].secret;
    assert name in Public(t) <==> !t[name].secret;
  }

  lemma AlikeStep(p: Program, a: State, b: State)
    requires Alike(a, b) && !a.hasReadSecret && !Next(p, a).Panicked? && !Next(p, b).Panicked?
    ensures Next(p, a).Running? == Next(p, b).Running?
    ensures Next(p, a).Running? ==> Alike(Next(p, a).state, Next(p, b).state)
  {
    match p(a.seen)
    case Done =>
    case Read(name, _) => SameMark(a.store, b.store, name);
    case Write(name, sideEffect, data, mode) =>
      var entry := Entry(SecretMark(mode, false), if sideEffect then NULL else data);
      PublicAfterWrite(a.store, name, entry);
      PublicAfterWrite(b.store, name, entry);
  }

  lemma {:induction false} AlikeRuns(p: Program, a: State, b: State, m: nat, n: nat)
    requires Alike(a, b) && Clean(p, a, m) && Clean(p, b, n)
    requires Run(p, a, m).Completed? && Run(p, b, n).Completed?
    ensures Public(Run(p, a, m).store) == Public(Run(p, b, n).store)
    decreases m
  {
    hide Public, Alike;
    if a.hasReadSecret {
      AlikeFacts(a, b);
      SecretRunKeepsPublic(p, a, m);
      SecretRunKeepsPublic(p, b, n);
    } else {
      AlikeFacts(a, b);
      AlikeStep(p, a, b);
      if Next(p, a).Running? {
        AlikeRuns(p, Next(p, a).state, Next(p, b).state, m - 1, n - 1);
      }
    }
  }

  lemma AlikeFacts(a: State, b: State)
    requires Alike(a, b)
    ensures Public(a.store) == Public(b.store) && a.hasReadSecret == b.hasReadSecret
  {
  }

  /** The step `p` takes the store `s` to `t`, without overriding secrecy after reading a secret. */
  ghost predicate Steps(p: Program, s: Store, t: Store) {
    exists n: nat :: Run(p, Init(s), n) == Completed(t) && Clean(p, Init(s), n)
  }

  /** The steps of a job, one after another; each starts with fresh services. */
  ghost predicate Flows(ps: seq<Program>, s: Store, t: Store) {
    if ps == [] then s == t else exists mid :: Steps(ps[0], s, mid) && Flows(ps[1..], mid, t)
  }

  lemma StepRevealsNothing(p: Program, s1: Store, t1: Store, s2: Store, t2: Store)
    requires Public(s1) == Public(s2) && Steps(p, s1, t1) && Steps(p, s2, t2)
    ensures Public(t1) == Public(t2)
  {
    var m: nat :| Run(p, Init(s1), m) == Completed(t1) && Clean(p, Init(s1), m);
    var n: nat :| Run(p, Init(s2), n) == Completed(t2) && Clean(p, Init(s2), n);
    AlikeRuns(p, Init(s1), Init(s2), m, n);
  }

  /** The two-run theorem: if two completed flows start from stores that agree on everything not
      secret, they end in stores that agree on everything not secret. */
  lemma {:induction false} FlowRevealsNothing(ps: seq<Program>, s1: Store, t1: Store, s2: Store, t2: Store)
    requires Public(s1) == Public(s2) && Flows(ps, s1, t1) && Flows(ps, s2, t2)
    ensures Public(t1) == Public(t2)
    decreases |ps|
  {
    hide Public, Steps;
    if ps != [] {
      var m1 :| Steps(ps[0], s1, m1) && Flows(ps[1..], m1, t1);
      var m2 :| Steps(ps[0], s2, m2) && Flows(ps[1..], m2, t2);
      StepRevealsNothing(ps[0], s1, m1, s2, m2);
      FlowRevealsNothing(ps[1..], m1, t1, m2, t2);
    }
  }

  /** For steps that only read and write, completing is all a flow needs. */
  lemma PlainStep(p: Program, s: Store, t: Store, n: nat)
    requires NoOverride(p) && Run(p, Init(s), n) == Completed(t)
    ensures Steps(p, s, t)
  {
    NoOverrideIsClean(p, Init(s), n);
  }

  /** A step that copies a secret through the override. */
  function Copier(seen: seq<Observation>): Action {
    if seen == [] then Read("key", false)
    else if |seen| == 1 && seen[0].Got? then Write("copy", false, seen[0].data, NotSecret)
    else Done
  }

  lemma CopierRun(k: byte)
    ensures var s: Store := map["key" := Entry(true, [k])];
            Run(Copier, Init(s), 3) == Completed(s["copy" := Entry(false, [k])]) && Public(s) == map[]
  {
    var s: Store := map["key" := Entry(true, [k])];
    var st1 := State(s, true, [Got([k])]);
    assert Next(Copier, Init(s)) == Running(st1);
    var st2 := State(s["copy" := Entry(false, [k])], true, [Got([k]), Wrote]);
    assert Next(Copier, st1) == Running(st2);
    assert Run(Copier, st2, 1) == Completed(st2.store);
    assert Run(Copier, st1, 2) == Completed(st2.store);
  }

  /** The override does reveal, so it has to stay out of the theorem: these two runs end differently. */
  lemma OverrideReveals()
    ensures var s1, s2: Store := map["key" := Entry(true, [1])], map["key" := Entry(true, [2])];
            Public(s1) == Public(s2) &&
            Run(Copier, Init(s1), 3).Completed? && Run(Copier, Init(s2), 3).Completed? &&
            Public(Run(Copier, Init(s1), 3).store) != Public(Run(Copier, Init(s2), 3).store)
  {
    hide Run;
    CopierRun(1);
    CopierRun(2);
    assert Public(Run(Copier, Init(map["key" := Entry(true, [1])]), 3).store)["copy"] == [1];
    assert Public(Run(Copier, Init(map["key" := Entry(true, [2])]), 3).store)["copy"] == [2];
  }

  // ---- The flag is exact, and variables are written once ----

  /** The variables whose data the run reads. */
  ghost function DataRead(p: Program, st: State, fuel: nat): set<string>
    decreases fuel
  {
    if fuel == 0 || !Next(p, st).Running? then {}
    else
      var a := p(st.seen);
      (if a.Read? && !a.sideEffect then {a.name} else {}) + DataRead(p, Next(p, st).state, fuel - 1)
  }

  /** Nothing written is ever changed. */
  lemma {:induction false} WrittenOnce(p: Program, st: State, fuel: nat)
    ensures Run(p, st, fuel).Running? ==> forall name :: name in st.store ==>
              name in Run(p, st, fuel).state.store && Run(p, st, fuel).state.store[name] == st.store[name]
    ensures Run(p, st, fuel).Completed? ==> forall name :: name in st.store ==>
              name in Run(p, st, fuel).store && Run(p, st, fuel).store[name] == st.store[name]
    decreases fuel
  {
    if fuel > 0 && Next(p, st).Running? { WrittenOnce(p, Next(p, st).state, fuel - 1); }
  }

  /** The flag is set exactly when the data of some secret variable was read: a side effect that
      depends on a secret does not taint what the step writes. */
  lemma {:induction false} FlagExact(p: Program, st: State, fuel: nat)
    requires Run(p, st, fuel).Running?
    ensures var end := Run(p, st, fuel).state;
            DataRead(p, st, fuel) <= end.store.Keys &&
            (end.hasReadSecret <==> st.hasReadSecret || exists name :: name in DataRead(p, st, fuel) && end.store[name].secret)
    decreases fuel
  {
    if fuel > 0 {
      var st' := Next(p, st).state;
      FlagExact(p, st', fuel - 1);
      WrittenOnce(p, st, fuel);
      var later := DataRead(p, st', fuel - 1);
      var a := p(st.seen);
      if a.Read? && !a.sideEffect {
        assert a.name in DataRead(p, st, fuel);
        assert later <= DataRead(p, st, fuel);
      }
    }
  }

  // ---- What a run leaves behind, action by action ----

  /** Before action `i`, the run read the data of a secret variable. */
  ghost predicate SecretReadBefore(p: Program, st: State, i: nat)
    requires i <= |st.seen|
  {
    exists j :: 0 <= j < i && ReadsSecret(p, st, j)
  }

  ghost predicate ReadsSecret(p: Program, st: State, j: nat)
    requires j <= |st.seen|
  {
    var a := p(st.seen[..j]);
    a.Read? && !a.sideEffect && a.name in st.store && st.store[a.name].secret
  }

  /** Action `i` is in the final state as the step asked for it: a read was given the variable's data,
      or nothing but a null for a side effect; a written variable holds the data, and is secret if
      the step said so, not secret if it overrode that, and otherwise exactly if the data of a secret
      variable was read before. */
  ghost predicate Explained(p: Program, st: State, i: nat)
    requires i < |st.seen|
  {
    match p(st.seen[..i])
    case Done => false
    case Read(name, sideEffect) =>
      name in st.store && st.seen[i] == Got(if sideEffect then NULL else st.store[name].data)
    case Write(name, sideEffect, data, mode) =>
      && st.seen[i] == Wrote && name in st.store
      && st.store[name].data == (if sideEffect then NULL else data)
      && (mode == Secret ==> st.store[name].secret)
      && (mode == NotSecret ==> !st.store[name].secret)
      && (mode == Inherit ==> (st.store[name].secret <==> SecretReadBefore(p, st, i)))
  }

  ghost predicate WrittenAt(p: Program, st: State, name: string, i: nat) {
    i < |st.seen| && p(st.seen[..i]).Write? && p(st.seen[..i]).name == name
  }

  /** Every action is explained, the flag says whether a secret was read, and every variable was there
      before or was written. */
  ghost predicate Traced(p: Program, s: Store, st: State) {
    && (forall i :: 0 <= i < |st.seen| ==> Explained(p, st, i))
    && (st.hasReadSecret <==> SecretReadBefore(p, st, |st.seen|))
    && (forall name :: name in st.store ==> (name in s && st.store[name] == s[name]) || exists i: nat :: WrittenAt(p, st, name, i))
    && (forall name :: name in s ==> name in st.store && st.store[name] == s[name])
  }

  lemma {:induction false} RunSnoc(p: Program, st: State, n: nat)
    requires n > 0
    ensures var before := Run(p, st, n - 1);
            Run(p, st, n) == if before.Running? then Next(p, before.state) else before
    decreases n
  {
    hide Next;
    if n > 1 && Next(p, st).Running? { RunSnoc(p, Next(p, st).state, n - 1); }
  }

  /** Earlier actions read the same in a longer run. */
  lemma SameActions(p: Program, st: State, next: State, i: nat)
    requires i < |st.seen| && |next.seen| == |st.seen| + 1 && st.seen <= next.seen
    requires forall name :: name in st.store ==> name in next.store && next.store[name] == st.store[name]
    requires forall j :: 0 <= j < |st.seen| ==> Explained(p, st, j)
    ensures next.seen[..i] == st.seen[..i] && next.seen[i] == st.seen[i]
    ensures ReadsSecret(p, next, i) <==> ReadsSecret(p, st, i)
  {
    assert Explained(p, st, i);
  }

  lemma StepKeepsSecretReads(p: Program, st: State, next: State, i: nat)
    requires i <= |st.seen| && |next.seen| == |st.seen| + 1 && st.seen <= next.seen
    requires forall name :: name in st.store ==> name in next.store && next.store[name] == st.store[name]
    requires forall j :: 0 <= j < |st.seen| ==> Explained(p, st, j)
    ensures SecretReadBefore(p, next, i) <==> SecretReadBefore(p, st, i)
  {
    hide ReadsSecret, Explained;
    forall j | 0 <= j < i ensures ReadsSecret(p, next, j) <==> ReadsSecret(p, st, j) { SameActions(p, st, next, j); }
  }

  /** What one step adds. */
  lemma StepTraced(p: Program, s: Store, st: State)
    requires Traced(p, s, st) && Next(p, st).Running?
    ensures Traced(p, s, Next(p, st).state) && |Next(p, st).state.seen| == |st.seen| + 1
  {
    hide SecretReadBefore, ReadsSecret;
    var next, n := Next(p, st).state, |st.seen|;
    assert next.seen[..n] == st.seen;
    forall i | 0 <= i <= n ensures SecretReadBefore(p, next, i) <==> SecretReadBefore(p, st, i) { StepKeepsSecretReads(p, st, next, i); }
    forall i | 0 <= i < n ensures Explained(p, next, i) {
      SameActions(p, st, next, i);
      assert Explained(p, st, i);
    }
    assert Explained(p, next, n);
    FlagStep(p, st);
    VariablesTraced(p, s, st);
  }

  lemma FlagStep(p: Program, st: State)
    requires Next(p, st).Running? && |Next(p, st).state.seen| == |st.seen| + 1
    requires Next(p, st).state.seen[..|st.seen|] == st.seen
    requires st.hasReadSecret <==> SecretReadBefore(p, Next(p, st).state, |st.seen|)
    ensures Next(p, st).state.hasReadSecret <==> SecretReadBefore(p, Next(p, st).state, |st.seen| + 1)
  {
    var next, n := Next(p, st).state, |st.seen|;
    assert next.hasReadSecret <==> st.hasReadSecret || ReadsSecret(p, next, n);
  }

  lemma VariablesTraced(p: Program, s: Store, st: State)
    requires Traced(p, s, st) && Next(p, st).Running?
    ensures forall name :: name in Next(p, st).state.store ==>
              (name in s && Next(p, st).state.store[name] == s[name]) || exists i: nat :: WrittenAt(p, Next(p, st).state, name, i)
  {
    hide Explained, SecretReadBefore;
    var next, n := Next(p, st).state, |st.seen|;
    assert next.seen[..n] == st.seen;
    forall name | name in next.store
      ensures (name in s && next.store[name] == s[name]) || exists i: nat :: WrittenAt(p, next, name, i)
    {
      if name in st.store {
        if !(name in s && st.store[name] == s[name]) {
          var i: nat :| WrittenAt(p, st, name, i);
          assert next.seen[..i] == st.seen[..i];
          assert WrittenAt(p, next, name, i);
        }
      } else {
        assert WrittenAt(p, next, name, n);
      }
    }
  }

  /** Over every run, after any number of actions: what each action did, and the mark of every
      variable it wrote. */
  lemma {:induction false} TraceExact(p: Program, s: Store, n: nat)
    requires Run(p, Init(s), n).Running?
    ensures var st := Run(p, Init(s), n).state; |st.seen| == n && Traced(p, s, st)
    decreases n
  {
    hide Next, Traced;
    if n == 0 {
      StartTraced(p, s);
    } else {
      RunSnoc(p, Init(s), n);
      TraceExact(p, s, n - 1);
      StepTraced(p, s, Run(p, Init(s), n - 1).state);
    }
  }

  lemma StartTraced(p: Program, s: Store)
    ensures Traced(p, s, Init(s))
  {
  }

  /** A completed step ends in the store of its last state, where every action is explained. */
  lemma {:induction false} CompletedTraced(p: Program, s: Store, n: nat) returns (st: State)
    requires Run(p, Init(s), n).Completed?
    ensures Traced(p, s, st) && p(st.seen) == Done && st.store == Run(p, Init(s), n).store
    decreases n
  {
    hide Traced;
    RunSnoc(p, Init(s), n);
    if Run(p, Init(s), n - 1).Running? {
      st := Run(p, Init(s), n - 1).state;
      TraceExact(p, s, n - 1);
    } else {
      st := CompletedTraced(p, s, n - 1);
    }
  }
}
