/** The local backend of the cache node: snapshots in directories named by a hash of the key, and a
    text file of keys, one per line, that says which snapshots exist. The reference is the history of
    runs: what a run restores is what some earlier run built. */
module LocalCache {
  import opened Wire
  import opened Wrappers

  /** The files of a directory, by relative path. */
  type Tree = map<string, Bytes>

  /** One job: restore under `key` or a fallback, build, save under `key`. */
  datatype Job = Job(key: string, restoreKeys: seq<string>, built: Tree)

  datatype Status = Hit | PartialHit | Miss

  datatype Outcome = Outcome(status: Status, dir: Tree)

  datatype Disk = Disk(index: Option<string>, dirs: map<string, Tree>)

  // ---- The key index ----

  /** The characters that count as white space when a line is trimmed. */
  predicate White(c: char) {
    var u := c as int;
    9 <= u <= 13 || u == 32 || u == 0x85 || u == 0xA0 || u == 0x1680 || 0x2000 <= u <= 0x200A ||
    u == 0x2028 || u == 0x2029 || u == 0x202F || u == 0x205F || u == 0x3000
  }

  function TrimStart(s: string): (t: string)
    ensures t == [] || !White(t[0])
  {
    if s != [] && White(s[0]) then TrimStart(s[1..]) else s
  }

  function TrimEnd(s: string): (t: string)
    ensures t <= s && (t == [] || !White(t[|t| - 1]))
  {
    if s != [] && White(s[|s| - 1]) then TrimEnd(s[..|s| - 1]) else s
  }

  function Trim(s: string): (t: string)
    ensures Trimmed(t)
  {
    TrimEnd(TrimStart(s))
  }

  predicate Trimmed(s: string) {
    s == [] || (!White(s[0]) && !White(s[|s| - 1]))
  }

  function Lines(s: string): (ls: seq<string>)
    ensures ls != []
  {
    if s == [] then [""]
    else
      var rest := Lines(s[1..]);
      if s[0] == '\n' then [""] + rest else Widen(s[0], rest)
  }

  /** Puts `c` at the start of the first line. */
  function Widen(c: char, ls: seq<string>): (r: seq<string>)
    requires ls != []
    ensures r != []
  {
    [[c] + ls[0]] + ls[1..]
  }

  function TrimmedLines(s: string): set<string> {
    set l | l in Lines(s) :: Trim(l)
  }

  function Available(index: Option<string>): set<string> {
    if index.None? then {} else TrimmedLines(index.value)
  }

  // ---- Restoring and saving ----

  /** Where the first available key stands, or the number of keys. */
  function Scan(keys: seq<string>, available: set<string>): (i: nat)
    ensures i <= |keys| && (i < |keys| ==> keys[i] in available)
    ensures forall j :: 0 <= j < i ==> keys[j] !in available
  {
    if keys == [] || keys[0] in available then 0 else 1 + Scan(keys[1..], available)
  }

  /** `None` is the error of copying a snapshot that does not exist. */
  function Restore(disk: Disk, hash: string -> string, job: Job, dir: Tree): Option<Outcome> {
    var keys := [job.key] + job.restoreKeys;
    var i := Scan(keys, Available(disk.index));
    if i == |keys| then Some(Outcome(Miss, dir))
    else if hash(keys[i]) !in disk.dirs then None
    else Some(Outcome(if i == 0 then Hit else PartialHit, dir + disk.dirs[hash(keys[i])]))
  }

  /** The index file is created even when nothing is saved. */
  function Save(disk: Disk, hash: string -> string, job: Job, status: Status): Disk {
    var text := if disk.index.Some? then disk.index.value else "";
    if status == Hit then Disk(Some(text), disk.dirs)
    else
      var d := hash(job.key);
      var previous := if d in disk.dirs then disk.dirs[d] else map[];
      Disk(Some(text + job.key + "\n"), disk.dirs[d := previous + job.built])
  }

  class Cache {
    const hash: string -> string
    var index: Option<string>
    var dirs: map<string, Tree>

    constructor (hash: string -> string)
      ensures this.hash == hash && View() == Disk(None, map[])
    {
      this.hash := hash;
      index, dirs := None, map[];
    }

    ghost function View(): Disk
      reads this
    {
      Disk(index, dirs)
    }

    method RestoreInto(job: Job, dir: Tree) returns (outcome: Option<Outcome>)
      ensures outcome == Restore(View(), hash, job, dir)
    {
      var available := Available(index);
      var keys := [job.key] + job.restoreKeys;
      var found, i := None, 0;
      while i < |keys|
        invariant 0 <= i <= |keys| && found.None?
        invariant Scan(keys, available) == i + Scan(keys[i..], available)
      {
        assert keys[i..][0] == keys[i] && keys[i..][1..] == keys[i + 1..];
        if keys[i] in available {
          found := Some((i == 0, hash(keys[i])));
          break;
        }
        i := i + 1;
      }
      if found.None? { return Some(Outcome(Miss, dir)); }
      var (directHit, from) := found.value;
      if from !in dirs { return None; }
      outcome := Some(Outcome(if directHit then Hit else PartialHit, dir + dirs[from]));
    }

    method SaveFrom(job: Job, status: Status)
      modifies this
      ensures View() == Save(old(View()), hash, job, status)
    {
      if index.None? { index := Some(""); }
      if status == Hit { return; }
      var to := hash(job.key);
      var previous := if to in dirs then dirs[to] else map[];
      dirs := dirs[to := previous + job.built];
      index := Some(index.value + job.key + "\n");
    }

    /** One job with a fresh target directory; a failed restore saves nothing. */
    method Run(job: Job) returns (outcome: Option<Outcome>)
      modifies this
      ensures (outcome, View()) == RunJob(old(View()), hash, job)
    {
      outcome := RestoreInto(job, map[]);
      if outcome.Some? { SaveFrom(job, outcome.value.status); }
    }

    method RunMany(jobs: seq<Job>) returns (outcomes: seq<Option<Outcome>>)
      requires View() == Disk(None, map[])
      modifies this
      ensures (outcomes, View()) == RunAll(hash, jobs)
    {
      hide RunJob;
      outcomes := [];
      for i := 0 to |jobs|
        invariant (outcomes, View()) == RunAll(hash, jobs[..i])
      {
        assert jobs[..i + 1][..i] == jobs[..i];
        var outcome := Run(jobs[i]);
        outcomes := outcomes + [outcome];
      }
      assert jobs[..|jobs|] == jobs;
    }
  }

  function RunJob(disk: Disk, hash: string -> string, job: Job): (Option<Outcome>, Disk) {
    var r := Restore(disk, hash, job, map[]);
    (r, if r.None? then disk else Save(disk, hash, job, r.value.status))
  }

  /** Any sequence of jobs, from an empty disk. */
  function RunAll(hash: string -> string, jobs: seq<Job>): (seq<Option<Outcome>>, Disk) {
    if jobs == [] then ([], Disk(None, map[]))
    else
      var n := |jobs| - 1;
      var before := RunAll(hash, jobs[..n]);
      var last := RunJob(before.1, hash, jobs[n]);
      (before.0 + [last.0], last.1)
  }

  // ---- What the index says ----

  lemma {:induction false} TrimmedKept(s: string)
    requires Trimmed(s)
    ensures Trim(s) == s
  {
  }

  lemma WidenAppend(c: char, ls: seq<string>, ms: seq<string>)
    requires ls != []
    ensures Widen(c, ls + ms) == Widen(c, ls) + ms
  {
    assert (ls + ms)[1..] == ls[1..] + ms;
  }

  lemma {:induction false} LinesSplit(a: string, b: string)
    ensures Lines(a + "\n" + b) == Lines(a) + Lines(b)
  {
    hide Widen;
    var s := a + "\n" + b;
    if a == [] {
      assert s[0] == '\n' && s[1..] == b;
    } else {
      assert s[0] == a[0] && s[1..] == a[1..] + "\n" + b;
      LinesSplit(a[1..], b);
      WidenAppend(a[0], Lines(a[1..]), Lines(b));
    }
  }

  lemma {:induction false} OneLine(s: string)
    requires '\n' !in s
    ensures Lines(s) == [s]
  {
    if s != [] {
      OneLine(s[1..]);
      assert [s[0]] + s[1..] == s;
    }
  }

  lemma {:induction false} LinesHaveNoNewline(s: string)
    ensures forall l :: l in Lines(s) ==> '\n' !in l
  {
    if s != [] { LinesHaveNoNewline(s[1..]); }
  }

  lemma {:induction false} TrimStartKeeps(s: string)
    ensures forall c :: c in TrimStart(s) ==> c in s
  {
    if s != [] && White(s[0]) { TrimStartKeeps(s[1..]); }
  }

  /** Every key the index offers is trimmed and on one line. */
  lemma AvailableShape(s: string, k: string)
    requires k in TrimmedLines(s)
    ensures Trimmed(k) && '\n' !in k
  {
    hide Lines, TrimStart, TrimEnd;
    var l :| l in Lines(s) && Trim(l) == k;
    LinesHaveNoNewline(s);
    TrimStartKeeps(l);
  }

  /** The index file is empty or ends a line. */
  predicate EndsLine(t: string) {
    t == "" || t[|t| - 1] == '\n'
  }

  lemma TrimmedLinesAppend(a: string, b: string)
    ensures TrimmedLines(a + "\n" + b) == TrimmedLines(a) + TrimmedLines(b)
  {
    hide Lines, Trim;
    LinesSplit(a, b);
  }

  lemma EmptyLine()
    ensures TrimmedLines("") == {""}
  {
    assert Lines("") == [""];
    TrimmedKept("");
  }

  /** Appending a key offers the trimmed lines of the key, whatever the key is. */
  lemma IndexAppend(t: string, k: string)
    requires EndsLine(t)
    ensures EndsLine(t + k + "\n") && TrimmedLines(t + k + "\n") == TrimmedLines(t) + TrimmedLines(k)
  {
    hide TrimmedLines;
    EmptyLine();
    TrimmedLinesAppend(k, "");
    assert k + "\n" + "" == k + "\n";
    if t == "" {
      assert t + k + "\n" == k + "\n";
    } else {
      var u := t[..|t| - 1];
      assert t == u + "\n" + "" && t + k + "\n" == u + "\n" + (k + "\n");
      TrimmedLinesAppend(u, "");
      TrimmedLinesAppend(u, k + "\n");
    }
  }

  lemma PlainKey(k: string)
    requires Trimmed(k) && '\n' !in k
    ensures TrimmedLines(k) == {k}
  {
    OneLine(k);
    TrimmedKept(k);
  }

  /** A saved key is found by later runs exactly when it is trimmed and has no line break. */
  lemma SavedKeyFound(t: string, k: string)
    requires EndsLine(t)
    ensures k in TrimmedLines(t + k + "\n") <==> Trimmed(k) && '\n' !in k
  {
    hide TrimmedLines;
    IndexAppend(t, k);
    if k in TrimmedLines(t + k + "\n") { AvailableShape(t + k + "\n", k); }
    if Trimmed(k) && '\n' !in k { PlainKey(k); }
  }

  // ---- What every history leaves behind ----

  /** What the index offers after the jobs of `h`: the trimmed lines of their keys, and the empty line
      that ends the index. */
  function Offered(h: seq<Job>): set<string> {
    if h == [] then {} else Offered(h[..|h| - 1]) + TrimmedLines(h[|h| - 1].key) + {""}
  }

  /** The directories there are after the jobs of `h`. */
  function Housed(hash: string -> string, h: seq<Job>): set<string> {
    if h == [] then {} else Housed(hash, h[..|h| - 1]) + {hash(h[|h| - 1].key)}
  }

  /** What directory `d` holds after the jobs of `h`: what they built, laid over each other, apart from
      the jobs that found their own key. */
  function Layers(hash: string -> string, h: seq<Job>, d: string): Tree {
    if h == [] then map[]
    else
      var init, job := h[..|h| - 1], h[|h| - 1];
      var below := Layers(hash, init, d);
      if job.key in Offered(init) || hash(job.key) != d then below else below + job.built
  }

  /** Job `i` put a file at `path` into directory `d`. */
  ghost predicate LaidBy(hash: string -> string, h: seq<Job>, d: string, path: string, i: nat) {
    i < |h| && h[i].key !in Offered(h[..i]) && hash(h[i].key) == d && path in h[i].built
  }

  /** Job `i` was the last to, and what it built there is `data`. */
  ghost predicate LastLaid(hash: string -> string, h: seq<Job>, d: string, path: string, i: nat, data: Bytes) {
    LaidBy(hash, h, d, path, i) && h[i].built[path] == data && forall j: nat :: i < j < |h| ==> !LaidBy(hash, h, d, path, j)
  }

  lemma LaidByInit(hash: string -> string, h: seq<Job>, d: string, path: string, i: nat)
    requires h != [] && i < |h| - 1
    ensures LaidBy(hash, h, d, path, i) <==> LaidBy(hash, h[..|h| - 1], d, path, i)
  {
    hide Offered;
    assert h[..|h| - 1][..i] == h[..i];
  }

  /** A directory holds a file exactly when some saving job put it there, and holds what the last such
      job built. */
  lemma {:induction false} LayersMeaning(hash: string -> string, h: seq<Job>, d: string, path: string)
    ensures path in Layers(hash, h, d) ==>
              exists i: nat :: LastLaid(hash, h, d, path, i, Layers(hash, h, d)[path])
    ensures (exists i: nat :: LaidBy(hash, h, d, path, i)) ==> path in Layers(hash, h, d)
    decreases |h|
  {
    hide Offered, LaidBy, Layers;
    NoLayers(hash, d);
    if h == [] {
      forall i: nat ensures !LaidBy(hash, h, d, path, i) { LaidInRange(hash, h, d, path, i); }
    } else {
      var n := |h| - 1;
      var g := h[..n];
      forall i: nat ensures LaidBy(hash, h, d, path, i) ==> i <= n { LaidInRange(hash, h, d, path, i); }
      forall i: nat ensures LaidBy(hash, g, d, path, i) ==> i < n { LaidInRange(hash, g, d, path, i); }
      LayersMeaning(hash, g, d, path);
      forall i: nat | i < n ensures LaidBy(hash, h, d, path, i) <==> LaidBy(hash, g, d, path, i) { LaidByInit(hash, h, d, path, i); }
      LayersNext(hash, h, d, path);
      if LaidBy(hash, h, d, path, n) {
        assert LastLaid(hash, h, d, path, n, Layers(hash, h, d)[path]);
      } else if path in Layers(hash, h, d) {
        var data := Layers(hash, g, d)[path];
        var i: nat :| LastLaid(hash, g, d, path, i, data);
        assert LastLaid(hash, h, d, path, i, data);
      }
    }
  }

  lemma NoLayers(hash: string -> string, d: string)
    ensures Layers(hash, [], d) == map[]
  {
  }

  lemma LaidInRange(hash: string -> string, h: seq<Job>, d: string, path: string, i: nat)
    ensures LaidBy(hash, h, d, path, i) ==> i < |h| && path in h[i].built
  {
    hide Offered;
  }

  lemma LayersNext(hash: string -> string, h: seq<Job>, d: string, path: string)
    requires h != []
    ensures var n := |h| - 1;
            var now, before := Layers(hash, h, d), Layers(hash, h[..n], d);
            if LaidBy(hash, h, d, path, n) then path in now && now[path] == h[n].built[path]
            else (path in now <==> path in before) && (path in now ==> now[path] == before[path])
  {
    hide Offered;
  }

  /** The outcome of a job after the jobs of `h`: the first offered key decides, and if it has no
      directory, the job fails. */
  function Predicted(hash: string -> string, h: seq<Job>, job: Job): Option<Outcome> {
    var keys := [job.key] + job.restoreKeys;
    var i := Scan(keys, Offered(h));
    if i == |keys| then Some(Outcome(Miss, map[]))
    else if hash(keys[i]) !in Housed(hash, h) then None
    else Some(Outcome(if i == 0 then Hit else PartialHit, Layers(hash, h, hash(keys[i]))))
  }

  /** The jobs that did not fail. */
  function Past(hash: string -> string, jobs: seq<Job>): seq<Job> {
    if jobs == [] then []
    else
      var past, job := Past(hash, jobs[..|jobs| - 1]), jobs[|jobs| - 1];
      past + if Predicted(hash, past, job).Some? then [job] else []
  }

  lemma {:induction false} OfferedMeaning(h: seq<Job>, k: string)
    ensures k in Offered(h) <==> h != [] && (k == "" || exists i :: 0 <= i < |h| && k in TrimmedLines(h[i].key))
    decreases |h|
  {
    hide TrimmedLines;
    if h != [] {
      var n := |h| - 1;
      OfferedMeaning(h[..n], k);
      assert forall i :: 0 <= i < n ==> h[..n][i] == h[i];
    }
  }

  lemma {:induction false} HousedMeaning(hash: string -> string, h: seq<Job>, d: string)
    ensures d in Housed(hash, h) <==> exists i :: 0 <= i < |h| && hash(h[i].key) == d
    decreases |h|
  {
    if h != [] {
      var n := |h| - 1;
      HousedMeaning(hash, h[..n], d);
      assert forall i :: 0 <= i < n ==> h[..n][i] == h[i];
    }
  }

  /** The disk is what the completed jobs leave behind. */
  ghost predicate Holds(disk: Disk, hash: string -> string, h: seq<Job>) {
    && (disk.index.None? <==> h == [])
    && (disk.index.Some? ==> EndsLine(disk.index.value))
    && Available(disk.index) == Offered(h)
    && disk.dirs.Keys == Housed(hash, h)
    && forall d :: d in disk.dirs ==> disk.dirs[d] == Layers(hash, h, d)
  }

  lemma RestorePredicted(disk: Disk, hash: string -> string, h: seq<Job>, job: Job)
    requires Holds(disk, hash, h)
    ensures Restore(disk, hash, job, map[]) == Predicted(hash, h, job)
  {
    hide Available, Offered, Housed, Layers, EndsLine;
    var keys := [job.key] + job.restoreKeys;
    var i := Scan(keys, Offered(h));
    if i < |keys| && hash(keys[i]) in disk.dirs {
      assert map[] + disk.dirs[hash(keys[i])] == disk.dirs[hash(keys[i])];
    }
  }

  lemma {:induction false} OfferedPlain(h: seq<Job>, k: string)
    requires k in Offered(h)
    ensures h != [] && "" in Offered(h) && TrimmedLines(k) == {k}
    decreases |h|
  {
    hide TrimmedLines;
    var n := |h| - 1;
    if k in TrimmedLines(h[n].key) {
      AvailableShape(h[n].key, k);
      PlainKey(k);
    } else if k == "" {
      EmptyLine();
    } else {
      OfferedPlain(h[..n], k);
    }
  }

  lemma UnfoldHistory(hash: string -> string, h: seq<Job>, job: Job)
    ensures Offered(h + [job]) == Offered(h) + TrimmedLines(job.key) + {""}
    ensures Housed(hash, h + [job]) == Housed(hash, h) + {hash(job.key)}
    ensures forall d :: Layers(hash, h + [job], d) ==
              if job.key in Offered(h) || hash(job.key) != d then Layers(hash, h, d) else Layers(hash, h, d) + job.built
  {
    assert (h + [job])[..|h|] == h;
  }

  /** A job that finds its key leaves everything as it is. */
  lemma AfterHit(disk: Disk, hash: string -> string, h: seq<Job>, job: Job)
    requires Holds(disk, hash, h) && job.key in Offered(h) && hash(job.key) in Housed(hash, h)
    ensures Holds(disk, hash, h + [job])
  {
    hide Offered, Housed, Layers, Available, EndsLine, TrimmedLines;
    OfferedPlain(h, job.key);
    UnfoldHistory(hash, h, job);
    assert Offered(h) + {job.key} + {""} == Offered(h);
    assert Housed(hash, h) + {hash(job.key)} == Housed(hash, h);
  }

  lemma {:induction false} UnhousedEmpty(hash: string -> string, h: seq<Job>, d: string)
    requires d !in Housed(hash, h)
    ensures Layers(hash, h, d) == map[]
    decreases |h|
  {
    if h != [] { UnhousedEmpty(hash, h[..|h| - 1], d); }
  }

  lemma AfterSave(disk: Disk, hash: string -> string, h: seq<Job>, job: Job, status: Status)
    requires Holds(disk, hash, h) && job.key !in Offered(h) && status != Hit
    ensures Holds(Save(disk, hash, job, status), hash, h + [job])
  {
    hide Offered, Housed, Layers, EndsLine, TrimmedLines;
    UnfoldHistory(hash, h, job);
    NothingOffered(hash);
    EmptyLine();
    EmptyEndsLine();
    var text := if disk.index.Some? then disk.index.value else "";
    IndexAppend(text, job.key);
    if h != [] { EmptyOffered(h); }
    assert TrimmedLines(text) == Offered(h) + {""};
    var d := hash(job.key);
    if d !in disk.dirs { UnhousedEmpty(hash, h, d); }
  }

  lemma NothingOffered(hash: string -> string)
    ensures Offered([]) == {} && Housed(hash, []) == {}
  {
  }

  lemma EmptyOffered(h: seq<Job>)
    requires h != []
    ensures "" in Offered(h)
  {
  }

  lemma EmptyEndsLine()
    ensures EndsLine("")
  {
  }

  lemma JobKeepsHolds(disk: Disk, hash: string -> string, h: seq<Job>, job: Job)
    requires Holds(disk, hash, h)
    ensures var r := RunJob(disk, hash, job);
            r.0 == Predicted(hash, h, job) && Holds(r.1, hash, if r.0.Some? then h + [job] else h)
  {
    hide Holds, Offered, Housed, Layers, Available;
    RestorePredicted(disk, hash, h, job);
    var r := Restore(disk, hash, job, map[]);
    if r.Some? {
      assert ([job.key] + job.restoreKeys)[0] == job.key;
      if r.value.status == Hit {
        AfterHit(disk, hash, h, job);
        OfferedPlain(h, job.key);
        HoldsIndex(disk, hash, h);
      } else {
        AfterSave(disk, hash, h, job, r.value.status);
      }
    }
  }

  lemma HoldsIndex(disk: Disk, hash: string -> string, h: seq<Job>)
    requires Holds(disk, hash, h) && h != []
    ensures disk.index.Some?
  {
  }

  /** What the cache does, for every hash and every sequence of jobs with any keys: each outcome, and
      the disk, is what the completed jobs before it determine. */
  lemma {:induction false} CacheExact(hash: string -> string, jobs: seq<Job>)
    ensures var (outcomes, disk) := RunAll(hash, jobs);
            |outcomes| == |jobs| && Holds(disk, hash, Past(hash, jobs)) &&
            forall i :: 0 <= i < |jobs| ==> outcomes[i] == Predicted(hash, Past(hash, jobs[..i]), jobs[i])
    decreases |jobs|
  {
    hide RunJob, Predicted, Holds;
    if jobs == [] {
      NothingHeld(hash);
    } else {
      var n := |jobs| - 1;
      var before := jobs[..n];
      CacheExact(hash, before);
      var (outcomes, disk) := RunAll(hash, before);
      JobKeepsHolds(disk, hash, Past(hash, before), jobs[n]);
      assert Past(hash, before) + [] == Past(hash, before);
      forall i | 0 <= i < |jobs|
        ensures RunAll(hash, jobs).0[i] == Predicted(hash, Past(hash, jobs[..i]), jobs[i])
      {
        if i < n { assert before[..i] == jobs[..i]; }
      }
    }
  }

  lemma NothingHeld(hash: string -> string)
    ensures Holds(Disk(None, map[]), hash, [])
  {
  }

  // ---- When a restore fails ----

  /** One of the job's keys is the first that the index offers after `h`, and shares its directory
      with no key of `h`. */
  ghost predicate Missing(hash: string -> string, h: seq<Job>, job: Job) {
    var keys := [job.key] + job.restoreKeys;
    exists i :: 0 <= i < |keys| && keys[i] in Offered(h) &&
                (forall j :: 0 <= j < i ==> keys[j] !in Offered(h)) &&
                (forall m :: 0 <= m < |h| ==> hash(h[m].key) != hash(keys[i]))
  }

  lemma PredictedFails(hash: string -> string, h: seq<Job>, job: Job)
    ensures Predicted(hash, h, job).None? <==> Missing(hash, h, job)
  {
    hide Offered, Housed, Layers;
    var keys := [job.key] + job.restoreKeys;
    var n := Scan(keys, Offered(h));
    if n < |keys| { HousedMeaning(hash, h, hash(keys[n])); }
    forall i | 0 <= i < |keys| && keys[i] in Offered(h) && forall j :: 0 <= j < i ==> keys[j] !in Offered(h)
      ensures i == n
    {
      ScanUnique(keys, Offered(h), i);
    }
  }

  /** Exactly when a job fails, after any jobs with any keys. */
  lemma RestoreFails(hash: string -> string, jobs: seq<Job>, job: Job)
    ensures var outcomes := RunAll(hash, jobs + [job]).0;
            |outcomes| == |jobs| + 1 && (outcomes[|jobs|].None? <==> Missing(hash, Past(hash, jobs), job))
  {
    hide RunAll, Past, Predicted, Holds, Missing;
    CacheExact(hash, jobs + [job]);
    assert (jobs + [job])[..|jobs|] == jobs;
    PredictedFails(hash, Past(hash, jobs), job);
  }

  lemma ScanUnique(keys: seq<string>, available: set<string>, i: nat)
    requires i <= |keys| && (i < |keys| ==> keys[i] in available)
    requires forall j :: 0 <= j < i ==> keys[j] !in available
    ensures Scan(keys, available) == i
  {
  }

  /** A key that is offered without a directory of its own fails now, and fails after any further jobs
      until one of those has a key that hashes to that directory. */
  lemma StuckKey(hash: string -> string, h: seq<Job>, more: seq<Job>, job: Job)
    requires job.key in Offered(h) && hash(job.key) !in Housed(hash, h)
    ensures Predicted(hash, h + more, job).None? <==> forall i :: 0 <= i < |more| ==> hash(more[i].key) != hash(job.key)
  {
    hide Offered, Housed, Layers;
    var keys := [job.key] + job.restoreKeys;
    assert keys[0] == job.key;
    OfferedStays(h, more, job.key);
    HousedMeaning(hash, h, hash(job.key));
    HousedMeaning(hash, h + more, hash(job.key));
    assert forall i :: 0 <= i < |more| ==> (h + more)[|h| + i] == more[i];
    assert forall i :: 0 <= i < |h| ==> (h + more)[i] == h[i];
  }

  lemma OfferedStays(h: seq<Job>, more: seq<Job>, k: string)
    requires k in Offered(h)
    ensures k in Offered(h + more)
  {
    hide Offered, TrimmedLines;
    OfferedMeaning(h, k);
    OfferedMeaning(h + more, k);
    assert forall i :: 0 <= i < |h| ==> (h + more)[i] == h[i];
  }

  /** Saving a key makes its other trimmed lines look saved: using one of them then fails. */
  lemma OtherLineFails(hash: string -> string, first: Job, second: Job)
    requires second.key in TrimmedLines(first.key) && hash(second.key) != hash(first.key)
    ensures RunAll(hash, [first, second]).0 == [Some(Outcome(Miss, map[])), None]
  {
    hide RunAll, TrimmedLines;
    var jobs := [first, second];
    assert jobs[..0] == [] && jobs[..1] == [first] && [first][..0] == [];
    CacheExact(hash, jobs);
    assert Past(hash, []) == [] && Scan([first.key] + first.restoreKeys, {}) == 1 + |first.restoreKeys| by {
      ScanNothing([first.key] + first.restoreKeys);
    }
    assert Past(hash, [first]) == [first];
    assert ([second.key] + second.restoreKeys)[0] == second.key;
    assert Offered([first]) == {} + TrimmedLines(first.key) + {""} && Housed(hash, [first]) == {hash(first.key)};
  }

  lemma {:induction false} ScanNothing(keys: seq<string>)
    ensures Scan(keys, {}) == |keys|
  {
  }

  /** For example, a key of two lines, and a key with a space before it. */
  lemma SplitKeyFails(hash: string -> string, t: Tree)
    ensures hash("a\nb") != hash("a") ==> RunAll(hash, [Job("a\nb", [], t), Job("a", [], t)]).0 == [Some(Outcome(Miss, map[])), None]
    ensures hash(" a") != hash("a") ==> RunAll(hash, [Job(" a", [], t), Job("a", [], t)]).0 == [Some(Outcome(Miss, map[])), None]
  {
    hide RunAll;
    LinesSplit("a", "b");
    OneLine("a");
    OneLine("b");
    assert "a" + "\n" + "b" == "a\nb" && ["a"] + ["b"] == ["a", "b"];
    TrimmedKept("a");
    assert "a" in TrimmedLines("a\nb");
    OneLine(" a");
    assert Trim(" a") == "a" by { assert " a"[1..] == "a"; }
    assert "a" in TrimmedLines(" a");
    if hash("a\nb") != hash("a") { OtherLineFails(hash, Job("a\nb", [], t), Job("a", [], t)); }
    if hash(" a") != hash("a") { OtherLineFails(hash, Job(" a", [], t), Job("a", [], t)); }
  }

  // ---- The simple reference: first snapshots ----

  /** What the first job saved under `k` built. */
  function FirstSaved(h: seq<Job>, k: string): Option<Tree> {
    if h == [] then None
    else
      var n := |h| - 1;
      var earlier := FirstSaved(h[..n], k);
      if earlier.Some? then earlier else if h[n].key == k then Some(h[n].built) else None
  }

  /** The first key in order that was saved before. */
  function Fallback(h: seq<Job>, keys: seq<string>): Option<Tree> {
    if keys == [] then None
    else if FirstSaved(h, keys[0]).Some? then FirstSaved(h, keys[0])
    else Fallback(h, keys[1..])
  }

  function Expected(h: seq<Job>, job: Job): Outcome {
    var direct, fallback := FirstSaved(h, job.key), Fallback(h, job.restoreKeys);
    if direct.Some? then Outcome(Hit, direct.value)
    else if fallback.Some? then Outcome(PartialHit, fallback.value)
    else Outcome(Miss, map[])
  }

  ghost predicate SavedFirst(h: seq<Job>, k: string, t: Tree, i: nat) {
    i < |h| && h[i].key == k && h[i].built == t && forall j :: 0 <= j < i ==> h[j].key != k
  }

  lemma {:induction false} FirstSavedMeaning(h: seq<Job>, k: string)
    ensures FirstSaved(h, k).None? <==> forall i :: 0 <= i < |h| ==> h[i].key != k
    ensures FirstSaved(h, k).Some? ==> exists i :: SavedFirst(h, k, FirstSaved(h, k).value, i)
    decreases |h|
  {
    if h != [] {
      var n := |h| - 1;
      var g := h[..n];
      FirstSavedMeaning(g, k);
      assert forall i :: 0 <= i < n ==> g[i] == h[i];
      if FirstSaved(g, k).Some? {
        var t := FirstSaved(g, k).value;
        var i: nat :| SavedFirst(g, k, t, i);
        assert SavedFirst(h, k, t, i);
      } else if h[n].key == k {
        assert SavedFirst(h, k, h[n].built, n);
      }
    }
  }

  ghost predicate Saved(h: seq<Job>, k: string) {
    FirstSaved(h, k).Some?
  }

  ghost predicate CollisionFree(hash: string -> string, h: seq<Job>) {
    forall i, j :: 0 <= i < |h| && 0 <= j < |h| && hash(h[i].key) == hash(h[j].key) ==> h[i].key == h[j].key
  }

  predicate PlainJob(job: Job) {
    job.key != "" && Trimmed(job.key) && '\n' !in job.key && "" !in job.restoreKeys
  }

  predicate PlainJobs(h: seq<Job>) {
    forall i :: 0 <= i < |h| ==> PlainJob(h[i])
  }

  /** With plain keys the index offers exactly the saved ones. */
  lemma PlainOffered(h: seq<Job>, k: string)
    requires PlainJobs(h) && k != ""
    ensures k in Offered(h) <==> Saved(h, k)
  {
    hide Offered, TrimmedLines, FirstSaved;
    OfferedMeaning(h, k);
    FirstSavedMeaning(h, k);
    forall i | 0 <= i < |h| ensures TrimmedLines(h[i].key) == {h[i].key} { PlainKey(h[i].key); }
  }

  /** And each has its directory, with the snapshot first saved under it. */
  lemma {:induction false} PlainLayers(hash: string -> string, h: seq<Job>, k: string)
    requires PlainJobs(h) && CollisionFree(hash, h) && Saved(h, k)
    ensures hash(k) in Housed(hash, h) && Layers(hash, h, hash(k)) == FirstSaved(h, k).value
    decreases |h|
  {
    hide Offered, PlainJob;
    var n := |h| - 1;
    var init, job := h[..n], h[n];
    assert h == init + [job];
    JobIsPlain(h, n);
    PlainOffered(init, job.key);
    FirstSavedMeaning(init, k);
    FirstSavedMeaning(init, job.key);
    if Saved(init, k) {
      PlainLayers(hash, init, k);
      var i: nat :| SavedFirst(init, k, FirstSaved(init, k).value, i);
      assert h[i].key == k && h[n] == job;
    } else {
      HousedMeaning(hash, init, hash(k));
      assert forall i :: 0 <= i < n ==> init[i] == h[i];
      UnhousedEmpty(hash, init, hash(k));
      assert map[] + job.built == job.built;
    }
  }

  lemma JobIsPlain(h: seq<Job>, i: nat)
    requires PlainJobs(h) && i < |h|
    ensures h[i].key != ""
  {
  }

  /** The fallback is where the scan stops. */
  lemma {:induction false} FallbackScans(h: seq<Job>, keys: seq<string>, available: set<string>)
    requires forall k :: k in keys ==> (k in available <==> Saved(h, k))
    ensures var i := Scan(keys, available);
            Fallback(h, keys) == if i == |keys| then None else FirstSaved(h, keys[i])
  {
    if keys != [] && keys[0] !in available {
      assert forall k :: k in keys[1..] ==> k in keys;
      FallbackScans(h, keys[1..], available);
    }
  }

  lemma PlainPredicted(hash: string -> string, h: seq<Job>, job: Job)
    requires PlainJobs(h) && CollisionFree(hash, h) && PlainJob(job)
    ensures Predicted(hash, h, job) == Some(Expected(h, job))
  {
    hide Offered, Housed, Layers, FirstSaved, Fallback, CollisionFree, PlainJobs, Trimmed;
    var keys := [job.key] + job.restoreKeys;
    forall k | k in keys ensures k in Offered(h) <==> Saved(h, k) { PlainOffered(h, k); }
    assert keys[1..] == job.restoreKeys && keys[0] == job.key;
    FallbackScans(h, job.restoreKeys, Offered(h));
    var i := Scan(keys, Offered(h));
    if keys[0] !in Offered(h) { assert i == 1 + Scan(job.restoreKeys, Offered(h)); }
    if i < |keys| { PlainLayers(hash, h, keys[i]); }
  }

  /** With plain keys no job fails: a completed history is the whole of it. */
  lemma {:induction false} PlainPast(hash: string -> string, jobs: seq<Job>)
    requires PlainJobs(jobs) && CollisionFree(hash, jobs)
    ensures Past(hash, jobs) == jobs
    decreases |jobs|
  {
    hide PlainJob, Predicted;
    if jobs != [] {
      var n := |jobs| - 1;
      assert forall i :: 0 <= i < n ==> jobs[..n][i] == jobs[i];
      PlainPast(hash, jobs[..n]);
      PlainPredicted(hash, jobs[..n], jobs[n]);
      assert jobs == jobs[..n] + [jobs[n]];
    }
  }

  /** With plain keys and no collisions the cache refines its history: over every sequence of jobs, a
      job hits exactly when its key was saved before and gets the snapshot first saved under it;
      failing that it gets the snapshot of the first fallback key saved before. */
  lemma CacheRefinesHistory(hash: string -> string, jobs: seq<Job>)
    requires PlainJobs(jobs) && CollisionFree(hash, jobs)
    ensures var (outcomes, disk) := RunAll(hash, jobs);
            |outcomes| == |jobs| && Holds(disk, hash, jobs) &&
            forall i :: 0 <= i < |jobs| ==> outcomes[i] == Some(Expected(jobs[..i], jobs[i]))
  {
    hide RunAll, Predicted, Holds, Past, Expected, PlainJob;
    CacheExact(hash, jobs);
    PlainPast(hash, jobs);
    forall i | 0 <= i < |jobs| ensures RunAll(hash, jobs).0[i] == Some(Expected(jobs[..i], jobs[i])) {
      assert forall j :: 0 <= j < i ==> jobs[..i][j] == jobs[j];
      PlainPast(hash, jobs[..i]);
      PlainPredicted(hash, jobs[..i], jobs[i]);
    }
  }

  /** And every key the index offers, but for the empty line, was saved and has its first snapshot. */
  lemma OfferedHoused(hash: string -> string, jobs: seq<Job>, k: string)
    requires PlainJobs(jobs) && CollisionFree(hash, jobs) && k != "" && k in Available(RunAll(hash, jobs).1.index)
    ensures Saved(jobs, k)
    ensures var dirs := RunAll(hash, jobs).1.dirs; hash(k) in dirs && dirs[hash(k)] == FirstSaved(jobs, k).value
  {
    hide RunAll, Available, Offered, Housed, Layers, FirstSaved, PlainJob;
    CacheRefinesHistory(hash, jobs);
    PlainOffered(jobs, k);
    PlainLayers(hash, jobs, k);
  }
}
