/** The configuration files of the initramfs generator: one entry a line, where a `#[cfg(...)]` line
    guards the entry after it. Lines are given stripped. */
module InitRamFsConfig {
  import opened Wrappers
  import opened CfgCond

  datatype LineKind = Blank | Directive | Comment | Item

  predicate EndsWith(s: string, suffix: string) {
    |suffix| <= |s| && s[|s| - |suffix|..] == suffix
  }

  function Classify(line: string): LineKind {
    if line == "" then LineKind.Blank
    else if "#[cfg(" <= line && EndsWith(line, ")]") then Directive
    else if "#" <= line then Comment
    else Item
  }

  /** The kind of a line by its characters. */
  lemma ClassifyExact(line: string)
    ensures var n, hash := |line|, line != "" && line[0] == '#';
            var directive := n >= 8 && line[0] == '#' && line[1] == '[' && line[2] == 'c' && line[3] == 'f' && line[4] == 'g'
                             && line[5] == '(' && line[n - 2] == ')' && line[n - 1] == ']';
            && (Classify(line) == LineKind.Blank <==> n == 0)
            && (Classify(line) == Directive <==> directive)
            && (Classify(line) == Comment <==> hash && !directive)
            && (Classify(line) == Item <==> n > 0 && line[0] != '#')
  {
    var n := |line|;
    if n >= 2 { assert line[n - 2..] == [line[n - 2], line[n - 1]]; }
    if "#[cfg(" <= line && EndsWith(line, ")]") {
      assert line[5] == "#[cfg("[5] && line[n - 2..][0] == ")]"[0] && line[n - 2..][1] == ")]"[1];
    }
  }

  /** The directive that guards the line after `lines`: the last line that is neither blank nor a
      comment, if that is a directive. */
  function Guard(lines: seq<string>): Option<string> {
    if lines == [] then None
    else
      var n := |lines| - 1;
      match Classify(lines[n])
      case Directive => Some(lines[n])
      case Item => None
      case _ => Guard(lines[..n])
  }

  /** Whether an entry after `lines` is kept. */
  predicate Live(lines: seq<string>, env: Environment) {
    Guard(lines).None? || Eval(Guard(lines).value, env) == Some(true)
  }

  /** The entries of a file that are kept, in order. */
  function Kept(lines: seq<string>, env: Environment): seq<string> {
    if lines == [] then []
    else
      var n := |lines| - 1;
      Kept(lines[..n], env) + (if Classify(lines[n]) == Item && Live(lines[..n], env) then [lines[n]] else [])
  }

  /** Whether one line is accepted where it stands: a directive must evaluate and must not follow
      another, and an entry that is kept must parse. */
  predicate Accepted(before: seq<string>, line: string, env: Environment, parses: string -> bool) {
    match Classify(line)
    case Directive => Eval(line, env).Some? && Guard(before).None?
    case Item => Live(before, env) ==> parses(line)
    case _ => true
  }

  predicate WellFormed(lines: seq<string>, env: Environment, parses: string -> bool) {
    forall i :: 0 <= i < |lines| ==> Accepted(lines[..i], lines[i], env, parses)
  }

  const FIRST_INODE := 721

  function Number(inode: nat, items: seq<string>): (entries: seq<(nat, string)>)
    ensures |entries| == |items|
  {
    seq(|items|, i requires 0 <= i < |items| => (inode + i, items[i]))
  }

  function KeptOfAll(files: seq<seq<string>>, env: Environment): seq<string> {
    if files == [] then [] else KeptOfAll(files[..|files| - 1], env) + Kept(files[|files| - 1], env)
  }

  lemma NumberAppend(items: seq<string>, more: seq<string>)
    ensures Number(FIRST_INODE, items + more) == Number(FIRST_INODE, items) + Number(FIRST_INODE + |items|, more)
  {
  }

  class Config {
    const env: Environment
    var entries: seq<(nat, string)>
    var inode: nat

    constructor (env: Environment)
      ensures this.env == env && entries == [] && inode == FIRST_INODE
    {
      this.env := env;
      entries, inode := [], FIRST_INODE;
    }

    ghost predicate Holds(items: seq<string>)
      reads this
    {
      entries == Number(FIRST_INODE, items) && inode == FIRST_INODE + |items|
    }

    method Append(line: string, ghost items: seq<string>)
      requires Holds(items)
      modifies this
      ensures Holds(items + [line])
    {
      NumberAppend(items, [line]);
      entries := entries + [(inode, line)];
      inode := inode + 1;
    }

    /** The file is accepted exactly when it is well formed, and then adds its kept entries. */
    method AddFile(lines: seq<string>, parses: string -> bool, ghost items: seq<string>) returns (ok: bool)
      requires Holds(items)
      modifies this
      ensures ok <==> WellFormed(lines, env, parses)
      ensures ok ==> Holds(items + Kept(lines, env))
    {
      hide Eval, Holds;
      var cfgCond, skipNextLine, i := false, false, 0;
      assert items + [] == items;
      while i < |lines|
        invariant 0 <= i <= |lines| && Holds(items + Kept(lines[..i], env))
        invariant cfgCond == Guard(lines[..i]).Some? && skipNextLine == !Live(lines[..i], env)
        invariant cfgCond ==> Eval(Guard(lines[..i]).value, env).Some?
        invariant forall j :: 0 <= j < i ==> Accepted(lines[..j], lines[j], env, parses)
      {
        var line := lines[i];
        ghost var before := lines[..i];
        assert lines[..i + 1] == before + [line] && (before + [line])[..i] == before;
        ghost var kept := Kept(before, env);
        assert items + (kept + [line]) == (items + kept) + [line] && kept + [] == kept;
        i := i + 1;
        match Classify(line) {
          case Directive =>
            if cfgCond { return false; }
            var value := Eval(line, env);
            if value.None? { return false; }
            cfgCond, skipNextLine := true, !value.value;
          case Item =>
            cfgCond := false;
            if skipNextLine {
              skipNextLine := false;
            } else {
              if !parses(line) { return false; }
              Append(line, items + kept);
            }
          case _ =>
        }
      }
      assert lines[..i] == lines;
      ok := true;
    }
  }

  /** Several files: each starts unguarded, and inode numbers run on. */
  method Load(files: seq<seq<string>>, env: Environment, parses: string -> bool) returns (r: Option<seq<(nat, string)>>)
    ensures r.Some? <==> forall f :: f in files ==> WellFormed(f, env, parses)
    ensures r.Some? ==> |r.value| == |KeptOfAll(files, env)| &&
                        forall i :: 0 <= i < |r.value| ==> r.value[i] == (721 + i, KeptOfAll(files, env)[i])
  {
    hide WellFormed, Kept;
    var config := new Config(env);
    var i := 0;
    assert files[..0] == [];
    while i < |files|
      invariant 0 <= i <= |files| && config.Holds(KeptOfAll(files[..i], env)) && config.env == env
      invariant forall j :: 0 <= j < i ==> WellFormed(files[j], env, parses)
    {
      assert files[..i + 1][..i] == files[..i];
      var ok := config.AddFile(files[i], parses, KeptOfAll(files[..i], env));
      if !ok { return None; }
      i := i + 1;
    }
    assert files[..i] == files;
    r := Some(config.entries);
  }

  predicate Ignored(line: string) {
    Classify(line) == LineKind.Blank || Classify(line) == Comment
  }

  /** Line `i` is the directive `d`, with only blank lines and comments after it. */
  predicate GuardsAt(lines: seq<string>, i: nat, d: string) {
    i < |lines| && Classify(lines[i]) == Directive && lines[i] == d && forall j :: i < j < |lines| ==> Ignored(lines[j])
  }

  lemma GuardsAtInit(lines: seq<string>, i: nat, d: string)
    requires lines != [] && i < |lines| - 1
    ensures GuardsAt(lines, i, d) <==> GuardsAt(lines[..|lines| - 1], i, d) && Ignored(lines[|lines| - 1])
  {
    hide Classify, Ignored;
    var init := lines[..|lines| - 1];
    assert forall j :: 0 <= j < |init| ==> init[j] == lines[j];
  }

  /** What `Guard` finds. */
  lemma {:induction false} GuardMeaning(lines: seq<string>, d: string)
    ensures Guard(lines) == Some(d) <==> exists i :: GuardsAt(lines, i, d)
    decreases |lines|
  {
    hide Classify;
    if lines != [] {
      var n := |lines| - 1;
      GuardMeaning(lines[..n], d);
      if Guard(lines) == Some(d) {
        if Classify(lines[n]) == Directive {
          assert GuardsAt(lines, n, d);
        } else {
          var i :| GuardsAt(lines[..n], i, d);
          GuardsAtInit(lines, i, d);
        }
      }
      if i: nat :| GuardsAt(lines, i, d) {
        if i < n { GuardsAtInit(lines, i, d); }
      }
    }
  }

  /** A line adds itself to what is kept exactly when it is not empty, does not start with `#`, and
      the directive that guards it, if any, holds. */
  lemma KeptExact(lines: seq<string>, i: nat, env: Environment)
    requires i < |lines|
    ensures var before, line := lines[..i], lines[i];
            var kept := line != "" && line[0] != '#' &&
                        forall k: nat, d: string :: GuardsAt(before, k, d) ==> Eval(d, env) == Some(true);
            Kept(lines[..i + 1], env) == Kept(before, env) + if kept then [line] else []
  {
    hide Eval, Guard, GuardsAt, Classify;
    var before, line := lines[..i], lines[i];
    assert lines[..i + 1][..i] == before;
    ClassifyExact(line);
    forall k: nat, d: string | GuardsAt(before, k, d) ensures Guard(before) == Some(d) { GuardMeaning(before, d); }
    if Guard(before).Some? {
      GuardMeaning(before, Guard(before).value);
      var k: nat :| GuardsAt(before, k, Guard(before).value);
      assert Eval(Guard(before).value, env) == Some(true) <==>
             forall k: nat, d: string :: GuardsAt(before, k, d) ==> Eval(d, env) == Some(true);
    }
  }
}
