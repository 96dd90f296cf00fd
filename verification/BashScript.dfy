/** Printing a script for Bash, and reading it back by the quoting and token rules of sections 2.2
    and 2.3 of the POSIX.1 Shell Command Language. */
module BashScript {
  import opened Wrappers

  datatype Command = Command(argv0: string, args: seq<string>)

  /** The environment in the order it is printed. */
  datatype Script = Script(env: seq<(string, string)>, commands: seq<Command>)

  // ---- Printing ----

  /** Every quote in `s` closes the string, is written escaped, and opens it again. */
  function Escape(s: string): string {
    if s == [] then "" else (if s[0] == '\'' then "'\\''" else [s[0]]) + Escape(s[1..])
  }

  function Quote(s: string): string {
    "'" + Escape(s) + "'"
  }

  function Join(parts: seq<string>, separator: string): string {
    if parts == [] then "" else if |parts| == 1 then parts[0] else parts[0] + separator + Join(parts[1..], separator)
  }

  function Exports(env: seq<(string, string)>): (lines: seq<string>)
    ensures |lines| == |env|
  {
    seq(|env|, i requires 0 <= i < |env| => "export " + env[i].0 + "=" + Quote(env[i].1))
  }

  function Quoted(args: seq<string>): (words: seq<string>)
    ensures |words| == |args|
  {
    seq(|args|, i requires 0 <= i < |args| => Quote(args[i]))
  }

  function CommandLine(c: Command): string {
    Quote(c.argv0) + " " + Join(Quoted(c.args), " ") + "\n"
  }

  function CommandLines(cs: seq<Command>): string {
    if cs == [] then "" else CommandLine(cs[0]) + CommandLines(cs[1..])
  }

  function Print(script: Script): string {
    Join(Exports(script.env), "\n") + "\n" + CommandLines(script.commands)
  }

  method Display(script: Script) returns (text: string)
    ensures text == Print(script)
  {
    text := Join(Exports(script.env), "\n") + "\n";
    ghost var head := text;
    var i := 0;
    while i < |script.commands|
      invariant 0 <= i <= |script.commands|
      invariant text + CommandLines(script.commands[i..]) == head + CommandLines(script.commands)
    {
      var c := script.commands[i];
      assert script.commands[i..][0] == c && script.commands[i..][1..] == script.commands[i + 1..];
      ghost var rest := CommandLines(script.commands[i + 1..]);
      var line := Quote(c.argv0) + " " + Join(Quoted(c.args), " ") + "\n";
      assert text + (line + rest) == (text + line) + rest;
      text := text + line;
      i := i + 1;
    }
    assert text + "" == text;
  }

  // ---- Reading ----

  datatype Mode = Unquoted | SingleQuoted | Escaped

  /** `word` is the word being read, `line` the words of the line so far, `lines` the lines before. */
  datatype Reader = Reader(mode: Mode, word: Option<string>, line: seq<string>, lines: seq<seq<string>>)

  /** Characters that stand for themselves outside quotes. Others, apart from quotes, backslash, blanks
      and line breaks, are not given a meaning here. */
  predicate Plain(c: char) {
    'a' <= c <= 'z' || 'A' <= c <= 'Z' || '0' <= c <= '9' || c == '_' || c == '='
  }

  function Extend(r: Reader, s: string): Reader {
    r.(word := Some((if r.word.Some? then r.word.value else "") + s))
  }

  function EndWord(r: Reader): Reader {
    if r.word.None? then r else r.(word := None, line := r.line + [r.word.value])
  }

  function EndLine(r: Reader): Reader {
    var e := EndWord(r);
    if e.line == [] then e else e.(line := [], lines := e.lines + [e.line])
  }

  function Step(r: Reader, c: char): Option<Reader> {
    match r.mode
    case SingleQuoted =>
      if c == '\'' then Some(r.(mode := Unquoted)) else Some(Extend(r, [c]))
    case Escaped =>
      if c == '\n' then Some(r.(mode := Unquoted)) else Some(Extend(r, [c]).(mode := Unquoted))
    case Unquoted =>
      if c == '\'' then Some(Extend(r, "").(mode := SingleQuoted))
      else if c == '\\' then Some(r.(mode := Escaped))
      else if c == ' ' || c == '\t' then Some(EndWord(r))
      else if c == '\n' then Some(EndLine(r))
      else if Plain(c) then Some(Extend(r, [c]))
      else None
  }

  function Feed(r: Reader, s: string): Option<Reader>
    decreases |s|
  {
    if s == [] then Some(r)
    else
      var next := Step(r, s[0]);
      if next.None? then None else Feed(next.value, s[1..])
  }

  /** The commands of a text, each a list of words; `None` if a quote is left open or a character has
      no meaning here. */
  function Tokenise(s: string): Option<seq<seq<string>>> {
    var r := Feed(Reader(Unquoted, None, [], []), s);
    if r.None? || r.value.mode != Unquoted then None else Some(EndLine(r.value).lines)
  }

  // ---- Reading back what was printed ----

  lemma {:induction false} FeedAppend(r: Reader, a: string, b: string)
    ensures Feed(r, a + b) == if Feed(r, a).None? then None else Feed(Feed(r, a).value, b)
    decreases |a|
  {
    hide Step;
    if a == [] {
      assert a + b == b;
    } else {
      assert (a + b)[0] == a[0] && (a + b)[1..] == a[1..] + b;
      if Step(r, a[0]).Some? { FeedAppend(Step(r, a[0]).value, a[1..], b); }
    }
  }

  lemma FeedOne(r: Reader, c: char)
    ensures Feed(r, [c]) == Step(r, c)
  {
    hide Step;
    if Step(r, c).Some? { assert [c][1..] == []; }
  }

  lemma {:induction false} FeedPlain(r: Reader, s: string)
    requires r.mode == Unquoted && s != [] && forall i :: 0 <= i < |s| ==> Plain(s[i])
    ensures Feed(r, s) == Some(Extend(r, s))
    decreases |s|
  {
    var next := Extend(r, [s[0]]);
    assert Step(r, s[0]) == Some(next);
    if |s| == 1 {
      assert s[1..] == [] && s == [s[0]];
    } else {
      FeedPlain(next, s[1..]);
      ExtendTwice(r, [s[0]], s[1..]);
      assert [s[0]] + s[1..] == s;
    }
  }

  lemma ExtendTwice(r: Reader, a: string, b: string)
    ensures Extend(Extend(r, a), b) == Extend(r, a + b)
  {
    var w := if r.word.Some? then r.word.value else "";
    assert w + a + b == w + (a + b);
  }

  /** Inside single quotes, an escaped string adds exactly the string to the word. */
  lemma {:induction false} FeedEscaped(r: Reader, s: string)
    requires r.mode == SingleQuoted && r.word.Some?
    ensures Feed(r, Escape(s)) == Some(Extend(r, s))
    decreases |s|
  {
    if s == [] {
      assert r.word.value + s == r.word.value;
    } else {
      var head := if s[0] == '\'' then "'\\''" else [s[0]];
      var next := Extend(r, [s[0]]);
      assert Feed(r, head) == Some(next) by {
        if s[0] == '\'' { FeedQuoteEscape(r); } else { FeedOne(r, s[0]); }
      }
      FeedAppend(r, head, Escape(s[1..]));
      FeedEscaped(next, s[1..]);
      ExtendTwice(r, [s[0]], s[1..]);
      assert [s[0]] + s[1..] == s;
    }
  }

  lemma FeedQuoteEscape(r: Reader)
    requires r.mode == SingleQuoted && r.word.Some?
    ensures Feed(r, "'\\''") == Some(Extend(r, "'"))
  {
    hide Feed;
    var a, b, c := r.(mode := Unquoted), r.(mode := Escaped), Extend(r, "'").(mode := Unquoted);
    assert Step(r, '\'') == Some(a) && Step(a, '\\') == Some(b) && Step(b, '\'') == Some(c);
    assert Step(c, '\'') == Some(Extend(r, "'")) by {
      assert c.word.value + "" == c.word.value;
    }
    FeedOne(r, '\'');
    FeedOne(a, '\\');
    FeedOne(b, '\'');
    FeedOne(c, '\'');
    FeedAppend(r, "'", "\\");
    FeedAppend(r, "'" + "\\", "'");
    FeedAppend(r, "'" + "\\" + "'", "'");
    assert "'\\''" == "'" + "\\" + "'" + "'";
  }

  /** A quoted string adds exactly the string to the word, even the empty string. */
  lemma FeedQuoted(r: Reader, s: string)
    requires r.mode == Unquoted
    ensures Feed(r, Quote(s)) == Some(Extend(r, s))
  {
    hide Feed, Escape;
    var start := Extend(r, "").(mode := SingleQuoted);
    FeedOne(r, '\'');
    FeedEscaped(start, s);
    var end := Extend(start, s);
    FeedOne(end, '\'');
    FeedAppend(r, "'", Escape(s));
    FeedAppend(r, "'" + Escape(s), "'");
    ExtendTwice(r, "", s);
    assert "" + s == s;
  }

  /** Between lines: nothing pending. */
  predicate AtStart(r: Reader) {
    r.mode == Unquoted && r.word.None? && r.line == []
  }

  /** A word ends here, or already ended. */
  lemma FeedSpace(r: Reader)
    requires r.mode == Unquoted
    ensures Feed(r, " ") == Some(EndWord(r))
  {
    FeedOne(r, ' ');
  }

  /** Quoted words joined by spaces are read as those words. */
  lemma {:induction false} FeedWords(r: Reader, args: seq<string>)
    requires r.mode == Unquoted && r.word.None?
    ensures var e := Feed(r, Join(Quoted(args), " "));
            e.Some? && e.value.mode == Unquoted && EndWord(e.value) == r.(line := r.line + args)
    decreases |args|
  {
    hide Feed, Quote;
    if args == [] {
      FeedNothing(r);
      assert r.line + args == r.line;
    } else {
      var word := args[0];
      assert Quoted(args)[0] == Quote(word) && Quoted(args)[1..] == Quoted(args[1..]);
      FeedQuoted(r, word);
      assert Extend(r, word).word.value == word by { assert "" + word == word; }
      var e := Extend(r, word);
      var next := r.(line := r.line + [word]);
      assert EndWord(e) == next;
      if |args| == 1 {
        assert args == [word];
      } else {
        var rest := Join(Quoted(args[1..]), " ");
        FeedSpace(e);
        FeedAppend(r, Quote(word), " ");
        FeedAppend(r, Quote(word) + " ", rest);
        FeedWords(next, args[1..]);
        assert r.line + args == r.line + [word] + args[1..];
      }
    }
  }

  lemma FeedNothing(r: Reader)
    ensures Feed(r, "") == Some(r)
  {
  }

  lemma FeedCommand(r: Reader, c: Command)
    requires AtStart(r)
    ensures Feed(r, CommandLine(c)) == Some(r.(lines := r.lines + [[c.argv0] + c.args]))
  {
    hide Feed, Join, Quoted, Quote;
    var args := Join(Quoted(c.args), " ");
    FeedQuoted(r, c.argv0);
    var e := Extend(r, c.argv0);
    assert e.word.value == c.argv0 by { assert "" + c.argv0 == c.argv0; }
    FeedSpace(e);
    var next := r.(line := [c.argv0]);
    assert EndWord(e) == next;
    FeedWords(next, c.args);
    FeedAppend(r, Quote(c.argv0), " ");
    FeedAppend(r, Quote(c.argv0) + " ", args);
    var last := Feed(next, args).value;
    FeedAppend(r, Quote(c.argv0) + " " + args, "\n");
    FeedOne(last, '\n');
  }

  function Argvs(cs: seq<Command>): seq<seq<string>> {
    if cs == [] then [] else [[cs[0].argv0] + cs[0].args] + Argvs(cs[1..])
  }

  lemma {:induction false} FeedCommands(r: Reader, cs: seq<Command>)
    requires AtStart(r)
    ensures Feed(r, CommandLines(cs)) == Some(r.(lines := r.lines + Argvs(cs)))
    decreases |cs|
  {
    hide Feed, CommandLine;
    if cs == [] {
      FeedNothing(r);
      assert r.lines + [] == r.lines;
    } else {
      FeedCommand(r, cs[0]);
      var argv := [cs[0].argv0] + cs[0].args;
      var next := r.(lines := r.lines + [argv]);
      FeedAppend(r, CommandLine(cs[0]), CommandLines(cs[1..]));
      FeedCommands(next, cs[1..]);
      assert r.lines + [argv] + Argvs(cs[1..]) == r.lines + ([argv] + Argvs(cs[1..]));
    }
  }

  /** A name of section 3.235 of POSIX.1, Base Definitions. */
  predicate ValidName(k: string) {
    k != [] && !('0' <= k[0] <= '9') &&
    forall i :: 0 <= i < |k| ==> 'a' <= k[i] <= 'z' || 'A' <= k[i] <= 'Z' || '0' <= k[i] <= '9' || k[i] == '_'
  }

  /** An export line, up to its end. */
  lemma FeedExport(r: Reader, k: string, v: string)
    requires AtStart(r) && ValidName(k)
    ensures Feed(r, "export " + k + "=" + Quote(v)) ==
              Some(r.(word := Some(k + "=" + v), line := ["export"]))
  {
    hide Feed, Quote;
    FeedPlain(r, "export");
    assert "" + "export" == "export";
    assert r.line + ["export"] == ["export"];
    var e := Extend(r, "export");
    FeedSpace(e);
    var next := r.(line := ["export"]);
    assert EndWord(e) == next;
    FeedPlain(next, k + "=");
    var named := Extend(next, k + "=");
    FeedQuoted(named, v);
    FeedAppend(r, "export", " ");
    FeedAppend(r, "export" + " ", k + "=");
    FeedAppend(r, "export" + " " + (k + "="), Quote(v));
    assert "export " + k + "=" + Quote(v) == "export" + " " + (k + "=") + Quote(v);
    assert "" + (k + "=") == k + "=";
  }

  function ExportArgvs(env: seq<(string, string)>): (lines: seq<seq<string>>)
    ensures |lines| == |env|
  {
    seq(|env|, i requires 0 <= i < |env| => ["export", env[i].0 + "=" + env[i].1])
  }

  lemma FeedExportLine(r: Reader, k: string, v: string)
    requires AtStart(r) && ValidName(k)
    ensures Feed(r, "export " + k + "=" + Quote(v) + "\n") == Some(r.(lines := r.lines + [["export", k + "=" + v]]))
  {
    hide Feed, Quote, ValidName;
    FeedExport(r, k, v);
    var e := r.(word := Some(k + "=" + v), line := ["export"]);
    FeedAppend(r, "export " + k + "=" + Quote(v), "\n");
    FeedOne(e, '\n');
    assert ["export"] + [k + "=" + v] == ["export", k + "=" + v];
  }

  lemma {:induction false} FeedExports(r: Reader, env: seq<(string, string)>)
    requires AtStart(r) && forall i :: 0 <= i < |env| ==> ValidName(env[i].0)
    ensures Feed(r, Join(Exports(env), "\n") + "\n") == Some(r.(lines := r.lines + ExportArgvs(env)))
    decreases |env|
  {
    hide Feed, ValidName, Quote;
    if env == [] {
      FeedOne(r, '\n');
      assert "" + "\n" == "\n";
      assert r.lines + ExportArgvs(env) == r.lines;
    } else {
      var (k, v) := env[0];
      var line := "export " + k + "=" + Quote(v);
      assert Exports(env)[0] == line && Exports(env)[1..] == Exports(env[1..]);
      FeedExportLine(r, k, v);
      var next := r.(lines := r.lines + [["export", k + "=" + v]]);
      assert ExportArgvs(env) == [["export", k + "=" + v]] + ExportArgvs(env[1..]);
      if |env| == 1 {
        assert ExportArgvs(env) == [["export", k + "=" + v]];
        assert Join(Exports(env), "\n") == line;
      } else {
        var rest := Join(Exports(env[1..]), "\n") + "\n";
        FeedAppend(r, line + "\n", rest);
        assert Join(Exports(env), "\n") + "\n" == line + "\n" + rest;
        FeedExports(next, env[1..]);
        assert next.lines + ExportArgvs(env[1..]) == r.lines + ExportArgvs(env);
      }
    }
  }

  /** Reading the printed script gives back exactly the exports and each command's argv, for all
      values and arguments: quotes, blanks, line breaks and empty strings included. */
  lemma ScriptReadsBack(script: Script)
    requires forall i :: 0 <= i < |script.env| ==> ValidName(script.env[i].0)
    ensures Tokenise(Print(script)) == Some(ExportArgvs(script.env) + Argvs(script.commands))
  {
    hide Feed, ValidName, CommandLines, Exports, Join;
    var r := Reader(Unquoted, None, [], []);
    var exports := Join(Exports(script.env), "\n") + "\n";
    FeedExports(r, script.env);
    var next := r.(lines := r.lines + ExportArgvs(script.env));
    assert r.lines + ExportArgvs(script.env) == ExportArgvs(script.env);
    FeedAppend(r, exports, CommandLines(script.commands));
    FeedCommands(next, script.commands);
  }
}
