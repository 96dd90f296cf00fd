/** The evaluator of `#[cfg(...)]` lines as the generator runs it: a cursor over the text and one
    token of lookahead, updated in place, proved to compute `CfgCond.Eval`. An exception of the
    generator is the result `None` or `false`; the object is not used after one. */
module CfgCondEvaluator {
  import opened Wrappers
  import opened CfgCond

  method SkipSpaces(text: string, start: nat) returns (pos: nat)
    requires start <= |text|
    ensures start <= pos <= |text| && text[pos..] == Skip(text[start..])
    ensures pos < |text| ==> !Space(text[pos])
  {
    pos := start;
    while pos < |text| && Space(text[pos])
      invariant start <= pos <= |text| && Skip(text[pos..]) == Skip(text[start..])
    {
      assert text[pos..][1..] == text[pos + 1..];
      pos := pos + 1;
    }
  }

  method NameEnd(text: string, start: nat) returns (end: nat)
    requires start <= |text|
    ensures end == start + WordLength(text[start..])
  {
    end := start;
    while end < |text| && Word(text[end])
      invariant start <= end <= |text|
      invariant start + WordLength(text[start..]) == end + WordLength(text[end..])
    {
      assert text[end..][1..] == text[end + 1..];
      end := end + 1;
    }
  }

  method TextEnd(text: string, start: nat) returns (end: nat)
    requires start <= |text|
    ensures end == start + TextLength(text[start..])
  {
    end := start;
    while end < |text| && text[end] != '"'
      invariant start <= end <= |text|
      invariant start + TextLength(text[start..]) == end + TextLength(text[end..])
    {
      assert text[end..][1..] == text[end + 1..];
      end := end + 1;
    }
  }

  /** Which token `head` starts with; names and strings are still to be read. */
  method Classify(head: string) returns (token: Token)
    requires head != []
    ensures var t := Head(head).token;
            if t.Env? then token == Env("") else if t.Str? then token == Str("") else token == t
  {
    hide WordLength, TextLength;
    if "#" <= head {
      token := Hash;
    } else if "cfg" <= head {
      token := Cfg;
    } else if "any" <= head {
      token := Any;
    } else if "all" <= head {
      token := All;
    } else if "(" <= head {
      token := LParen;
    } else if ")" <= head {
      token := RParen;
    } else if "[" <= head {
      token := LBracket;
    } else if "]" <= head {
      token := RBracket;
    } else if "," <= head {
      token := Comma;
    } else if "$" <= head {
      token := Env("");
    } else if "==" <= head {
      token := Eq;
    } else if "!=" <= head {
      token := Neq;
    } else if "\"" <= head {
      token := Str("");
    } else {
      token := Bad;
    }
  }

  lemma HeadLength(s: string)
    requires s != []
    ensures Head(s).token == Bad ==> Head(s).length == 0
    ensures var l := Head(s); !l.token.Env? && !l.token.Str? ==> l.length == |Spelling(l.token)|
    ensures Head(s).token.Env? ==> Head(s) == Lexeme(Env(s[1..1 + WordLength(s[1..])]), 1 + WordLength(s[1..]))
    ensures Head(s).token.Str? ==>
              var n := TextLength(s[1..]);
              Head(s) == Lexeme(Str(s[1..1 + n]), if 1 + n < |s| then n + 2 else n + 1)
  {
    hide WordLength, TextLength;
  }

  /** Reads the token at `start` and moves past it, one past the end after an unclosed string. */
  method ScanToken(text: string, start: nat) returns (token: Token, pos: nat)
    requires start < |text|
    ensures var l := Head(text[start..]);
            token == l.token && (if pos <= |text| then pos == start + l.length else start + l.length == |text|)
  {
    hide Head, WordLength, TextLength;
    ghost var head := text[start..];
    HeadLength(head);
    token := Classify(text[start..]);
    pos := start;
    if token.Env? {
      pos := pos + 1;
      assert text[pos..] == head[1..];
      var end := NameEnd(text, pos);
      SliceOfRest(text, start, end);
      token := Env(text[pos..end]);
      pos := end;
    } else if token.Str? {
      pos := pos + 1;
      assert text[pos..] == head[1..];
      var end := TextEnd(text, pos);
      SliceOfRest(text, start, end);
      token := Str(text[pos..end]);
      pos := end + 1;
    } else {
      pos := pos + |Spelling(token)|;
    }
  }

  lemma SliceOfRest(text: string, start: nat, end: nat)
    requires start < end <= |text|
    ensures text[start + 1..end] == text[start..][1..end - start]
  {
  }

  class CfgCondEval {
    const text: string
    const env: Environment
    var pos: nat
    var token: Token

    constructor (text: string, env: Environment)
      ensures this.text == text && this.env == env && pos == 0
    {
      this.text := text;
      this.env := env;
      pos := 0;
      token := Bad;
    }

    /** What the cursor has not read; it stands one past the end after an unclosed string. */
    ghost function Unread(): string
      reads this
    {
      if pos <= |text| then text[pos..] else []
    }

    ghost predicate Valid()
      reads this
    {
      token != Bad && (token == Eol ==> Lex(Unread()) == [Eol])
    }

    /** The tokens still to be parsed, the lookahead first. */
    ghost function Rest(): (ts: seq<Token>)
      reads this
      ensures ts != []
    {
      if token == Eol then [Eol] else [token] + Lex(Unread())
    }

    method Lookahead() returns (ok: bool)
      modifies this
      ensures ok <==> Lex(old(Unread()))[0] != Bad
      ensures ok ==> Valid() && Rest() == Lex(old(Unread()))
    {
      hide Lex, Skip, Head, WordLength, TextLength, Space;
      LexStep(Unread());
      if pos < |text| {
        pos := SkipSpaces(text, pos);
      } else {
        SkipNothing();
        assert Unread() == [];
      }
      if pos >= |text| {
        token := Eol;
        LexStep(Unread());
        SkipNothing();
        return true;
      }
      assert Skip(old(Unread())) == text[pos..];
      ghost var head := text[pos..];
      token, pos := ScanToken(text, pos);
      ok := token != Bad;
      assert ok ==> Unread() == head[Head(head).length..];
    }

    /** One step of the parser on the tokens that are left. */
    method Next() returns (ok: bool)
      requires Valid()
      modifies this
      ensures ok <==> Advance(old(Rest())).Ok?
      ensures ok ==> Valid() && Rest() == Advance(old(Rest())).rest
    {
      hide Lex;
      assert token != Eol ==> Rest()[1..] == Lex(Unread());
      ok := Lookahead();
    }

    method Consume(expected: seq<Token>) returns (ok: bool)
      requires Valid()
      modifies this
      ensures ok <==> ConsumeAll(old(Rest()), expected).Ok?
      ensures ok ==> Valid() && Rest() == ConsumeAll(old(Rest()), expected).rest
    {
      hide Lex, Valid, Rest;
      var i := 0;
      while i < |expected|
        invariant 0 <= i <= |expected| && Valid()
        invariant ConsumeAll(Rest(), expected[i..]) == ConsumeAll(old(Rest()), expected)
      {
        assert expected[i..][0] == expected[i] && expected[i..][1..] == expected[i + 1..];
        RestStarts();
        if token != expected[i] { return false; }
        ok := Next();
        if !ok { return false; }
        i := i + 1;
      }
      assert expected[i..] == [];
      ok := true;
    }

    lemma RestStarts()
      ensures Rest()[0] == token
    {
    }

    method Term() returns (value: Option<Option<string>>)
      requires Valid()
      modifies this
      ensures value.Some? <==> ParseTerm(old(Rest()), env).Ok?
      ensures value.Some? ==> Valid() && ParseTerm(old(Rest()), env) == Ok(value.value, Rest())
    {
      hide Lex, Valid, Rest;
      RestStarts();
      var val := None;
      if token.Env? {
        if token.name in env { val := Some(env[token.name]); }
      } else if token.Str? {
        val := Some(token.text);
      } else {
        return None;
      }
      var ok := Next();
      value := if ok then Some(val) else None;
    }

    /** The comparison branch of `Expr`. */
    method Comparison() returns (value: Option<bool>)
      requires Valid()
      modifies this
      ensures value.Some? <==> ParseComparison(old(Rest()), env).Ok?
      ensures value.Some? ==> Valid() && ParseComparison(old(Rest()), env) == Ok(value.value, Rest())
    {
      hide Lex, Valid, Rest, ParseTerm, Advance;
      var left := Term();
      if left.None? { return None; }
      RestStarts();
      if token != Eq && token != Neq { return None; }
      var equal := token == Eq;
      var ok := Next();
      if !ok { return None; }
      var right := Term();
      if right.None? { return None; }
      value := Some((left.value == right.value) == equal);
    }

    ghost predicate AtGroup()
      reads this
    {
      token == Any || token == All
    }

    method Cond() returns (value: Option<bool>)
      requires Valid()
      modifies this
      ensures value.Some? <==> ParseExpr(old(Rest()), env).Ok?
      ensures value.Some? ==> Valid() && ParseExpr(old(Rest()), env) == Ok(value.value, Rest())
      decreases |Rest()|, if AtGroup() then 1 else 3
    {
      if token == Any {
        value := Group(false);
      } else if token == All {
        value := Group(true);
      } else {
        value := Expr();
      }
    }

    /** `any(...)` and `all(...)`, which differ only in how they combine the values. */
    method Group(all: bool) returns (value: Option<bool>)
      requires Valid() && token == if all then All else Any
      modifies this
      ensures value.Some? <==> ParseExpr(old(Rest()), env).Ok?
      ensures value.Some? ==> Valid() && ParseExpr(old(Rest()), env) == Ok(value.value, Rest())
      decreases |Rest()|, 0
    {
      hide Lex, Valid, Rest, ParseList, ConsumeAll, ParseExpr;
      ghost var start := Rest();
      RestStarts();
      GroupSteps(start, env);
      var ok := Consume([if all then All else Any, LParen]);
      if !ok { return None; }
      var values := ExprList();
      if values.None? { return None; }
      ok := Consume([RParen]);
      if !ok { return None; }
      value := Some(if all then false !in values.value else true in values.value);
    }

    method ExprList() returns (values: Option<seq<bool>>)
      requires Valid()
      modifies this
      ensures values.Some? <==> ParseList(old(Rest()), env).Ok?
      ensures values.Some? ==> Valid() && ParseList(old(Rest()), env) == Ok(values.value, Rest())
      decreases |Rest()|, 4
    {
      hide Lex, Valid, Rest, ParseExpr, Advance, ParseList;
      ghost var start := Rest();
      ListSteps(start, env);
      var first := Expr();
      if first.None? { return None; }
      var exprs := [first.value];
      RestStarts();
      while token == Comma
        invariant Valid() && token == Rest()[0] && |Rest()| < |start|
        invariant ParseList(start, env) == Continue(exprs, Rest(), env)
        decreases |Rest()|
      {
        AdvanceShorter(Rest());
        var ok := Next();
        if !ok { return None; }
        ListSteps(Rest(), env);
        var more := Expr();
        if more.None? { return None; }
        exprs := exprs + [more.value];
        RestStarts();
        ContinueAppend(exprs[..|exprs| - 1], more.value, Rest(), env);
        assert exprs[..|exprs| - 1] + [more.value] == exprs;
      }
      values := Some(exprs);
    }

    /** The generator's `expr` and `cond` call each other without end when the token starts neither a
        comparison nor a group; its interpreter then raises an error, which is `None` here. */
    method Expr() returns (value: Option<bool>)
      requires Valid()
      modifies this
      ensures value.Some? <==> ParseExpr(old(Rest()), env).Ok?
      ensures value.Some? ==> Valid() && ParseExpr(old(Rest()), env) == Ok(value.value, Rest())
      decreases |Rest()|, if AtGroup() then 2 else 0
    {
      RestStarts();
      if token.Env? || token.Str? {
        value := Comparison();
      } else if token == Any || token == All {
        value := Cond();
      } else {
        value := None;
      }
    }

    method Eval() returns (value: Option<bool>)
      requires pos == 0
      modifies this
      ensures value == CfgCond.Eval(text, env)
    {
      hide Lex, ConsumeAll, ParseExpr, Valid, Rest;
      assert text[0..] == text;
      var ok := Lookahead();
      if !ok { return None; }
      ok := Consume(OPENING);
      if !ok { return None; }
      value := Cond();
      if value.None? { return; }
      ok := Consume(CLOSING);
      if !ok { value := None; }
    }
  }

  lemma AdvanceShorter(ts: seq<Token>)
    requires ts != [] && ts[0] != Eol
    ensures Advance(ts).Ok? ==> Advance(ts).rest != [] && |Advance(ts).rest| < |ts|
  {
  }

  /** A group read as the generator reads it: opening tokens, list, closing token. */
  ghost function ReadGroup(ts: seq<Token>, env: Environment): Parsed<bool>
    requires ts != []
  {
    var open := ConsumeAll(ts, [ts[0], LParen]);
    if open.Fail? then Fail
    else
      var list := ParseList(open.rest, env);
      if list.Fail? then Fail
      else
        var close := ConsumeAll(list.rest, [RParen]);
        if close.Fail? then Fail
        else Ok(if ts[0] == Any then true in list.value else false !in list.value, close.rest)
  }

  lemma GroupSteps(ts: seq<Token>, env: Environment)
    requires ts != [] && (ts[0] == Any || ts[0] == All)
    ensures ParseExpr(ts, env) == ReadGroup(ts, env)
    ensures ConsumeAll(ts, [ts[0], LParen]).Ok? ==> |ConsumeAll(ts, [ts[0], LParen]).rest| < |ts|
  {
    hide ParseList;
    assert [ts[0], LParen][1..] == [LParen] && [LParen][1..] == [] && [RParen][1..] == [];
    if CfgCond.Consume(ts, ts[0]).Ok? {
      var open := CfgCond.Consume(ts, ts[0]).rest;
      assert ConsumeAll(ts, [ts[0], LParen]) == ConsumeAll(open, [LParen]);
    }
  }

  /** The rest of a list after its first values are known. */
  ghost function Continue(values: seq<bool>, ts: seq<Token>, env: Environment): Parsed<seq<bool>>
    requires ts != []
  {
    if ts[0] != Comma then Ok(values, ts)
    else
      match Advance(ts)
      case Fail => Fail
      case Ok(_, after) =>
        if after == [] then Fail
        else
          match ParseList(after, env)
          case Fail => Fail
          case Ok(vs, end) => Ok(values + vs, end)
  }

  lemma ListSteps(ts: seq<Token>, env: Environment)
    requires ts != []
    ensures ParseList(ts, env) ==
              if ParseExpr(ts, env).Fail? then Fail
              else Continue([ParseExpr(ts, env).value], ParseExpr(ts, env).rest, env)
    ensures ParseExpr(ts, env).Ok? ==> |ParseExpr(ts, env).rest| < |ts|
  {
    hide ParseExpr;
  }

  lemma ContinueAppend(values: seq<bool>, v: bool, ts: seq<Token>, env: Environment)
    requires ts != []
    ensures Continue(values + [v], ts, env) ==
              if Continue([v], ts, env).Fail? then Fail
              else Ok(values + Continue([v], ts, env).value, Continue([v], ts, env).rest)
  {
    hide ParseList, Advance;
    if ts[0] == Comma && Advance(ts).Ok? && Advance(ts).rest != [] && ParseList(Advance(ts).rest, env).Ok? {
      var vs := ParseList(Advance(ts).rest, env).value;
      assert values + [v] + vs == values + ([v] + vs);
    }
  }
}
