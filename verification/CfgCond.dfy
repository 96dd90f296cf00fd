/** Conditions of the form `#[cfg(...)]` in the initramfs configuration: a lexer and a one-token
    look-ahead parser that evaluates as it goes.  `Tree` is the grammar and `Meaning` its meaning,
    both independent of the parser. */
module CfgCond {
  import opened Wrappers

  datatype Token =
    | Hash | Cfg | Any | All | LParen | RParen | LBracket | RBracket | Comma
    | Env(name: string) | Eq | Neq | Str(text: string) | Eol
    | Bad  // no valid token: the lexer raises an error here

  type Environment = map<string, string>

  // ---- The lexer ----

  predicate Space(c: char) {
    c <= ' '
  }

  predicate Word(c: char) {
    'a' <= c <= 'z' || 'A' <= c <= 'Z' || '0' <= c <= '9' || c == '_'
  }

  function Skip(s: string): string {
    if s != [] && Space(s[0]) then Skip(s[1..]) else s
  }

  /** How many characters of an identifier `s` starts with. */
  function WordLength(s: string): (n: nat)
    ensures n <= |s|
  {
    if s != [] && Word(s[0]) then 1 + WordLength(s[1..]) else 0
  }

  /** How many characters precede the first quote. */
  function TextLength(s: string): (n: nat)
    ensures n <= |s|
  {
    if s != [] && s[0] != '"' then 1 + TextLength(s[1..]) else 0
  }

  datatype Lexeme = Lexeme(token: Token, length: nat)

  /** The token at the start of `s`; an unclosed string runs to the end. */
  function Head(s: string): (l: Lexeme)
    requires s != []
    ensures l.length <= |s| && (l.token != Bad ==> l.length > 0) && l.token != Eol
  {
    if "#" <= s then Lexeme(Hash, 1)
    else if "cfg" <= s then Lexeme(Cfg, 3)
    else if "any" <= s then Lexeme(Any, 3)
    else if "all" <= s then Lexeme(All, 3)
    else if "(" <= s then Lexeme(LParen, 1)
    else if ")" <= s then Lexeme(RParen, 1)
    else if "[" <= s then Lexeme(LBracket, 1)
    else if "]" <= s then Lexeme(RBracket, 1)
    else if "," <= s then Lexeme(Comma, 1)
    else if "$" <= s then
      var n := WordLength(s[1..]);
      Lexeme(Env(s[1..1 + n]), 1 + n)
    else if "==" <= s then Lexeme(Eq, 2)
    else if "!=" <= s then Lexeme(Neq, 2)
    else if "\"" <= s then
      var n := TextLength(s[1..]);
      Lexeme(Str(s[1..1 + n]), if 1 + n < |s| then n + 2 else n + 1)
    else Lexeme(Bad, 0)
  }

  lemma {:induction false} SkipShorter(s: string)
    ensures |Skip(s)| <= |s|
  {
    if s != [] && Space(s[0]) { SkipShorter(s[1..]); }
  }

  /** All tokens of `s`, closed by `Eol`, or by `Bad` where the lexer fails. */
  function Lex(s: string): (ts: seq<Token>)
    ensures ts != []
    decreases |s|
  {
    SkipShorter(s);
    var t := Skip(s);
    if t == [] then [Eol]
    else if Head(t).token == Bad then [Bad]
    else [Head(t).token] + Lex(t[Head(t).length..])
  }

  /** The tokens from `s` on, one token at a time. */
  lemma LexStep(s: string)
    ensures var t := Skip(s);
            Lex(s) == if t == [] then [Eol] else if Head(t).token == Bad then [Bad]
                      else [Head(t).token] + Lex(t[Head(t).length..])
  {
    hide Head;
  }

  // ---- The parser ----

  datatype Parsed<+T> = Fail | Ok(value: T, rest: seq<Token>)

  /** Moves to the next token; the end of the line stays where it is. */
  function Advance(ts: seq<Token>): (p: Parsed<()>)
    ensures p.Ok? && ts[0] != Eol ==> |p.rest| < |ts|
    requires ts != []
  {
    if ts[0] == Eol then Ok((), ts)
    else if |ts| < 2 || ts[1] == Bad then Fail
    else Ok((), ts[1..])
  }

  function Consume(ts: seq<Token>, expected: Token): (p: Parsed<()>)
    requires ts != []
    ensures p.Ok? ==> p.rest != [] && ts[0] == expected
    ensures p.Ok? && expected != Eol ==> |p.rest| < |ts|
  {
    if ts[0] == expected then Advance(ts) else Fail
  }

  /** The value of a string or of a variable, which may be unset. */
  function ParseTerm(ts: seq<Token>, env: Environment): (p: Parsed<Option<string>>)
    requires ts != []
    ensures p.Ok? ==> p.rest != [] && |p.rest| < |ts|
  {
    if !ts[0].Env? && !ts[0].Str? then Fail
    else
      match Advance(ts)
      case Fail => Fail
      case Ok(_, rest) => Ok(Value(ts[0], env), rest)
  }

  function Value(t: Token, env: Environment): Option<string>
    requires t.Env? || t.Str?
  {
    if t.Str? then Some(t.text) else if t.name in env then Some(env[t.name]) else None
  }

  function ParseComparison(ts: seq<Token>, env: Environment): (p: Parsed<bool>)
    requires ts != []
    ensures p.Ok? ==> p.rest != [] && |p.rest| < |ts|
  {
    match ParseTerm(ts, env)
    case Fail => Fail
    case Ok(left, rest) =>
      if rest[0] != Eq && rest[0] != Neq then Fail
      else
        match Advance(rest)
        case Fail => Fail
        case Ok(_, after) =>
          match ParseTerm(after, env)
          case Fail => Fail
          case Ok(right, end) => Ok((left == right) == (rest[0] == Eq), end)
  }

  /** A comparison, or an `any` or `all` group; anything else is an error. */
  function ParseExpr(ts: seq<Token>, env: Environment): (p: Parsed<bool>)
    requires ts != []
    ensures p.Ok? ==> p.rest != [] && |p.rest| < |ts|
    decreases |ts|, 0
  {
    if ts[0].Env? || ts[0].Str? then ParseComparison(ts, env)
    else if ts[0] == Any || ts[0] == All then
      match Consume(ts, ts[0])
      case Fail => Fail
      case Ok(_, open) =>
        match Consume(open, LParen)
        case Fail => Fail
        case Ok(_, inner) =>
          match ParseList(inner, env)
          case Fail => Fail
          case Ok(values, close) =>
            match Consume(close, RParen)
            case Fail => Fail
            case Ok(_, rest) => Ok(if ts[0] == Any then true in values else false !in values, rest)
    else Fail
  }

  function ParseList(ts: seq<Token>, env: Environment): (p: Parsed<seq<bool>>)
    requires ts != []
    ensures p.Ok? ==> p.rest != [] && |p.rest| < |ts|
    decreases |ts|, 1
  {
    match ParseExpr(ts, env)
    case Fail => Fail
    case Ok(v, rest) =>
      if rest[0] != Comma then Ok([v], rest)
      else
        match Advance(rest)
        case Fail => Fail
        case Ok(_, after) =>
          match ParseList(after, env)
          case Fail => Fail
          case Ok(vs, end) => Ok([v] + vs, end)
  }

  function ConsumeAll(ts: seq<Token>, expected: seq<Token>): (p: Parsed<()>)
    requires ts != []
    ensures p.Ok? ==> p.rest != []
    decreases |expected|
  {
    if expected == [] then Ok((), ts)
    else
      match Consume(ts, expected[0])
      case Fail => Fail
      case Ok(_, rest) => ConsumeAll(rest, expected[1..])
  }

  const OPENING := [Hash, LBracket, Cfg, LParen]
  const CLOSING := [RParen, RBracket, Eol]

  function ParseLine(ts: seq<Token>, env: Environment): Option<bool>
    requires ts != []
  {
    if ts[0] == Bad then None
    else
      match ConsumeAll(ts, OPENING)
      case Fail => None
      case Ok(_, rest) =>
        match ParseExpr(rest, env)
        case Fail => None
        case Ok(v, after) => if ConsumeAll(after, CLOSING).Ok? then Some(v) else None
  }

  // ---- The grammar ----

  datatype Tree = Comparison(left: Token, equal: bool, right: Token) | Group(all: bool, items: Trees)

  datatype Trees = One(head: Tree) | More(head: Tree, tail: Trees)

  predicate IsTerm(t: Token) {
    t.Env? || t.Str?
  }

  predicate ValidTree(t: Tree) {
    match t
    case Comparison(left, _, right) => IsTerm(left) && IsTerm(right)
    case Group(_, items) => ValidTrees(items)
  }

  predicate ValidTrees(ts: Trees) {
    ValidTree(ts.head) && (ts.More? ==> ValidTrees(ts.tail))
  }

  function TreeTokens(t: Tree): (ts: seq<Token>)
    ensures ts != []
  {
    match t
    case Comparison(left, equal, right) => [left, if equal then Eq else Neq, right]
    case Group(all, items) => [if all then All else Any, LParen] + TreesTokens(items) + [RParen]
  }

  function TreesTokens(ts: Trees): (r: seq<Token>)
    ensures r != []
  {
    match ts
    case One(t) => TreeTokens(t)
    case More(t, rest) => TreeTokens(t) + [Comma] + TreesTokens(rest)
  }

  /** What a condition means: unset variables are equal to each other and to nothing else. */
  function Meaning(t: Tree, env: Environment): bool
    requires ValidTree(t)
  {
    match t
    case Comparison(left, equal, right) => (Value(left, env) == Value(right, env)) == equal
    case Group(all, items) => if all then AllHold(items, env) else AnyHolds(items, env)
  }

  predicate AllHold(ts: Trees, env: Environment)
    requires ValidTrees(ts)
  {
    Meaning(ts.head, env) && (ts.More? ==> AllHold(ts.tail, env))
  }

  predicate AnyHolds(ts: Trees, env: Environment)
    requires ValidTrees(ts)
  {
    Meaning(ts.head, env) || (ts.More? && AnyHolds(ts.tail, env))
  }

  lemma AdvanceOver(t: Token, rest: seq<Token>)
    requires t != Eol && rest != [] && rest[0] != Bad
    ensures Advance([t] + rest) == Ok((), rest)
  {
    assert ([t] + rest)[1..] == rest;
  }

  lemma {:induction false} TreeStart(t: Tree)
    requires ValidTree(t)
    ensures TreeTokens(t)[0] != Bad && TreeTokens(t)[0] != Eol
  {
  }

  lemma {:induction false} TreesStart(ts: Trees)
    requires ValidTrees(ts)
    ensures TreesTokens(ts)[0] == TreeTokens(ts.head)[0]
  {
  }

  lemma ComparisonComplete(left: Token, equal: bool, right: Token, rest: seq<Token>, env: Environment)
    requires IsTerm(left) && IsTerm(right) && rest != [] && rest[0] != Bad
    ensures ParseComparison([left, if equal then Eq else Neq, right] + rest, env)
              == Ok((Value(left, env) == Value(right, env)) == equal, rest)
  {
    hide Advance, Value;
    var op := if equal then Eq else Neq;
    assert [left, op, right] + rest == [left] + ([op] + ([right] + rest));
    AdvanceOver(left, [op] + ([right] + rest));
    AdvanceOver(op, [right] + rest);
    AdvanceOver(right, rest);
  }

  lemma GroupParses(conj: bool, inner: seq<Token>, rest: seq<Token>, env: Environment)
    requires inner != [] && inner[0] != Bad && rest != [] && rest[0] != Bad
    requires ParseList(inner, env).Ok? && ParseList(inner, env).rest == [RParen] + rest
    ensures var values := ParseList(inner, env).value;
            ParseExpr([if conj then All else Any, LParen] + inner, env)
              == Ok(if conj then false !in values else true in values, rest)
  {
    hide Advance, ParseComparison, ParseList;
    var key := if conj then All else Any;
    assert [key, LParen] + inner == [key] + ([LParen] + inner);
    AdvanceOver(key, [LParen] + inner);
    AdvanceOver(LParen, inner);
    AdvanceOver(RParen, rest);
  }

  /** The parser accepts every condition of the grammar and computes its meaning. */
  lemma {:induction false} ExprComplete(t: Tree, rest: seq<Token>, env: Environment)
    requires ValidTree(t) && rest != [] && rest[0] != Bad
    ensures ParseExpr(TreeTokens(t) + rest, env) == Ok(Meaning(t, env), rest)
    decreases t
  {
    match t
    case Comparison(left, equal, right) =>
      hide ParseComparison;
      ComparisonComplete(left, equal, right, rest, env);
      assert ParseExpr(TreeTokens(t) + rest, env) == ParseComparison(TreeTokens(t) + rest, env);
    case Group(conj, items) =>
      hide ParseExpr, ParseList;
      var inner := TreesTokens(items) + ([RParen] + rest);
      assert TreeTokens(t) + rest == [if conj then All else Any, LParen] + inner;
      TreesStart(items);
      TreeStart(items.head);
      ListComplete(items, [RParen] + rest, env);
      GroupParses(conj, inner, rest, env);
  }

  lemma {:induction false} ListComplete(ts: Trees, rest: seq<Token>, env: Environment)
    requires ValidTrees(ts) && rest != [] && rest[0] != Bad && rest[0] != Comma
    ensures var p := ParseList(TreesTokens(ts) + rest, env);
            && p.Ok? && p.rest == rest
            && (true in p.value <==> AnyHolds(ts, env)) && (false !in p.value <==> AllHold(ts, env))
    decreases ts
  {
    match ts
    case One(t) => ExprComplete(t, rest, env);
    case More(t, more) =>
      var tail := TreesTokens(more) + rest;
      assert TreesTokens(ts) + rest == TreeTokens(t) + ([Comma] + tail);
      ExprComplete(t, [Comma] + tail, env);
      TreesStart(more);
      TreeStart(more.head);
      AdvanceOver(Comma, tail);
      ListComplete(more, rest, env);
  }

  lemma AdvanceSplits(ts: seq<Token>)
    requires ts != [] && ts[0] != Eol && Advance(ts).Ok?
    ensures ts == [ts[0]] + Advance(ts).rest
  {
  }

  lemma ComparisonShape(ts: seq<Token>, env: Environment)
    requires ts != [] && ParseComparison(ts, env).Ok?
    ensures |ts| > 3 && IsTerm(ts[0]) && IsTerm(ts[2]) && (ts[1] == Eq || ts[1] == Neq)
    ensures ParseComparison(ts, env) == Ok((Value(ts[0], env) == Value(ts[2], env)) == (ts[1] == Eq), ts[3..])
  {
    hide Value;
    var ops := Advance(ts).rest;
    var right := Advance(ops).rest;
    assert ops == ts[1..] && right == ts[2..] && Advance(right).rest == ts[3..];
  }

  lemma GroupShape(ts: seq<Token>, env: Environment)
    requires ts != [] && (ts[0] == Any || ts[0] == All) && ParseExpr(ts, env).Ok?
    ensures |ts| > 2 && ts[1] == LParen && ParseList(ts[2..], env).Ok?
    ensures var close := ParseList(ts[2..], env);
            && close.rest[0] == RParen
            && ParseExpr(ts, env) == Ok(if ts[0] == Any then true in close.value else false !in close.value, close.rest[1..])
  {
    hide ParseList, ParseComparison;
    assert Advance(ts).rest == ts[1..] && Advance(ts[1..]).rest == ts[2..];
  }

  lemma GroupSplits(ts: seq<Token>, inner: seq<Token>, close: seq<Token>)
    requires |ts| > 2 && ts[1] == LParen && ts[2..] == inner + close && close != [] && close[0] == RParen
    ensures ts == [ts[0], LParen] + inner + [RParen] + close[1..]
  {
    assert ts == [ts[0], ts[1]] + ts[2..] && close == [RParen] + close[1..];
  }

  /** Whatever the parser accepts is a condition of the grammar, with that meaning. */
  lemma {:induction false} ExprSound(ts: seq<Token>, env: Environment) returns (t: Tree)
    requires ts != [] && ParseExpr(ts, env).Ok?
    ensures ValidTree(t) && ts == TreeTokens(t) + ParseExpr(ts, env).rest
    ensures ParseExpr(ts, env).value == Meaning(t, env)
    decreases |ts|, 0
  {
    hide ParseExpr, ParseList, ParseComparison, TreesTokens, AnyHolds, AllHold, ValidTrees, Value;
    ExprKinds(ts, env);
    if ts[0].Env? || ts[0].Str? {
      ComparisonShape(ts, env);
      t := Comparison(ts[0], ts[1] == Eq, ts[2]);
      assert ts == [ts[0], ts[1], ts[2]] + ts[3..];
    } else {
      GroupShape(ts, env);
      var items := ListSound(ts[2..], env);
      t := Group(ts[0] == All, items);
      var close := ParseList(ts[2..], env).rest;
      GroupSplits(ts, TreesTokens(items), close);
    }
  }

  lemma ExprKinds(ts: seq<Token>, env: Environment)
    requires ts != [] && ParseExpr(ts, env).Ok?
    ensures if IsTerm(ts[0]) then ParseExpr(ts, env) == ParseComparison(ts, env) else ts[0] == Any || ts[0] == All
  {
    hide ParseList, ParseComparison;
  }

  lemma {:induction false} ListSound(ts: seq<Token>, env: Environment) returns (trees: Trees)
    requires ts != [] && ParseList(ts, env).Ok?
    ensures ValidTrees(trees) && ts == TreesTokens(trees) + ParseList(ts, env).rest
    ensures true in ParseList(ts, env).value <==> AnyHolds(trees, env)
    ensures false !in ParseList(ts, env).value <==> AllHold(trees, env)
    decreases |ts|, 1
  {
    hide ParseExpr, TreeTokens, Meaning, ValidTree, Advance;
    var t := ExprSound(ts, env);
    var rest := ParseExpr(ts, env).rest;
    if rest[0] != Comma {
      trees := One(t);
    } else {
      AdvanceSplits(rest);
      var after := Advance(rest).rest;
      var more := ListSound(after, env);
      trees := More(t, more);
      ListSplits(ts, TreeTokens(t), TreesTokens(more), ParseList(after, env).rest);
    }
  }

  lemma ListSplits(ts: seq<Token>, head: seq<Token>, tail: seq<Token>, end: seq<Token>)
    requires ts == head + ([Comma] + (tail + end))
    ensures ts == head + [Comma] + tail + end
  {
  }

  function LineTokens(t: Tree): seq<Token> {
    OPENING + TreeTokens(t) + CLOSING
  }

  lemma {:induction false} ConsumeAllOver(expected: seq<Token>, rest: seq<Token>)
    requires Eol !in expected && Bad !in expected
    requires rest != [] && rest[0] != Bad
    ensures ConsumeAll(expected + rest, expected) == Ok((), rest)
  {
    if expected == [] {
      assert expected + rest == rest;
    } else {
      var tail := expected[1..] + rest;
      assert expected + rest == [expected[0]] + tail;
      assert tail[0] != Bad;
      AdvanceOver(expected[0], tail);
      ConsumeAllOver(expected[1..], rest);
    }
  }

  lemma {:induction false} ConsumeAllSplits(ts: seq<Token>, expected: seq<Token>)
    requires ts != [] && ConsumeAll(ts, expected).Ok? && Eol !in expected
    ensures ts == expected + ConsumeAll(ts, expected).rest
    decreases |expected|
  {
    hide Advance;
    if expected == [] {
      assert ts == expected + ts;
    } else {
      var rest := Consume(ts, expected[0]).rest;
      AdvanceSplits(ts);
      ConsumeAllSplits(rest, expected[1..]);
      assert ts == [expected[0]] + rest;
      assert expected == [expected[0]] + expected[1..];
    }
  }

  lemma {:induction false} ConsumeAllAppend(ts: seq<Token>, a: seq<Token>, b: seq<Token>)
    requires ts != []
    ensures ConsumeAll(ts, a + b) ==
              match ConsumeAll(ts, a) case Fail => Fail case Ok(_, rest) => ConsumeAll(rest, b)
    decreases |a|
  {
    if a == [] {
      assert a + b == b;
    } else {
      assert (a + b)[1..] == a[1..] + b;
      if Consume(ts, a[0]).Ok? { ConsumeAllAppend(Consume(ts, a[0]).rest, a[1..], b); }
    }
  }

  lemma ClosingShape(ts: seq<Token>)
    requires ts != []
    ensures ConsumeAll(ts, CLOSING).Ok? <==> |ts| >= 3 && ts[..3] == CLOSING
  {
    hide ConsumeAll;
    assert CLOSING == [RParen, RBracket] + [Eol];
    ConsumeAllAppend(ts, [RParen, RBracket], [Eol]);
    if ConsumeAll(ts, [RParen, RBracket]).Ok? {
      ConsumeAllSplits(ts, [RParen, RBracket]);
      ConsumeEol(ConsumeAll(ts, [RParen, RBracket]).rest);
    }
    if |ts| >= 3 && ts[..3] == CLOSING {
      assert ts[0] == CLOSING[0] && ts[1] == CLOSING[1] && ts[2] == CLOSING[2];
      assert ts == [RParen, RBracket] + ts[2..];
      ConsumeAllOver([RParen, RBracket], ts[2..]);
      ConsumeEol(ts[2..]);
    }
  }

  lemma ConsumeEol(ts: seq<Token>)
    requires ts != []
    ensures ConsumeAll(ts, [Eol]).Ok? <==> ts[0] == Eol
  {
    assert [Eol][1..] == [];
  }

  /** The end of the line comes last. */
  ghost predicate Closed(ts: seq<Token>) {
    forall i :: 0 <= i < |ts| - 1 ==> ts[i] != Eol
  }

  lemma {:induction false} LexClosed(s: string)
    ensures Closed(Lex(s))
    decreases |s|
  {
    SkipShorter(s);
    var t := Skip(s);
    if t != [] && Head(t).token != Bad { LexClosed(t[Head(t).length..]); }
  }

  lemma LineComplete(t: Tree, env: Environment)
    requires ValidTree(t)
    ensures ParseLine(LineTokens(t), env) == Some(Meaning(t, env))
  {
    hide ParseExpr, Meaning, TreeTokens, ConsumeAll;
    var inner := TreeTokens(t) + CLOSING;
    assert LineTokens(t) == OPENING + inner;
    TreeStart(t);
    ConsumeAllOver(OPENING, inner);
    ExprComplete(t, CLOSING, env);
    ClosingShape(CLOSING);
  }

  /** A line is accepted with value `v` exactly when its tokens are a condition of the grammar,
      between the fixed opening and closing, whose meaning is `v`. */
  lemma LineExact(ts: seq<Token>, env: Environment, v: bool)
    requires ts != [] && Closed(ts)
    ensures ParseLine(ts, env) == Some(v) <==>
              exists t :: ValidTree(t) && ts == LineTokens(t) && v == Meaning(t, env)
  {
    hide ParseExpr, Meaning, TreeTokens, ConsumeAll, ValidTree;
    if ParseLine(ts, env) == Some(v) {
      var rest := ConsumeAll(ts, OPENING).rest;
      ConsumeAllSplits(ts, OPENING);
      var t := ExprSound(rest, env);
      var after := ParseExpr(rest, env).rest;
      ClosingShape(after);
      var before := OPENING + TreeTokens(t);
      assert ts == before + after;
      assert ts[|before| + 2] == after[2] == CLOSING[2];
      assert after == CLOSING;
    }
    forall t | ValidTree(t) && ts == LineTokens(t) && v == Meaning(t, env)
      ensures ParseLine(ts, env) == Some(v)
    {
      LineComplete(t, env);
    }
  }

  // ---- Printing ----

  function Spelling(t: Token): string {
    match t
    case Hash => "#"
    case Cfg => "cfg"
    case Any => "any"
    case All => "all"
    case LParen => "("
    case RParen => ")"
    case LBracket => "["
    case RBracket => "]"
    case Comma => ","
    case Env(name) => "$" + name
    case Eq => "=="
    case Neq => "!="
    case Str(text) => "\"" + text + "\""
    case Eol => ""
    case Bad => ""
  }

  /** Names are words and strings hold no quote. */
  predicate Printable(t: Token) {
    match t
    case Env(name) => forall i :: 0 <= i < |name| ==> Word(name[i])
    case Str(text) => '"' !in text
    case Eol => false
    case Bad => false
    case _ => true
  }

  ghost predicate Blank(s: string) {
    forall i :: 0 <= i < |s| ==> Space(s[i])
  }

  /** The tokens of a line, each after any amount of white space. */
  function Print(gaps: seq<string>, ts: seq<Token>, end: string): string
    requires |gaps| == |ts|
  {
    if ts == [] then end else gaps[0] + Spelling(ts[0]) + Print(gaps[1..], ts[1..], end)
  }

  /** A name is followed by something that cannot continue it. */
  predicate Delimits(t: Token) {
    t == Eq || t == Neq || t == Comma || t == RParen
  }

  /** Every name in `ts` is followed by a delimiter, the last token by `next`. */
  ghost predicate Separated(ts: seq<Token>, next: Token) {
    forall i :: 0 <= i < |ts| && ts[i].Env? ==> Delimits(Follower(ts, i, next))
  }

  function Follower(ts: seq<Token>, i: nat, next: Token): Token
    requires i < |ts|
  {
    if i + 1 < |ts| then ts[i + 1] else next
  }

  lemma {:induction false} SkipBlank(gap: string, s: string)
    requires Blank(gap)
    ensures Skip(gap + s) == Skip(s)
  {
    if gap == [] {
      assert gap + s == s;
    } else {
      SkipBlank(gap[1..], s);
      assert (gap + s)[1..] == gap[1..] + s;
    }
  }

  lemma {:induction false} WordEnds(name: string, s: string)
    requires (forall i :: 0 <= i < |name| ==> Word(name[i])) && (s == [] || !Word(s[0]))
    ensures WordLength(name + s) == |name|
  {
    if name == [] {
      assert name + s == s;
    } else {
      WordEnds(name[1..], s);
      assert (name + s)[1..] == name[1..] + s;
    }
  }

  lemma {:induction false} TextEnds(text: string, s: string)
    requires '"' !in text && s != [] && s[0] == '"'
    ensures TextLength(text + s) == |text|
  {
    if text == [] {
      assert text + s == s;
    } else {
      TextEnds(text[1..], s);
      assert (text + s)[1..] == text[1..] + s;
    }
  }

  lemma KeywordRead(all: string, t: Token)
    requires (t == Cfg || t == Any || t == All) && Spelling(t) <= all
    ensures Head(all) == Lexeme(t, 3) && !Space(all[0])
  {
    hide WordLength, TextLength;
    var word := Spelling(t);
    assert all[0] == word[0] && all[1] == word[1] && all[2] == word[2];
    assert "any"[1] == 'n' && "all"[1] == 'l';
  }

  lemma SymbolRead(all: string, t: Token)
    requires t in {Hash, LParen, RParen, LBracket, RBracket, Comma} && Spelling(t) <= all
    ensures Head(all) == Lexeme(t, 1) && !Space(all[0])
  {
    hide WordLength, TextLength;
    assert all[0] == Spelling(t)[0];
  }

  lemma OperatorRead(all: string, t: Token)
    requires (t == Eq || t == Neq) && Spelling(t) <= all
    ensures Head(all) == Lexeme(t, 2) && !Space(all[0])
  {
    hide WordLength, TextLength;
    assert all[0] == Spelling(t)[0];
  }

  lemma NameRead(name: string, s: string)
    requires Printable(Env(name)) && (s == [] || !Word(s[0]))
    ensures Head("$" + name + s) == Lexeme(Env(name), 1 + |name|)
  {
    hide WordLength, TextLength;
    var all := "$" + name + s;
    WordEnds(name, s);
    assert all[0] == '$' && all[1..] == name + s && all[1..1 + |name|] == name;
  }

  lemma TextRead(text: string, s: string)
    requires Printable(Str(text))
    ensures Head("\"" + text + "\"" + s) == Lexeme(Str(text), 2 + |text|)
  {
    hide WordLength, TextLength;
    var all := "\"" + text + "\"" + s;
    TextEnds(text, "\"" + s);
    assert all[0] == '"' && all[1..] == text + ("\"" + s) && all[1..1 + |text|] == text;
  }

  /** A spelled token is read back, whatever follows it. */
  lemma HeadSpelled(t: Token, s: string)
    requires Printable(t) && (t.Env? ==> s == [] || !Word(s[0]))
    ensures Spelling(t) + s != [] && Head(Spelling(t) + s) == Lexeme(t, |Spelling(t)|) && !Space((Spelling(t) + s)[0])
  {
    hide Head, Word;
    var all := Spelling(t) + s;
    match t
    case Env(name) => NameRead(name, s);
    case Str(text) => TextRead(text, s);
    case Cfg => KeywordRead(all, t);
    case Any => KeywordRead(all, t);
    case All => KeywordRead(all, t);
    case Eq => OperatorRead(all, t);
    case Neq => OperatorRead(all, t);
    case _ => SymbolRead(all, t);
  }

  lemma DelimiterStarts(t: Token)
    requires Delimits(t)
    ensures Spelling(t) != [] && !Word(Spelling(t)[0])
  {
  }

  lemma BlankStarts(s: string)
    requires Blank(s) && s != []
    ensures !Word(s[0])
  {
  }

  lemma NameEnds(gaps: seq<string>, ts: seq<Token>, end: string)
    requires |gaps| == |ts| && (forall i :: 0 <= i < |gaps| ==> Blank(gaps[i])) && Blank(end)
    requires ts != [] ==> Delimits(ts[0])
    ensures var s := Print(gaps, ts, end); s == [] || !Word(s[0])
  {
    hide Spelling, Word, Blank, Delimits;
    if ts == [] {
      if end != [] { BlankStarts(end); }
    } else {
      DelimiterStarts(ts[0]);
      if gaps[0] != [] { BlankStarts(gaps[0]); }
    }
  }

  /** Lexing undoes printing, whatever the white space. */
  lemma {:induction false} LexPrint(gaps: seq<string>, ts: seq<Token>, end: string, next: Token)
    requires |gaps| == |ts| && (forall i :: 0 <= i < |gaps| ==> Blank(gaps[i])) && Blank(end)
    requires (forall i :: 0 <= i < |ts| ==> Printable(ts[i])) && Separated(ts, next)
    ensures Lex(Print(gaps, ts, end)) == ts + [Eol]
    decreases |ts|
  {
    hide Head, Spelling, Printable, Blank, Word, Lex, Print, Skip, Delimits;
    PrintStep(gaps, ts, end);
    LexStep(Print(gaps, ts, end));
    if ts == [] {
      SkipBlank(end, []);
      assert end + [] == end;
      SkipNothing();
    } else {
      var rest := Print(gaps[1..], ts[1..], end);
      var s := Spelling(ts[0]) + rest;
      SkipBlank(gaps[0], s);
      SeparatedTail(ts, next);
      if ts[0].Env? {
        assert ts[1..] != [] ==> ts[1..][0] == Follower(ts, 0, next);
        NameEnds(gaps[1..], ts[1..], end);
      }
      HeadSpelled(ts[0], rest);
      SkipStops(s);
      assert s[|Spelling(ts[0])|..] == rest;
      LexPrint(gaps[1..], ts[1..], end, next);
      PrintableIs(ts[0]);
    }
  }

  lemma PrintStep(gaps: seq<string>, ts: seq<Token>, end: string)
    requires |gaps| == |ts|
    ensures Print(gaps, ts, end) == if ts == [] then end else gaps[0] + (Spelling(ts[0]) + Print(gaps[1..], ts[1..], end))
  {
    hide Spelling;
    if ts != [] { assert gaps[0] + (Spelling(ts[0]) + Print(gaps[1..], ts[1..], end)) == Print(gaps, ts, end); }
  }

  lemma SkipNothing()
    ensures Skip([]) == []
  {
  }

  lemma SkipStops(s: string)
    requires s != [] && !Space(s[0])
    ensures Skip(s) == s
  {
  }

  lemma SeparatedTail(ts: seq<Token>, next: Token)
    requires ts != [] && Separated(ts, next)
    ensures Separated(ts[1..], next)
  {
    hide Delimits;
    forall i | 0 <= i < |ts[1..]| && ts[1..][i].Env? ensures Delimits(Follower(ts[1..], i, next)) {
      assert ts[i + 1].Env? && Follower(ts, i + 1, next) == Follower(ts[1..], i, next);
    }
  }

  lemma PrintableIs(t: Token)
    requires Printable(t)
    ensures t != Bad && t != Eol
  {
  }

  ghost predicate PrintableTree(t: Tree) {
    ValidTree(t) && forall x :: x in TreeTokens(t) ==> Printable(x)
  }

  lemma SeparatedAppend(a: seq<Token>, b: seq<Token>, next: Token)
    requires b != [] && Separated(a, b[0]) && Separated(b, next)
    ensures Separated(a + b, next)
  {
    forall i | 0 <= i < |a + b| && (a + b)[i].Env?
      ensures Delimits(Follower(a + b, i, next))
    {
      if i < |a| {
        assert a[i].Env? && Follower(a + b, i, next) == Follower(a, i, b[0]);
      } else {
        assert b[i - |a|].Env? && Follower(a + b, i, next) == Follower(b, i - |a|, next);
      }
    }
  }

  lemma {:induction false} TreeSeparated(t: Tree, next: Token)
    requires ValidTree(t) && Delimits(next)
    ensures Separated(TreeTokens(t), next)
    decreases t
  {
    match t
    case Comparison(_, _, _) =>
    case Group(all, items) =>
      TreesSeparated(items, RParen);
      SeparatedAppend(TreesTokens(items), [RParen], next);
      SeparatedAppend([if all then All else Any, LParen], TreesTokens(items) + [RParen], next);
      assert TreeTokens(t) == [if all then All else Any, LParen] + (TreesTokens(items) + [RParen]);
  }

  lemma {:induction false} TreesSeparated(ts: Trees, next: Token)
    requires ValidTrees(ts) && Delimits(next)
    ensures Separated(TreesTokens(ts), next)
    decreases ts
  {
    match ts
    case One(t) => TreeSeparated(t, next);
    case More(t, rest) =>
      TreeSeparated(t, Comma);
      TreesSeparated(rest, next);
      SeparatedAppend([Comma], TreesTokens(rest), next);
      SeparatedAppend(TreeTokens(t), [Comma] + TreesTokens(rest), next);
      assert TreesTokens(ts) == TreeTokens(t) + ([Comma] + TreesTokens(rest));
  }

  /** The visible tokens of a directive. */
  function Directive(t: Tree): seq<Token> {
    OPENING + TreeTokens(t) + [RParen, RBracket]
  }

  /** The evaluator: lex, then parse and evaluate. */
  function Eval(s: string, env: Environment): Option<bool> {
    ParseLine(Lex(s), env)
  }

  /** Any printing of a condition, with any white space between tokens, is accepted and evaluates to
      the condition's meaning. */
  lemma PrintedConditionEvaluates(t: Tree, gaps: seq<string>, end: string, env: Environment)
    requires PrintableTree(t) && |gaps| == |Directive(t)|
    requires (forall i :: 0 <= i < |gaps| ==> Blank(gaps[i])) && Blank(end)
    ensures Eval(Print(gaps, Directive(t), end), env) == Some(Meaning(t, env))
  {
    hide Lex, ParseLine, Print, Meaning, TreeTokens, Printable, Blank, ValidTree;
    var ts := Directive(t);
    DirectivePrintable(t);
    LexPrint(gaps, ts, end, Comma);
    assert ts + [Eol] == LineTokens(t);
    LineComplete(t, env);
  }

  lemma DirectivePrintable(t: Tree)
    requires PrintableTree(t)
    ensures forall i :: 0 <= i < |Directive(t)| ==> Printable(Directive(t)[i])
    ensures Separated(Directive(t), Comma)
  {
    hide TreeTokens, ValidTree;
    TreeSeparated(t, RParen);
    SeparatedAppend(TreeTokens(t), [RParen, RBracket], Comma);
    SeparatedAppend(OPENING, TreeTokens(t) + [RParen, RBracket], Comma);
    assert Directive(t) == OPENING + (TreeTokens(t) + [RParen, RBracket]);
    forall i | 0 <= i < |Directive(t)|
      ensures Printable(Directive(t)[i])
    {
      assert Directive(t)[i] in OPENING || Directive(t)[i] in TreeTokens(t) || Directive(t)[i] in [RParen, RBracket];
    }
  }

  // ---- What conditions mean, in plain terms ----

  /** A comparison holds exactly when the two sides are equal, or differ for `!=`; an unset variable
      equals another unset variable and no string, not even the empty one. */
  lemma ComparisonMeaning(x: string, y: string, s: string, t: string, env: Environment)
    ensures Meaning(Comparison(Str(s), true, Str(t)), env) <==> s == t
    ensures Meaning(Comparison(Env(x), true, Str(s)), env) <==> x in env && env[x] == s
    ensures Meaning(Comparison(Str(s), true, Env(x)), env) <==> x in env && env[x] == s
    ensures Meaning(Comparison(Env(x), true, Env(y)), env) <==>
              if x in env then y in env && env[x] == env[y] else y !in env
    ensures forall l, r :: IsTerm(l) && IsTerm(r) ==>
              (Meaning(Comparison(l, false, r), env) <==> !Meaning(Comparison(l, true, r), env))
  {
  }

  function Items(ts: Trees): seq<Tree> {
    if ts.One? then [ts.head] else [ts.head] + Items(ts.tail)
  }

  lemma {:induction false} ItemsValid(ts: Trees)
    requires ValidTrees(ts)
    ensures forall i :: 0 <= i < |Items(ts)| ==> ValidTree(Items(ts)[i])
  {
    hide ValidTree;
    if ts.More? { ItemsValid(ts.tail); }
  }

  /** `all` holds exactly when every item does, and `any` when some item does. */
  lemma {:induction false} GroupMeaning(ts: Trees, env: Environment)
    requires ValidTrees(ts)
    ensures forall i :: 0 <= i < |Items(ts)| ==> ValidTree(Items(ts)[i])
    ensures Meaning(Group(true, ts), env) <==> forall i :: 0 <= i < |Items(ts)| ==> Meaning(Items(ts)[i], env)
    ensures Meaning(Group(false, ts), env) <==> exists i :: 0 <= i < |Items(ts)| && Meaning(Items(ts)[i], env)
    decreases ts
  {
    ItemsValid(ts);
    var items := Items(ts);
    if ts.More? {
      GroupMeaning(ts.tail, env);
      var rest := Items(ts.tail);
      assert items[0] == ts.head && forall i :: 0 <= i < |rest| ==> items[i + 1] == rest[i];
      assert forall i :: 0 < i < |items| ==> items[i] == rest[i - 1];
    } else {
      assert items[0] == ts.head;
    }
  }

  /** The words and signs of the language. */
  lemma Spellings(s: string)
    ensures Head("#" + s) == Lexeme(Hash, 1) && Head("cfg" + s) == Lexeme(Cfg, 3)
    ensures Head("any" + s) == Lexeme(Any, 3) && Head("all" + s) == Lexeme(All, 3)
    ensures Head("(" + s) == Lexeme(LParen, 1) && Head(")" + s) == Lexeme(RParen, 1)
    ensures Head("[" + s) == Lexeme(LBracket, 1) && Head("]" + s) == Lexeme(RBracket, 1)
    ensures Head("," + s) == Lexeme(Comma, 1) && Head("==" + s) == Lexeme(Eq, 2) && Head("!=" + s) == Lexeme(Neq, 2)
  {
    hide Head;
    HeadSpelled(Hash, s);
    HeadSpelled(Cfg, s);
    HeadSpelled(Any, s);
    HeadSpelled(All, s);
    HeadSpelled(LParen, s);
    HeadSpelled(RParen, s);
    HeadSpelled(LBracket, s);
    HeadSpelled(RBracket, s);
    HeadSpelled(Comma, s);
    HeadSpelled(Eq, s);
    HeadSpelled(Neq, s);
  }

  /** The characters of a name, digits, letters and the underscore, and those that are skipped. */
  lemma Characters(c: char)
    ensures var u := c as int; Word(c) <==> 48 <= u <= 57 || 65 <= u <= 90 || 97 <= u <= 122 || u == 95
    ensures Space(c) <==> c as int <= 32
  {
  }

  /** A line evaluates to `v` exactly when its tokens are a directive whose condition means `v`. */
  lemma EvalExact(s: string, env: Environment, v: bool)
    ensures Eval(s, env) == Some(v) <==>
              exists t :: ValidTree(t) && Lex(s) == LineTokens(t) && v == Meaning(t, env)
  {
    hide Lex, ParseLine, Meaning, ValidTree, LineTokens;
    LexClosed(s);
    LineExact(Lex(s), env, v);
  }
}
