/** The expression part of the compiler's recursive-descent parser (compiler/src/parser.c): one tier of
    left-associative operators for each level of precedence, and a limit on nested expressions. */
module CpExprParser {
  import opened CpLexer
  import opened EditDistance

  const MAX_PARSE_DEPTH: nat := 256

  datatype Expr =
    | Number(n: int)
    | FloatNumber(text: string)
    | Text(s: string)
    | Boolean(b: bool)
    | Name(path: string)
    | Call(callee: string, args: seq<Expr>)
    | Unary(op: string, operand: Expr)
    | Binary(op: string, left: Expr, right: Expr)

  /** A token list as the lexer returns it: closed by an end-of-file token, and containing only that one. */
  predicate Terminated(ts: seq<Token>) {
    ts != [] && ts[|ts| - 1] == EndOfFile && forall i :: 0 <= i < |ts| - 1 ==> ts[i] != EndOfFile
  }

  // ----- Operators by tier -----

  const TIERS: nat := 6

  predicate InTier(t: Token, tier: nat) {
    t.Sym? &&
    if tier == 0 then t.sym == "||"
    else if tier == 1 then t.sym == "&&"
    else if tier == 2 then t.sym == "==" || t.sym == "!="
    else if tier == 3 then t.sym == "<" || t.sym == "<=" || t.sym == ">" || t.sym == ">="
    else if tier == 4 then t.sym == "+" || t.sym == "-"
    else tier == 5 && (t.sym == "*" || t.sym == "/" || t.sym == "%")
  }

  // ----- Which calls are accepted -----

  const BUILTINS: seq<string> := ["print", "prints", "window.create", "audio.play", "text.create"]

  predicate IsFunctionAt(ts: seq<Token>, i: nat) {
    i + 1 < |ts| && ts[i] == Word("func") && ts[i + 1].Ident?
  }

  /** The functions declared anywhere in the token list, from position i on. */
  function DeclaredFrom(ts: seq<Token>, i: nat): seq<string>
    requires i <= |ts|
    decreases |ts| - i
  {
    if i == |ts| then []
    else (if IsFunctionAt(ts, i) then [ts[i + 1].name] else []) + DeclaredFrom(ts, i + 1)
  }

  function Without(words: seq<string>, name: string): seq<string> {
    if words == [] then [] else (if words[0] == name then [] else [words[0]]) + Without(words[1..], name)
  }

  /** A call of an unknown name is refused when it looks like a misspelling of a known one. */
  predicate CallAccepted(ts: seq<Token>, path: string) {
    var declared := DeclaredFrom(ts, 0);
    var hint := ClosestIn(path, BUILTINS + EditDistance.KEYWORDS + Without(declared, path), NoHint);
    || path in BUILTINS || path in declared || |path| < 3
    || hint.NoHint? || |hint.word| < 3
    || Distance(Cut(path), Cut(hint.word)) > (if |path| <= 4 then 1 else 2)
  }

  // ----- The parser as functions: what stands at i, and where the cursor is left -----

  /** A failure tells where the cursor stops and whether an error message was set. */
  datatype Parsed = Failed(next: nat, err: bool) | Parsed(e: Expr, next: nat)
  datatype ParsedPath = NoPath(next: nat) | Path(path: string, next: nat)
  datatype ParsedArgs = BadArgs(next: nat, err: bool) | Args(args: seq<Expr>, next: nat)

  /** parse_identifier_path; a token list without end-of-file inside never ends early. */
  function ParsePath(ts: seq<Token>, i: nat): (r: ParsedPath)
    requires Terminated(ts) && i < |ts|
    ensures i <= r.next < |ts| && (r.Path? ==> i < r.next)
    decreases |ts| - i
  {
    if !ts[i].Ident? then NoPath(i)
    else if ts[i + 1] != Sym(".") then Path(ts[i].name, i + 1)
    else
      match ParsePath(ts, i + 2)
      case NoPath(at) => NoPath(at)
      case Path(rest, next) => Path(ts[i].name + "." + rest, next)
  }

  /** parse_audio_play_config_args, from the opening brace: the src property becomes the only argument. */
  function ParseConfig(ts: seq<Token>, i: nat, src: Option<string>): (r: ParsedArgs)
    requires Terminated(ts) && i < |ts|
    ensures i <= r.next < |ts| && (r.BadArgs? ==> !r.err)
    decreases |ts| - i
  {
    if ts[i] == Sym("}") then
      if src.Some? then Args([Text(src.value)], i + 1) else BadArgs(i + 1, false)
    else if !ts[i].Ident? then BadArgs(i, false)
    else if ts[i + 1] != Sym(":") then BadArgs(i + 1, false)
    else
      var v := ts[i + 2];
      var isSrc := ts[i].name == "src";
      if (isSrc && !v.StrLit?) || !(v.StrLit? || v.Num? || v.FloatLit? || v.BoolLit?) then BadArgs(i + 2, false)
      else
        var src1 := if isSrc then Some(v.s) else src;
        if ts[i + 3] == Sym(",") then ParseConfig(ts, i + 4, src1)
        else if ts[i + 3] != Sym("}") then BadArgs(i + 3, false)
        else if src1.Some? then Args([Text(src1.value)], i + 4)
        else BadArgs(i + 4, false)
  }

  function ParseExpr(ts: seq<Token>, i: nat, d: nat): (r: Parsed)
    requires Terminated(ts) && i < |ts|
    ensures i <= r.next < |ts| && (r.Parsed? ==> i < r.next)
    decreases |ts| - i, 12
  {
    if d >= MAX_PARSE_DEPTH then Failed(i, true) else ParseTier(ts, i, d + 1, 0)
  }

  /** parse_logic_or down to parse_factor: an operand of the next tier, then operators of this one. */
  function ParseTier(ts: seq<Token>, i: nat, d: nat, tier: nat): (r: Parsed)
    requires Terminated(ts) && i < |ts| && tier <= TIERS
    ensures i <= r.next < |ts| && (r.Parsed? ==> i < r.next)
    decreases |ts| - i, 10 - tier
  {
    if tier == TIERS then ParseUnary(ts, i, d)
    else
      match ParseTier(ts, i, d, tier + 1)
      case Failed(at, err) => Failed(at, err)
      case Parsed(left, next) => ParseTierRest(ts, next, d, tier, left)
  }

  function ParseTierRest(ts: seq<Token>, i: nat, d: nat, tier: nat, left: Expr): (r: Parsed)
    requires Terminated(ts) && i < |ts| && tier < TIERS
    ensures i <= r.next < |ts|
    decreases |ts| - i, 11
  {
    if !InTier(ts[i], tier) then Parsed(left, i)
    else
      match ParseTier(ts, i + 1, d, tier + 1)
      case Failed(at, err) => Failed(at, err)
      case Parsed(right, next) => ParseTierRest(ts, next, d, tier, Binary(ts[i].sym, left, right))
  }

  function ParseUnary(ts: seq<Token>, i: nat, d: nat): (r: Parsed)
    requires Terminated(ts) && i < |ts|
    ensures i <= r.next < |ts| && (r.Parsed? ==> i < r.next)
    decreases |ts| - i, 3
  {
    if ts[i] == Sym("-") || ts[i] == Sym("!") then
      match ParseUnary(ts, i + 1, d)
      case Failed(at, err) => Failed(at, err)
      case Parsed(e, next) => Parsed(Unary(ts[i].sym, e), next)
    else ParsePrimary(ts, i, d)
  }

  function ParsePrimary(ts: seq<Token>, i: nat, d: nat): (r: Parsed)
    requires Terminated(ts) && i < |ts|
    ensures i <= r.next < |ts| && (r.Parsed? ==> i < r.next)
    decreases |ts| - i, 2
  {
    var t := ts[i];
    if t.Num? then Parsed(Number(t.n), i + 1)
    else if t.FloatLit? then Parsed(FloatNumber(t.text), i + 1)
    else if t.StrLit? then Parsed(Text(t.s), i + 1)
    else if t.BoolLit? then Parsed(Boolean(t.b), i + 1)
    else if t.Ident? then
      match ParsePath(ts, i)
      case NoPath(at) => Failed(at, false)
      case Path(path, next) => if ts[next] == Sym("(") then ParseCall(ts, next + 1, d, path) else Parsed(Name(path), next)
    else if t == Sym("(") then
      match ParseExpr(ts, i + 1, d)
      case Failed(at, err) => Failed(at, err)
      case Parsed(e, next) => if ts[next] == Sym(")") then Parsed(e, next + 1) else Failed(next, false)
    else Failed(i, false)
  }

  /** Behind the opening parenthesis of a call. */
  function ParseCall(ts: seq<Token>, i: nat, d: nat, path: string): (r: Parsed)
    requires Terminated(ts) && i < |ts|
    ensures i <= r.next < |ts| && (r.Parsed? ==> i < r.next)
    decreases |ts| - i, 15
  {
    if CallAccepted(ts, path) then FinishCall(ts, path, ParseArguments(ts, i, d, path)) else Failed(i, true)
  }

  function FinishCall(ts: seq<Token>, path: string, a: ParsedArgs): (r: Parsed)
    requires Terminated(ts) && a.next < |ts|
    ensures a.next <= r.next < |ts|
    ensures r.Parsed? ==> a.Args? && r.next == a.next + 1
  {
    match a
    case BadArgs(at, err) => Failed(at, err)
    case Args(args, next) => if ts[next] == Sym(")") then Parsed(Call(path, args), next + 1) else Failed(next, false)
  }

  function ParseArguments(ts: seq<Token>, i: nat, d: nat, path: string): (r: ParsedArgs)
    requires Terminated(ts) && i < |ts|
    ensures i <= r.next < |ts|
    decreases |ts| - i, 14
  {
    if path == "audio.play" && ts[i] == Sym("{") then ParseConfig(ts, i + 1, None)
    else if ts[i] == Sym(")") then Args([], i)
    else ParseArgs(ts, i, d)
  }

  function ParseArgs(ts: seq<Token>, i: nat, d: nat): (r: ParsedArgs)
    requires Terminated(ts) && i < |ts|
    ensures i <= r.next < |ts|
    decreases |ts| - i, 13
  {
    match ParseExpr(ts, i, d)
    case Failed(at, err) => BadArgs(at, err)
    case Parsed(e, next) =>
      if ts[next] != Sym(",") then Args([e], next)
      else
        match ParseArgs(ts, next + 1, d)
        case BadArgs(at, err) => BadArgs(at, err)
        case Args(rest, end) => Args([e] + rest, end)
  }

  // ----- The parser in its own form -----

  class Parser {
    const tokens: seq<Token>
    var current: nat
    var depth: nat
    var error: bool

    ghost predicate Valid()
      reads this
    {
      Terminated(tokens) && current < |tokens| && depth <= MAX_PARSE_DEPTH
    }

    constructor (tokens: seq<Token>)
      requires Terminated(tokens)
      ensures Valid() && this.tokens == tokens && current == 0 && depth == 0 && !error
    {
      this.tokens := tokens;
      current, depth, error := 0, 0, false;
    }

    method Check(t: Token) returns (found: bool)
      requires Valid()
      ensures found == (tokens[current] == t)
    {
      found := tokens[current] == t;
    }

    /** advance_tok never passes the end-of-file token. */
    method Advance() returns (t: Token)
      requires Valid()
      modifies this`current
      ensures Valid() && t == old(tokens[current])
      ensures current == if t == EndOfFile then old(current) else old(current) + 1
    {
      t := tokens[current];
      if t != EndOfFile { current := current + 1; }
    }

    method Match(t: Token) returns (found: bool)
      requires Valid() && t != EndOfFile
      modifies this`current
      ensures Valid() && found == (tokens[old(current)] == t)
      ensures current == if found then old(current) + 1 else old(current)
    {
      found := tokens[current] == t;
      if found { current := current + 1; }
    }

    /** What a method returns, where it leaves the cursor and what becomes of the error flag, all as the function
        says; an error once set stays set. */
    ghost predicate Agrees(before: bool, ok: bool, e: Expr, r: Parsed)
      reads this
    {
      ok == r.Parsed? && (ok ==> e == r.e) && current == r.next && error == (before || (r.Failed? && r.err))
    }

    method PathHere() returns (ok: bool, path: string)
      requires Valid()
      modifies this`current
      ensures Valid()
      ensures var r := ParsePath(tokens, old(current)); ok == r.Path? && (ok ==> path == r.path) && current == r.next
    {
      path := "";
      ok := tokens[current].Ident?;
      if !ok { return; }
      while true
        invariant Valid() && tokens[current].Ident?
        invariant ParsePath(tokens, old(current)) == PathBehind(path, ParsePath(tokens, current))
        decreases |tokens| - current
      {
        var t := Advance();
        ghost var before := path;
        path := path + t.name;
        var dot := Match(Sym("."));
        if !dot { return true, path; }
        if !tokens[current].Ident? { return false, path; }
        ghost var rest := ParsePath(tokens, current);
        if rest.Path? { assert before + (t.name + "." + rest.path) == (before + t.name + ".") + rest.path; }
        path := path + ".";
      }
    }

    /** parse_expression */
    method Expression() returns (ok: bool, e: Expr)
      requires Valid()
      modifies this
      ensures Valid() && depth == old(depth) && Agrees(old(error), ok, e, ParseExpr(tokens, old(current), old(depth)))
      decreases |tokens| - current, 12
    {
      hide ParseTier;
      if depth >= MAX_PARSE_DEPTH {
        error := true;
        return false, Number(0);
      }
      depth := depth + 1;
      ok, e := Tier(0);
      depth := depth - 1;
    }

    method Tier(tier: nat) returns (ok: bool, e: Expr)
      requires Valid() && tier <= TIERS
      modifies this
      ensures Valid() && depth == old(depth) && Agrees(old(error), ok, e, ParseTier(tokens, old(current), old(depth), tier))
      decreases |tokens| - current, 10 - tier
    {
      hide ParseUnary;
      if tier == TIERS {
        ok, e := Operand();
      } else {
        ok, e := Tier(tier + 1);
        if ok { ok, e := TierRest(tier, e); }
      }
    }

    /** The loop of a tier. */
    method TierRest(tier: nat, left: Expr) returns (ok: bool, e: Expr)
      requires Valid() && tier < TIERS
      modifies this
      ensures Valid() && depth == old(depth) && Agrees(old(error), ok, e, ParseTierRest(tokens, old(current), old(depth), tier, left))
      decreases |tokens| - current, 11
    {
      hide ParseTier;
      e := left;
      while InTier(tokens[current], tier)
        invariant Valid() && depth == old(depth) && current >= old(current) && error == old(error)
        invariant ParseTierRest(tokens, current, depth, tier, e) == ParseTierRest(tokens, old(current), old(depth), tier, left)
        decreases |tokens| - current
      {
        var op := Advance();
        var right;
        ok, right := Tier(tier + 1);
        if !ok { return; }
        e := Binary(op.sym, e, right);
      }
      ok := true;
    }

    /** parse_unary */
    method Operand() returns (ok: bool, e: Expr)
      requires Valid()
      modifies this
      ensures Valid() && depth == old(depth) && Agrees(old(error), ok, e, ParseUnary(tokens, old(current), old(depth)))
      decreases |tokens| - current, 3
    {
      hide ParsePrimary;
      if tokens[current] == Sym("-") || tokens[current] == Sym("!") {
        var op := Advance();
        ok, e := Operand();
        if ok { e := Unary(op.sym, e); }
      } else {
        ok, e := Primary();
      }
    }

    method Primary() returns (ok: bool, e: Expr)
      requires Valid()
      modifies this
      ensures Valid() && depth == old(depth) && Agrees(old(error), ok, e, ParsePrimary(tokens, old(current), old(depth)))
      decreases |tokens| - current, 2
    {
      hide ParseExpr, ParseCall, ParsePath;
      var t := tokens[current];
      ok, e := true, Number(0);
      if t.Num? || t.FloatLit? || t.StrLit? || t.BoolLit? {
        t := Advance();
        e := if t.Num? then Number(t.n) else if t.FloatLit? then FloatNumber(t.text)
             else if t.StrLit? then Text(t.s) else Boolean(t.b);
      } else if t.Ident? {
        var path;
        ok, path := PathHere();
        if ok {
          var call := Match(Sym("("));
          if call { ok, e := CallHere(path); } else { e := Name(path); }
        }
      } else if t == Sym("(") {
        t := Advance();
        ok, e := Expression();
        if ok { ok := Match(Sym(")")); }
      } else {
        ok := false;
      }
    }

    method CallHere(path: string) returns (ok: bool, e: Expr)
      requires Valid()
      modifies this
      ensures Valid() && depth == old(depth) && Agrees(old(error), ok, e, ParseCall(tokens, old(current), old(depth), path))
      decreases |tokens| - current, 15
    {
      hide ParseArgs, ParseConfig, CallAccepted;
      e := Number(0);
      ok := Accepts(path);
      if !ok {
        error := true;
        return;
      }
      var args := [];
      if path == "audio.play" && tokens[current] == Sym("{") {
        var brace := Advance();
        ok, args := Config();
      } else if tokens[current] != Sym(")") {
        ok, args := Arguments();
      }
      if ok {
        ok := Match(Sym(")"));
        e := Call(path, args);
      }
    }

    /** The check for misspelled names. */
    method Accepts(path: string) returns (ok: bool)
      requires Valid()
      ensures ok == CallAccepted(tokens, path)
    {
      var declared := Declared();
      if path in BUILTINS || path in declared || |path| < 3 { return true; }
      hide Distance, Cut, DeclaredFrom, ClosestIn;
      var words := BUILTINS + EditDistance.KEYWORDS + Without(declared, path);
      var hint := FindClosest(path, words);
      if hint.NoHint? || |hint.word| < 3 { return true; }
      var d := MinEditDistance(path, hint.word);
      ok := d > (if |path| <= 4 then 1 else 2);
    }

    method Declared() returns (names: seq<string>)
      requires Valid()
      ensures names == DeclaredFrom(tokens, 0)
    {
      names := [];
      var i := 0;
      while i < |tokens|
        invariant i <= |tokens| && names + DeclaredFrom(tokens, i) == DeclaredFrom(tokens, 0)
      {
        ghost var rest := DeclaredFrom(tokens, i + 1);
        if IsFunctionAt(tokens, i) {
          assert names + ([tokens[i + 1].name] + rest) == (names + [tokens[i + 1].name]) + rest;
          names := names + [tokens[i + 1].name];
        } else {
          assert [] + rest == rest;
        }
        i := i + 1;
      }
      assert names + [] == names;
    }

    method Config() returns (ok: bool, args: seq<Expr>)
      requires Valid()
      modifies this`current
      ensures Valid()
      ensures var r := ParseConfig(tokens, old(current), None); ok == r.Args? && (ok ==> args == r.args) && current == r.next
    {
      var src: Option<string> := None;
      args := [];
      while tokens[current] != Sym("}")
        invariant Valid() && ParseConfig(tokens, current, src) == ParseConfig(tokens, old(current), None)
        decreases |tokens| - current
      {
        if !tokens[current].Ident? { return false, args; }
        var property := Advance();
        var colon := Match(Sym(":"));
        if !colon { return false, args; }
        var v := tokens[current];
        if property.name == "src" && !v.StrLit? { return false, args; }
        if !(v.StrLit? || v.Num? || v.FloatLit? || v.BoolLit?) { return false, args; }
        if property.name == "src" { src := Some(v.s); }
        v := Advance();
        var comma := Match(Sym(","));
        if !comma {
          if tokens[current] != Sym("}") { return false, args; }
          v := Advance();
          if src.None? { return false, args; }
          return true, [Text(src.value)];
        }
      }
      var brace := Advance();
      if src.None? { return false, args; }
      return true, [Text(src.value)];
    }

    method Arguments() returns (ok: bool, args: seq<Expr>)
      requires Valid()
      modifies this
      ensures Valid() && depth == old(depth)
      ensures var r := ParseArgs(tokens, old(current), old(depth));
        ok == r.Args? && (ok ==> args == r.args) && current == r.next
          && error == (old(error) || (r.BadArgs? && r.err))
      decreases |tokens| - current, 13
    {
      hide ParseExpr;
      args := [];
      while true
        invariant Valid() && depth == old(depth) && current >= old(current) && error == old(error)
        invariant ParseArgs(tokens, old(current), depth) == ArgsBehind(args, ParseArgs(tokens, current, depth))
        decreases |tokens| - current
      {
        ghost var before := args;
        var e;
        ok, e := Expression();
        if !ok { return; }
        args := args + [e];
        var comma := Match(Sym(","));
        if !comma { return; }
        ghost var rest := ParseArgs(tokens, current, depth);
        if rest.Args? { assert before + ([e] + rest.args) == args + rest.args; }
      }
    }
  }

  ghost function PathBehind(path: string, rest: ParsedPath): ParsedPath {
    if rest.Path? then Path(path + rest.path, rest.next) else rest
  }

  ghost function ArgsBehind(args: seq<Expr>, rest: ParsedArgs): ParsedArgs {
    if rest.Args? then Args(args + rest.args, rest.next) else rest
  }
}
