/** The expression printer of the C back end (compiler/src/codegen.c, gen_expr): it parenthesises every
    operation, and lexing and parsing what it writes gives the tree back. */
module CpPrinter {
  import opened CpLexer
  import opened CpExprParser
  import opened CpTexts

  // ----- Printing -----

  function Digit(d: nat): (c: char)
    requires d < 10
    ensures IsDigit(c) && DigitValue(c) == d
  {
    ('0' as int + d) as char
  }

  function Digits(n: nat): (r: string)
    ensures r != "" && forall i :: 0 <= i < |r| ==> IsDigit(r[i])
  {
    if n < 10 then [Digit(n)] else Digits(n / 10) + [Digit(n % 10)]
  }

  /** %d */
  function IntText(n: int): string { if n < 0 then "-" + Digits(-n) else Digits(n) }

  function EscapeOne(c: char): string {
    if c == '\\' then "\\\\" else if c == '"' then "\\\"" else if c == '\n' then "\\n"
    else if c == '\r' then "\\r" else if c == '\t' then "\\t" else [c]
  }

  /** escape_c_string between its quotes */
  function Escape(s: string): string {
    if s == "" then "" else EscapeOne(s[0]) + Escape(s[1..])
  }

  /** gen_expr; None is its error for an operator it does not know.  The text of a float is a parameter. */
  function Print(floatText: string -> string, e: Expr): Option<string>
    decreases e
  {
    match e
    case Number(n) => Some(IntText(n))
    case FloatNumber(f) => Some(floatText(f))
    case Boolean(b) => Some(if b then "1" else "0")
    case Text(s) => Some("\"" + Escape(s) + "\"")
    case Name(path) => Some(path)
    case Binary(op, left, right) =>
      (match (Print(floatText, left), Print(floatText, right))
       case (Some(l), Some(r)) => if IsOp(op) then Some("(" + l + " " + op + " " + r + ")") else None
       case _ => None)
    case Call(callee, args) =>
      (match PrintArgs(floatText, args)
       case Some(a) => Some(callee + "(" + a + ")")
       case None => None)
    case Unary(op, operand) =>
      match Print(floatText, operand)
      case Some(x) => if op == "-" || op == "!" then Some("(" + op + x + ")") else None
      case None => None
  }

  function PrintArgs(floatText: string -> string, args: seq<Expr>): Option<string>
    decreases args
  {
    if args == [] then Some("")
    else
      match Print(floatText, args[0])
      case None => None
      case Some(a) =>
        if |args| == 1 then Some(a)
        else
          match PrintArgs(floatText, args[1..])
          case None => None
          case Some(rest) => Some(a + ", " + rest)
  }

  /** op_to_str */
  predicate IsOp(op: string) {
    op == "+" || op == "-" || op == "*" || op == "/" || op == "%" || op == "&&" || op == "||" || op == "=="
    || op == "!=" || op == "<" || op == "<=" || op == ">" || op == ">="
  }

  // ----- The expressions that come back -----

  /** A word the lexer takes for an identifier. */
  predicate ValidName(w: string) {
    && w != "" && IsIdentStart(w[0])
    && (forall i :: 0 <= i < |w| ==> IsIdentPart(w[i]))
    && WordToken(w) == Ident(w)
  }

  function Join(names: seq<string>): string {
    if names == [] then "" else if |names| == 1 then names[0] else names[0] + "." + Join(names[1..])
  }

  predicate AllValid(names: seq<string>) { forall i :: 0 <= i < |names| ==> ValidName(names[i]) }

  ghost predicate IsPath(path: string, names: seq<string>) { names != [] && AllValid(names) && path == Join(names) }

  ghost predicate ValidPath(path: string) { exists names :: IsPath(path, names) }

  ghost function NamesOf(path: string): (names: seq<string>)
    requires ValidPath(path)
    ensures IsPath(path, names)
  {
    var names :| IsPath(path, names);
    names
  }

  /** Integers a literal can hold, strings, valid names, calls the parser accepts, and the known operators. */
  ghost predicate Printable(ts: seq<Token>, e: Expr)
    decreases e
  {
    match e
    case Number(n) => 0 <= n <= INT_MAX
    case Text(_) => true
    case Name(path) => ValidPath(path)
    case Call(callee, args) => ValidPath(callee) && CallAccepted(ts, callee) && AllPrintable(ts, args)
    case Unary(op, operand) => (op == "-" || op == "!") && Printable(ts, operand)
    case Binary(op, left, right) => IsOp(op) && Printable(ts, left) && Printable(ts, right)
    case _ => false
  }

  ghost predicate AllPrintable(ts: seq<Token>, args: seq<Expr>)
    decreases args
  {
    args == [] || (Printable(ts, args[0]) && AllPrintable(ts, args[1..]))
  }

  function Max(a: nat, b: nat): nat { if a >= b then a else b }

  /** How many expressions are nested inside each other by parentheses and arguments. */
  function Depth(e: Expr): nat
    decreases e
  {
    match e
    case Unary(_, operand) => 1 + Depth(operand)
    case Binary(_, left, right) => 1 + Max(Depth(left), Depth(right))
    case Call(_, args) => DepthOfArgs(args)
    case _ => 0
  }

  function DepthOfArgs(args: seq<Expr>): nat
    decreases args
  {
    if args == [] then 0 else Max(1 + Depth(args[0]), DepthOfArgs(args[1..]))
  }

  // ----- The tokens of a printed expression -----

  function PathTokens(names: seq<string>): seq<Token> {
    if names == [] then [] else if |names| == 1 then [Ident(names[0])]
    else [Ident(names[0]), Sym(".")] + PathTokens(names[1..])
  }

  ghost function TokensOf(ts: seq<Token>, e: Expr): seq<Token>
    requires Printable(ts, e)
    decreases e
  {
    match e
    case Number(n) => [Num(n)]
    case Text(s) => [StrLit(s)]
    case Name(path) => PathTokens(NamesOf(path))
    case Call(callee, args) => PathTokens(NamesOf(callee)) + ([Sym("(")] + (ArgTokens(ts, args) + [Sym(")")]))
    case Unary(op, operand) => [Sym("("), Sym(op)] + (TokensOf(ts, operand) + [Sym(")")])
    case Binary(op, left, right) =>
      [Sym("(")] + (TokensOf(ts, left) + ([Sym(op)] + (TokensOf(ts, right) + [Sym(")")])))
  }

  ghost function ArgTokens(ts: seq<Token>, args: seq<Expr>): seq<Token>
    requires AllPrintable(ts, args)
    decreases args
  {
    if args == [] then []
    else if |args| == 1 then TokensOf(ts, args[0])
    else TokensOf(ts, args[0]) + ([Sym(",")] + ArgTokens(ts, args[1..]))
  }

  // ----- Lexing what was printed -----

  /** What can stand behind a printed expression. */
  predicate Follows(rest: string) { rest == "" || (!IsIdentPart(rest[0]) && rest[0] != '.') }

  lemma InFrontTwice(a: seq<Token>, b: seq<Token>, rest: Option<seq<Token>>)
    ensures InFront(a, InFront(b, rest)) == InFront(a + b, rest)
  {
    if rest.Some? { assert a + (b + rest.value) == (a + b) + rest.value; }
  }

  lemma LexStep(s: string, t: Token, n: nat)
    requires s != "" && LexOne(s) == Lexed(t, n)
    ensures Lex(s) == InFront([t], Lex(s[n..]))
  {
    hide LexOne;
  }

  /** One token in front of the rest. */
  lemma LexFront(part: string, t: Token, rest: string)
    requires part + rest != "" && LexOne(part + rest) == Lexed(t, |part|)
    ensures Lex(part + rest) == InFront([t], Lex(rest))
  {
    LexStep(part + rest, t, |part|);
    assert (part + rest)[|part|..] == rest;
  }

  lemma LexBlank(rest: string)
    ensures Lex(" " + rest) == Lex(rest)
  {
    var s := " " + rest;
    assert LexOne(s) == Blank(1);
    assert s[1..] == rest;
  }

  lemma LexParen(c: char, rest: string)
    requires c == '(' || c == ')' || c == ',' || c == '.' || c == '-' || (c == '!' && !Has(rest, 0, '='))
    ensures Lex([c] + rest) == InFront([Sym([c])], Lex(rest))
  {
    var s := [c] + rest;
    assert Has(s, 1, '=') == Has(rest, 0, '=');
    LexFront([c], Sym([c]), rest);
  }

  lemma OneSymbol(op: string, rest: string)
    requires IsOp(op) && |op| == 1
    ensures LexOne(op + (" " + rest)) == Lexed(Sym(op), 1)
  {
    var s := op + (" " + rest);
    assert s[0] == op[0] && s[1] == ' ' && op == [op[0]];
    assert IsSymbol(op[0]);
    assert SymbolAt(s) == Lexed(Sym([op[0]]), 1);
  }

  lemma TwoSymbols(op: string, rest: string)
    requires IsOp(op) && |op| == 2
    ensures LexOne(op + (" " + rest)) == Lexed(Sym(op), 2)
  {
    var s := op + (" " + rest);
    assert s[0] == op[0] && s[1] == op[1] && op == [op[0], op[1]];
    assert SymbolAt(s) == Lexed(Sym([op[0], op[1]]), 2);
  }

  /** An operator with a blank behind it. */
  lemma LexOp(op: string, rest: string)
    requires IsOp(op)
    ensures Lex(op + (" " + rest)) == InFront([Sym(op)], Lex(rest))
  {
    LexBlank(rest);
    if |op| == 1 { OneSymbol(op, rest); } else { TwoSymbols(op, rest); }
    hide LexOne, Lex;
    LexFront(op, Sym(op), " " + rest);
  }

  lemma {:induction false} IdentLengthOf(w: string, rest: string)
    requires forall i :: 0 <= i < |w| ==> IsIdentPart(w[i])
    requires rest == "" || !IsIdentPart(rest[0])
    ensures IdentLength(w + rest) == |w|
  {
    if w == "" {
      assert w + rest == rest;
    } else {
      assert (w + rest)[1..] == w[1..] + rest;
      IdentLengthOf(w[1..], rest);
    }
  }

  lemma {:induction false} DigitLengthOf(w: string, rest: string)
    requires forall i :: 0 <= i < |w| ==> IsDigit(w[i])
    requires rest == "" || !IsDigit(rest[0])
    ensures DigitLength(w + rest) == |w|
  {
    if w == "" {
      assert w + rest == rest;
    } else {
      assert (w + rest)[1..] == w[1..] + rest;
      DigitLengthOf(w[1..], rest);
    }
  }

  lemma LexName(w: string, rest: string)
    requires ValidName(w) && (rest == "" || !IsIdentPart(rest[0]))
    ensures Lex(w + rest) == InFront([Ident(w)], Lex(rest))
  {
    hide WordToken;
    IdentLengthOf(w, rest);
    assert (w + rest)[..|w|] == w && (w + rest)[0] == w[0];
    LexFront(w, Ident(w), rest);
  }

  lemma {:induction false} LexPath(names: seq<string>, rest: string)
    requires names != [] && AllValid(names) && (rest == "" || (!IsIdentPart(rest[0]) && rest[0] != '.'))
    ensures Lex(Join(names) + rest) == InFront(PathTokens(names), Lex(rest))
  {
    hide Lex, ValidName;
    var w := names[0];
    assert ValidName(w);
    if |names| == 1 {
      LexName(w, rest);
    } else {
      var more := Join(names[1..]) + rest;
      assert Join(names) + rest == w + ("." + more);
      assert forall i :: 0 <= i < |names[1..]| ==> names[1..][i] == names[i + 1];
      LexPath(names[1..], rest);
      LexParen('.', more);
      LexName(w, "." + more);
      InFrontTwice([Sym(".")], PathTokens(names[1..]), Lex(rest));
      InFrontTwice([Ident(w)], [Sym(".")] + PathTokens(names[1..]), Lex(rest));
      assert [Ident(w)] + ([Sym(".")] + PathTokens(names[1..])) == PathTokens(names);
    }
  }

  lemma {:induction false} DecimalOfDigits(n: nat)
    ensures Decimal(Digits(n)) == n
  {
    if n < 10 {
      var d := [Digit(n)];
      assert d[..|d| - 1] == "";
    } else {
      var d := Digits(n / 10) + [Digit(n % 10)];
      assert d[..|d| - 1] == Digits(n / 10);
      DecimalOfDigits(n / 10);
    }
  }

  lemma LexNumber(n: nat, rest: string)
    requires n <= INT_MAX && Follows(rest)
    ensures Lex(Digits(n) + rest) == InFront([Num(n)], Lex(rest))
  {
    var w := Digits(n);
    var s := w + rest;
    DigitLengthOf(w, rest);
    DecimalOfDigits(n);
    hide Digits, Decimal, DigitLength;
    assert s[..|w|] == w && s[0] == w[0];
    assert |w| < |s| ==> s[|w|] == rest[0];
    assert NumberShape(s) == (|w|, false);
    assert LexOne(s) == Lexed(Num(n), |w|);
    LexFront(w, Num(n), rest);
  }

  lemma StringBodyStep(c: char, tail: string)
    ensures StringBody(EscapeOne(c) + tail) == Longer(c, |EscapeOne(c)|, StringBody(tail))
  {
    var head := EscapeOne(c);
    var s := head + tail;
    assert s[0] == head[0] && (|head| == 2 ==> s[1] == head[1]);
    if |head| == 1 { assert s[1..] == tail; } else { assert s[2..] == tail; }
  }

  /** The lexer undoes the escapes. */
  lemma {:induction false} StringBodyOf(s: string, rest: string)
    ensures StringBody(Escape(s) + ("\"" + rest)) == Closed(s, |Escape(s)| + 1)
  {
    hide EscapeOne;
    if s == "" {
      assert Escape(s) + ("\"" + rest) == "\"" + rest;
    } else {
      var tail := Escape(s[1..]) + ("\"" + rest);
      StringBodyOf(s[1..], rest);
      StringBodyStep(s[0], tail);
      hide StringBody;
      assert Escape(s) + ("\"" + rest) == EscapeOne(s[0]) + tail;
      assert [s[0]] + s[1..] == s;
    }
  }

  lemma LexText(s: string, rest: string)
    ensures Lex("\"" + Escape(s) + "\"" + rest) == InFront([StrLit(s)], Lex(rest))
  {
    var text := "\"" + Escape(s) + "\"";
    StringBodyOf(s, rest);
    assert (text + rest)[1..] == Escape(s) + ("\"" + rest);
    hide Escape, StringBody;
    assert LexOne(text + rest) == Lexed(StrLit(s), |text|);
    LexFront(text, StrLit(s), rest);
  }

  /** Printing a printable expression succeeds, and the lexer finds its tokens in front of whatever follows. */
  ghost predicate LexesTo(text: Option<string>, tokens: seq<Token>, rest: string) {
    text.Some? && Lex(text.value + rest) == InFront(tokens, Lex(rest))
  }

  lemma StartOfPath(names: seq<string>)
    requires names != [] && AllValid(names)
    ensures Join(names) != "" && IsIdentStart(Join(names)[0])
  {
    assert ValidName(names[0]);
  }

  /** No printed expression starts with '=', which would merge with a '!' before it. */
  lemma {:induction false} StartOfPrinted(floatText: string -> string, ts: seq<Token>, e: Expr)
    requires Printable(ts, e) && Print(floatText, e).Some?
    ensures Print(floatText, e).value != "" && Print(floatText, e).value[0] != '='
  {
    if e.Number? {
      assert IsDigit(Digits(e.n)[0]);
    } else if e.Name? {
      StartOfPath(NamesOf(e.path));
    } else if e.Call? {
      StartOfPath(NamesOf(e.callee));
    }
  }

  lemma {:induction false} LexPrinted(floatText: string -> string, ts: seq<Token>, e: Expr, rest: string)
    requires Printable(ts, e) && Follows(rest)
    ensures LexesTo(Print(floatText, e), TokensOf(ts, e), rest)
    decreases e
  {
    hide Lex, Escape, Digits, Join, PathTokens;
    if e.Number? {
      LexNumber(e.n, rest);
    } else if e.Text? {
      LexText(e.s, rest);
    } else if e.Name? {
      LexPath(NamesOf(e.path), rest);
    } else if e.Call? {
      LexCall(floatText, ts, e, rest);
    } else if e.Unary? {
      LexUnary(floatText, ts, e, rest);
    } else {
      LexBinary(floatText, ts, e, rest);
    }
  }

  /** The text and the tokens of an operation, piece by piece. */
  lemma UnaryPieces(floatText: string -> string, ts: seq<Token>, e: Expr, rest: string)
    requires e.Unary? && Printable(ts, e) && Print(floatText, e.operand).Some?
    ensures e.op == [e.op[0]] && (e.op[0] == '-' || e.op[0] == '!')
    ensures Print(floatText, e).Some?
    ensures Print(floatText, e).value + rest == "(" + (e.op + (Print(floatText, e.operand).value + (")" + rest)))
    ensures TokensOf(ts, e) == [Sym("(")] + ([Sym(e.op)] + (TokensOf(ts, e.operand) + [Sym(")")]))
  {
    var x, t := Print(floatText, e.operand).value, TokensOf(ts, e.operand);
    assert ("(" + e.op + x + ")") + rest == "(" + (e.op + (x + (")" + rest)));
    assert [Sym("("), Sym(e.op)] + (t + [Sym(")")]) == [Sym("(")] + ([Sym(e.op)] + (t + [Sym(")")]));
  }

  lemma {:induction false} LexUnary(floatText: string -> string, ts: seq<Token>, e: Expr, rest: string)
    requires e.Unary? && Printable(ts, e) && Follows(rest)
    ensures LexesTo(Print(floatText, e), TokensOf(ts, e), rest)
    decreases e, 0
  {
    hide Lex, TokensOf, Print;
    var inner := TokensOf(ts, e.operand);
    LexPrinted(floatText, ts, e.operand, ")" + rest);
    UnaryPieces(floatText, ts, e, rest);
    StartOfPrinted(floatText, ts, e.operand);
    var x := Print(floatText, e.operand).value;
    LexParen(')', rest);
    InFrontTwice(inner, [Sym(")")], Lex(rest));
    assert !Has(x + (")" + rest), 0, '=');
    LexParen(e.op[0], x + (")" + rest));
    InFrontTwice([Sym(e.op)], inner + [Sym(")")], Lex(rest));
    LexParen('(', e.op + (x + (")" + rest)));
    InFrontTwice([Sym("(")], [Sym(e.op)] + (inner + [Sym(")")]), Lex(rest));
  }

  lemma BinaryPieces(floatText: string -> string, ts: seq<Token>, e: Expr, rest: string)
    requires e.Binary? && Printable(ts, e) && Print(floatText, e.left).Some? && Print(floatText, e.right).Some?
    ensures Print(floatText, e).Some?
    ensures Print(floatText, e).value + rest ==
      "(" + (Print(floatText, e.left).value + (" " + (e.op + (" " + (Print(floatText, e.right).value + (")" + rest))))))
  {
    hide IsOp;
    var l, r := Print(floatText, e.left).value, Print(floatText, e.right).value;
    assert ("(" + l + " " + e.op + " " + r + ")") + rest == "(" + (l + (" " + (e.op + (" " + (r + (")" + rest))))));
  }

  lemma {:induction false} LexBinary(floatText: string -> string, ts: seq<Token>, e: Expr, rest: string)
    requires e.Binary? && Printable(ts, e) && Follows(rest)
    ensures LexesTo(Print(floatText, e), TokensOf(ts, e), rest)
    decreases e, 0
  {
    hide Lex, IsOp, Print;
    var tl, tr := TokensOf(ts, e.left), TokensOf(ts, e.right);
    LexParen(')', rest);
    LexPrinted(floatText, ts, e.right, ")" + rest);
    InFrontTwice(tr, [Sym(")")], Lex(rest));
    var right := Print(floatText, e.right).value + (")" + rest);
    LexOp(e.op, right);
    InFrontTwice([Sym(e.op)], tr + [Sym(")")], Lex(rest));
    var op := e.op + (" " + right);
    LexBlank(op);
    LexPrinted(floatText, ts, e.left, " " + op);
    InFrontTwice(tl, [Sym(e.op)] + (tr + [Sym(")")]), Lex(rest));
    LexParen('(', Print(floatText, e.left).value + (" " + op));
    InFrontTwice([Sym("(")], tl + ([Sym(e.op)] + (tr + [Sym(")")])), Lex(rest));
    BinaryPieces(floatText, ts, e, rest);
  }

  lemma CallPieces(floatText: string -> string, ts: seq<Token>, e: Expr, rest: string)
    requires e.Call? && Printable(ts, e) && PrintArgs(floatText, e.args).Some?
    ensures Print(floatText, e).Some?
    ensures Print(floatText, e).value + rest
         == Join(NamesOf(e.callee)) + ("(" + (PrintArgs(floatText, e.args).value + (")" + rest)))
  {
    hide Join, CallAccepted, AllPrintable;
    var a := PrintArgs(floatText, e.args).value;
    assert (e.callee + "(" + a + ")") + rest == e.callee + ("(" + (a + (")" + rest)));
  }

  lemma {:induction false} LexCall(floatText: string -> string, ts: seq<Token>, e: Expr, rest: string)
    requires e.Call? && Printable(ts, e) && Follows(rest)
    ensures LexesTo(Print(floatText, e), TokensOf(ts, e), rest)
    decreases e, 0
  {
    hide Lex, Join, PathTokens, Print, PrintArgs, CallAccepted;
    var args := ArgTokens(ts, e.args);
    LexParen(')', rest);
    LexArgs(floatText, ts, e.args, ")" + rest);
    var a := PrintArgs(floatText, e.args).value;
    InFrontTwice(args, [Sym(")")], Lex(rest));
    LexParen('(', a + (")" + rest));
    InFrontTwice([Sym("(")], args + [Sym(")")], Lex(rest));
    var names := NamesOf(e.callee);
    LexPath(names, "(" + (a + (")" + rest)));
    InFrontTwice(PathTokens(names), [Sym("(")] + (args + [Sym(")")]), Lex(rest));
    CallPieces(floatText, ts, e, rest);
  }

  lemma {:induction false} LexArgs(floatText: string -> string, ts: seq<Token>, args: seq<Expr>, rest: string)
    requires AllPrintable(ts, args) && Follows(rest)
    ensures LexesTo(PrintArgs(floatText, args), ArgTokens(ts, args), rest)
    decreases args
  {
    hide Lex;
    if args == [] {
      NothingInFront(Lex(rest));
      assert "" + rest == rest;
    } else if |args| == 1 {
      LexPrinted(floatText, ts, args[0], rest);
    } else {
      LexArgs(floatText, ts, args[1..], rest);
      var more := PrintArgs(floatText, args[1..]).value;
      var tokens := ArgTokens(ts, args[1..]);
      LexBlank(more + rest);
      LexParen(',', " " + (more + rest));
      InFrontTwice([Sym(",")], tokens, Lex(rest));
      LexPrinted(floatText, ts, args[0], "," + (" " + (more + rest)));
      InFrontTwice(TokensOf(ts, args[0]), [Sym(",")] + tokens, Lex(rest));
      var a := Print(floatText, args[0]).value;
      assert (a + ", " + more) + rest == a + ("," + (" " + (more + rest)));
    }
  }

  // ----- Parsing what was printed -----

  /** part stands in the token list at i, with at least one token behind it. */
  predicate At(ts: seq<Token>, i: nat, part: seq<Token>) {
    i + |part| < |ts| && ts[i..i + |part|] == part
  }

  lemma AtSplit(ts: seq<Token>, i: nat, a: seq<Token>, b: seq<Token>)
    requires At(ts, i, a + b)
    ensures At(ts, i, a) && At(ts, i + |a|, b)
  {
    assert ts[i..i + |a|] == (a + b)[..|a|];
    assert ts[i + |a|..i + |a| + |b|] == (a + b)[|a|..];
  }

  lemma AtOne(ts: seq<Token>, i: nat, t: Token)
    requires At(ts, i, [t])
    ensures i + 1 < |ts| && ts[i] == t
  {
    assert ts[i] == ts[i..i + 1][0];
  }

  /** The token behind an expression does not continue it. */
  predicate Stops(t: Token) { forall tier: nat :: tier < TIERS ==> !InTier(t, tier) }

  predicate EndsName(t: Token) { t != Sym(".") && t != Sym("(") }

  function TierOf(op: string): (tier: nat)
    requires IsOp(op)
    ensures tier < TIERS && InTier(Sym(op), tier)
    ensures forall k: nat :: k < TIERS && InTier(Sym(op), k) ==> k == tier
  {
    if op == "||" then 0 else if op == "&&" then 1 else if op == "==" || op == "!=" then 2
    else if op == "+" || op == "-" then 4 else if op == "*" || op == "/" || op == "%" then 5 else 3
  }

  /** A tier passes on what the next one found, as long as none of its operators follows. */
  lemma {:induction false} Climb(ts: seq<Token>, i: nat, d: nat, from: nat, to: nat)
    requires Terminated(ts) && i < |ts| && to <= from <= TIERS
    requires var r := ParseTier(ts, i, d, from);
      r.Parsed? ==> forall tier: nat :: to <= tier < from ==> !InTier(ts[r.next], tier)
    ensures ParseTier(ts, i, d, to) == ParseTier(ts, i, d, from)
    decreases from - to
  {
    hide ParseUnary, InTier;
    if to < from { Climb(ts, i, d, from, to + 1); }
  }

  lemma {:induction false} PathParsed(ts: seq<Token>, i: nat, names: seq<string>)
    requires Terminated(ts) && names != [] && At(ts, i, PathTokens(names)) && ts[i + |PathTokens(names)|] != Sym(".")
    ensures ParsePath(ts, i) == Path(Join(names), i + |PathTokens(names)|)
    decreases |names|
  {
    if |names| == 1 {
      AtOne(ts, i, Ident(names[0]));
    } else {
      var more := PathTokens(names[1..]);
      AtSplit(ts, i, [Ident(names[0]), Sym(".")], more);
      assert ts[i..i + 2] == [Ident(names[0]), Sym(".")];
      assert ts[i] == ts[i..i + 2][0] && ts[i + 1] == ts[i..i + 2][1];
      PathParsed(ts, i + 2, names[1..]);
    }
  }

  lemma FirstOfPath(names: seq<string>)
    requires names != []
    ensures PathTokens(names) != [] && PathTokens(names)[0] == Ident(names[0])
  {
  }

  /** A printed expression starts with a literal, a name or a parenthesis. */
  lemma FirstToken(ts: seq<Token>, e: Expr)
    requires Printable(ts, e)
    ensures TokensOf(ts, e) != []
    ensures var t := TokensOf(ts, e)[0]; t.Num? || t.StrLit? || t.Ident? || t == Sym("(")
  {
    if e.Name? { FirstOfPath(NamesOf(e.path)); } else if e.Call? { FirstOfPath(NamesOf(e.callee)); }
  }

  /** What parsing an expression at i must give: the expression and the place right behind it, or a failure when
      it is nested too deeply. */
  predicate ComesBack(r: Parsed, e: Expr, end: nat, fits: bool) {
    if fits then r == Parsed(e, end) else r.Failed?
  }

  lemma {:induction false} ParseOperand(ts: seq<Token>, e: Expr, i: nat, d: nat)
    requires Terminated(ts) && Printable(ts, e) && d <= MAX_PARSE_DEPTH
    requires At(ts, i, TokensOf(ts, e)) && EndsName(ts[i + |TokensOf(ts, e)|])
    ensures ComesBack(ParseUnary(ts, i, d), e, i + |TokensOf(ts, e)|, d + Depth(e) <= MAX_PARSE_DEPTH)
    decreases e, 2
  {
    hide ParseExpr, ParseCall, ParsePath, ParseTier;
    FirstToken(ts, e);
    assert ts[i] == ts[i..i + |TokensOf(ts, e)|][0];
    if e.Name? {
      PathParsed(ts, i, NamesOf(e.path));
    } else if e.Call? {
      ParsePrintedCall(ts, e, i, d);
    } else if e.Unary? || e.Binary? {
      ParseParens(ts, e, i, d);
    }
  }

  /** The inside of a printed operation, between its parentheses. */
  ghost function InsideOf(ts: seq<Token>, e: Expr): seq<Token>
    requires (e.Unary? || e.Binary?) && Printable(ts, e)
    ensures TokensOf(ts, e) == [Sym("(")] + (InsideOf(ts, e) + [Sym(")")])
  {
    if e.Unary? then
      assert [Sym("("), Sym(e.op)] + (TokensOf(ts, e.operand) + [Sym(")")])
          == [Sym("(")] + (([Sym(e.op)] + TokensOf(ts, e.operand)) + [Sym(")")]);
      [Sym(e.op)] + TokensOf(ts, e.operand)
    else
      assert TokensOf(ts, e.left) + ([Sym(e.op)] + (TokensOf(ts, e.right) + [Sym(")")]))
          == (TokensOf(ts, e.left) + ([Sym(e.op)] + TokensOf(ts, e.right))) + [Sym(")")];
      TokensOf(ts, e.left) + ([Sym(e.op)] + TokensOf(ts, e.right))
  }

  lemma {:induction false} ParseParens(ts: seq<Token>, e: Expr, i: nat, d: nat)
    requires Terminated(ts) && (e.Unary? || e.Binary?) && Printable(ts, e) && d <= MAX_PARSE_DEPTH
    requires At(ts, i, TokensOf(ts, e))
    ensures ComesBack(ParseUnary(ts, i, d), e, i + |TokensOf(ts, e)|, d + Depth(e) <= MAX_PARSE_DEPTH)
    decreases e, 1
  {
    hide ParseTier, ParseUnary, TokensOf, InsideOf, Printable;
    ParensParts(ts, e, i);
    ParensUnfold(ts, i, d);
    if d < MAX_PARSE_DEPTH {
      if e.Unary? { UnaryInside(ts, e, i + 1, d + 1); } else { BinaryInside(ts, e, i + 1, d + 1); }
    }
  }

  lemma ParensParts(ts: seq<Token>, e: Expr, i: nat)
    requires (e.Unary? || e.Binary?) && Printable(ts, e) && At(ts, i, TokensOf(ts, e))
    ensures var inside := InsideOf(ts, e);
      && ts[i] == Sym("(") && At(ts, i + 1, inside) && ts[i + 1 + |inside|] == Sym(")")
      && |TokensOf(ts, e)| == |inside| + 2
  {
    hide TokensOf, At, Printable, InsideOf;
    Surrounded(ts, i, InsideOf(ts, e));
  }

  lemma Surrounded(ts: seq<Token>, i: nat, inside: seq<Token>)
    requires At(ts, i, [Sym("(")] + (inside + [Sym(")")]))
    ensures i + 1 + |inside| < |ts|
    ensures ts[i] == Sym("(") && At(ts, i + 1, inside) && ts[i + 1 + |inside|] == Sym(")")
  {
    hide At;
    AtSplit(ts, i, [Sym("(")], inside + [Sym(")")]);
    AtOne(ts, i, Sym("("));
    AtSplit(ts, i + 1, inside, [Sym(")")]);
    AtOne(ts, i + 1 + |inside|, Sym(")"));
  }

  lemma ParensUnfold(ts: seq<Token>, i: nat, d: nat)
    requires Terminated(ts) && i + 1 < |ts| && ts[i] == Sym("(")
    ensures d >= MAX_PARSE_DEPTH ==> ParseUnary(ts, i, d).Failed?
    ensures d < MAX_PARSE_DEPTH ==>
      var r := ParseTier(ts, i + 1, d + 1, 0);
      && (r.Parsed? && ts[r.next] == Sym(")") ==> ParseUnary(ts, i, d) == Parsed(r.e, r.next + 1))
      && (!(r.Parsed? && ts[r.next] == Sym(")")) ==> ParseUnary(ts, i, d).Failed?)
  {
    hide ParseTier;
    var inner := ParseExpr(ts, i + 1, d);
    var whole := ParsePrimary(ts, i, d);
  }

  /** One operator of a tier between two operands of the next. */
  lemma TwoOperands(ts: seq<Token>, i: nat, d: nat, k: nat)
    requires Terminated(ts) && i < |ts| && k < TIERS
    requires var l := ParseTier(ts, i, d, k + 1); l.Parsed? && InTier(ts[l.next], k)
    ensures var l := ParseTier(ts, i, d, k + 1);
      var r := ParseTier(ts, l.next + 1, d, k + 1);
      && (r.Failed? ==> ParseTier(ts, i, d, k).Failed?)
      && (r.Parsed? && !InTier(ts[r.next], k) ==>
            ParseTier(ts, i, d, k) == Parsed(Binary(ts[l.next].sym, l.e, r.e), r.next))
  {
    var l := ParseTier(ts, i, d, k + 1);
    var r := ParseTier(ts, l.next + 1, d, k + 1);
    var whole := ParseTierRest(ts, l.next, d, k, l.e);
    if r.Parsed? { var end := ParseTierRest(ts, r.next, d, k, Binary(ts[l.next].sym, l.e, r.e)); }
  }

  lemma {:induction false} UnaryInside(ts: seq<Token>, e: Expr, i: nat, d: nat)
    requires Terminated(ts) && e.Unary? && Printable(ts, e) && d <= MAX_PARSE_DEPTH
    requires At(ts, i, InsideOf(ts, e)) && ts[i + |InsideOf(ts, e)|] == Sym(")")
    ensures ComesBack(ParseTier(ts, i, d, 0), e, i + |InsideOf(ts, e)|, d + Depth(e.operand) <= MAX_PARSE_DEPTH)
    decreases e, 0
  {
    hide ParsePrimary, TokensOf;
    AtSplit(ts, i, [Sym(e.op)], TokensOf(ts, e.operand));
    AtOne(ts, i, Sym(e.op));
    ParseOperand(ts, e.operand, i + 1, d);
    Climb(ts, i, d, TIERS, 0);
  }

  lemma {:induction false} BinaryInside(ts: seq<Token>, e: Expr, i: nat, d: nat)
    requires Terminated(ts) && e.Binary? && Printable(ts, e) && d <= MAX_PARSE_DEPTH
    requires At(ts, i, InsideOf(ts, e)) && ts[i + |InsideOf(ts, e)|] == Sym(")")
    ensures ComesBack(ParseTier(ts, i, d, 0), e, i + |InsideOf(ts, e)|,
                      d + Max(Depth(e.left), Depth(e.right)) <= MAX_PARSE_DEPTH)
    decreases e, 0
  {
    hide ParseTier, ParseUnary, TokensOf, InsideOf, Printable;
    BinaryParts(ts, e, i);
    var m := i + |TokensOf(ts, e.left)|;
    var k := TierOf(e.op);
    ParseOperand(ts, e.left, i, d);
    TopTier(ts, i, d);
    Climb(ts, i, d, TIERS, k + 1);
    ParseOperand(ts, e.right, m + 1, d);
    TopTier(ts, m + 1, d);
    Climb(ts, m + 1, d, TIERS, k + 1);
    if ParseTier(ts, i, d, k + 1).Parsed? {
      TwoOperands(ts, i, d, k);
      Climb(ts, i, d, k, 0);
    } else {
      Climb(ts, i, d, k + 1, 0);
    }
  }

  lemma TopTier(ts: seq<Token>, i: nat, d: nat)
    requires Terminated(ts) && i < |ts|
    ensures ParseTier(ts, i, d, TIERS) == ParseUnary(ts, i, d)
  {
    hide ParseUnary;
  }

  /** Where the parts of a binary operation stand, and what follows its operands. */
  lemma BinaryParts(ts: seq<Token>, e: Expr, i: nat)
    requires e.Binary? && Printable(ts, e) && At(ts, i, InsideOf(ts, e)) && ts[i + |InsideOf(ts, e)|] == Sym(")")
    ensures IsOp(e.op) && Printable(ts, e.left) && Printable(ts, e.right)
    ensures var m := i + |TokensOf(ts, e.left)|;
      && At(ts, i, TokensOf(ts, e.left)) && ts[m] == Sym(e.op) && EndsName(ts[m])
      && At(ts, m + 1, TokensOf(ts, e.right))
      && m + 1 + |TokensOf(ts, e.right)| == i + |InsideOf(ts, e)|
  {
    hide TokensOf, At;
    var l, r := TokensOf(ts, e.left), TokensOf(ts, e.right);
    AtSplit(ts, i, l, [Sym(e.op)] + r);
    AtSplit(ts, i + |l|, [Sym(e.op)], r);
    AtOne(ts, i + |l|, Sym(e.op));
  }

  lemma {:induction false} ParsePrinted(ts: seq<Token>, e: Expr, i: nat, d: nat)
    requires Terminated(ts) && Printable(ts, e) && d <= MAX_PARSE_DEPTH
    requires At(ts, i, TokensOf(ts, e))
    requires EndsName(ts[i + |TokensOf(ts, e)|]) && Stops(ts[i + |TokensOf(ts, e)|])
    ensures ComesBack(ParseExpr(ts, i, d), e, i + |TokensOf(ts, e)|, d + 1 + Depth(e) <= MAX_PARSE_DEPTH)
    decreases e, 3
  {
    hide ParseUnary, TokensOf;
    if d < MAX_PARSE_DEPTH {
      ParseOperand(ts, e, i, d + 1);
      Climb(ts, i, d + 1, TIERS, 0);
    }
  }

  lemma {:induction false} ParsePrintedCall(ts: seq<Token>, e: Expr, i: nat, d: nat)
    requires Terminated(ts) && e.Call? && Printable(ts, e) && d <= MAX_PARSE_DEPTH
    requires At(ts, i, TokensOf(ts, e))
    ensures ComesBack(ParseUnary(ts, i, d), e, i + |TokensOf(ts, e)|, d + Depth(e) <= MAX_PARSE_DEPTH)
    decreases e, 1
  {
    hide ParseArgs, ParsePath, PathTokens, CallAccepted, ArgTokens, TokensOf, ParseUnary;
    var j := CallParts(ts, e, i);
    CallUnfold(ts, i, d, e.callee, j);
    if e.args != [] {
      FirstOfArgs(ts, e.args);
      assert ts[j] == ts[j..j + |ArgTokens(ts, e.args)|][0];
      ParsePrintedArgs(ts, e.args, j, d);
    } else {
      NoArgTokens(ts);
    }
  }

  /** Where the parts of a call stand. */
  lemma CallParts(ts: seq<Token>, e: Expr, i: nat) returns (j: nat)
    requires Terminated(ts) && e.Call? && Printable(ts, e) && At(ts, i, TokensOf(ts, e))
    ensures i < j < |ts| && ts[i].Ident? && ParsePath(ts, i) == Path(e.callee, j - 1) && ts[j - 1] == Sym("(")
    ensures At(ts, j, ArgTokens(ts, e.args)) && ts[j + |ArgTokens(ts, e.args)|] == Sym(")")
    ensures j + |ArgTokens(ts, e.args)| + 1 == i + |TokensOf(ts, e)|
  {
    hide ParsePath, PathTokens, ArgTokens, CallAccepted, At;
    var names := NamesOf(e.callee);
    var path := PathTokens(names);
    j := i + |path| + 1;
    FirstOfPath(names);
    CallShape(ts, i, path, ArgTokens(ts, e.args));
    PathParsed(ts, i, names);
  }

  lemma CallShape(ts: seq<Token>, i: nat, path: seq<Token>, args: seq<Token>)
    requires path != [] && At(ts, i, path + ([Sym("(")] + (args + [Sym(")")])))
    ensures At(ts, i, path) && ts[i] == path[0]
    ensures var j := i + |path| + 1;
      j + |args| < |ts| && ts[j - 1] == Sym("(") && At(ts, j, args) && ts[j + |args|] == Sym(")")
  {
    var j := i + |path| + 1;
    AtSplit(ts, i, path, [Sym("(")] + (args + [Sym(")")]));
    AtSplit(ts, j - 1, [Sym("(")], args + [Sym(")")]);
    AtOne(ts, j - 1, Sym("("));
    AtSplit(ts, j, args, [Sym(")")]);
    AtOne(ts, j + |args|, Sym(")"));
  }

  lemma CallUnfold(ts: seq<Token>, i: nat, d: nat, path: string, j: nat)
    requires Terminated(ts) && i < j < |ts| && ts[i].Ident?
    requires ParsePath(ts, i) == Path(path, j - 1) && ts[j - 1] == Sym("(") && CallAccepted(ts, path)
    ensures ParseUnary(ts, i, d) == FinishCall(ts, path, ParseArguments(ts, j, d, path))
  {
    hide ParsePath, CallAccepted, ParseArguments, FinishCall;
    var whole := ParsePrimary(ts, i, d);
    var call := ParseCall(ts, j, d, path);
  }

  lemma NoArgTokens(ts: seq<Token>)
    ensures ArgTokens(ts, []) == []
  {
  }

  lemma FirstOfArgs(ts: seq<Token>, args: seq<Expr>)
    requires args != [] && AllPrintable(ts, args)
    ensures ArgTokens(ts, args) != []
    ensures var t := ArgTokens(ts, args)[0]; t != Sym(")") && t != Sym("{")
  {
    hide TokensOf;
    FirstToken(ts, args[0]);
  }

  lemma {:induction false} ParsePrintedArgs(ts: seq<Token>, args: seq<Expr>, i: nat, d: nat)
    requires Terminated(ts) && args != [] && AllPrintable(ts, args) && d <= MAX_PARSE_DEPTH
    requires At(ts, i, ArgTokens(ts, args)) && ts[i + |ArgTokens(ts, args)|] == Sym(")")
    ensures d + DepthOfArgs(args) <= MAX_PARSE_DEPTH ==> ParseArgs(ts, i, d) == Args(args, i + |ArgTokens(ts, args)|)
    ensures d + DepthOfArgs(args) > MAX_PARSE_DEPTH ==> ParseArgs(ts, i, d).BadArgs?
    decreases args
  {
    hide ParseExpr, TokensOf, ArgTokens, Printable, Stops, ParseArgs;
    Closers();
    if |args| == 1 {
      OneArg(ts, args);
      ParsePrinted(ts, args[0], i, d);
      ArgsUnfold(ts, i, d);
    } else {
      var m := MoreArgs(ts, args, i);
      ParsePrinted(ts, args[0], i, d);
      ParsePrintedArgs(ts, args[1..], m + 1, d);
      ArgsUnfold(ts, i, d);
      assert [args[0]] + args[1..] == args;
    }
  }

  lemma Closers()
    ensures Stops(Sym(")")) && Stops(Sym(",")) && Stops(EndOfFile)
  {
  }

  lemma ArgsUnfold(ts: seq<Token>, i: nat, d: nat)
    requires Terminated(ts) && i < |ts|
    ensures var r := ParseExpr(ts, i, d);
      && (r.Failed? ==> ParseArgs(ts, i, d).BadArgs?)
      && (r.Parsed? && ts[r.next] != Sym(",") ==> ParseArgs(ts, i, d) == Args([r.e], r.next))
      && (r.Parsed? && ts[r.next] == Sym(",") ==>
            var more := ParseArgs(ts, r.next + 1, d);
            && (more.BadArgs? ==> ParseArgs(ts, i, d).BadArgs?)
            && (more.Args? ==> ParseArgs(ts, i, d) == Args([r.e] + more.args, more.next)))
  {
    hide ParseExpr;
  }

  lemma OneArg(ts: seq<Token>, args: seq<Expr>)
    requires |args| == 1 && AllPrintable(ts, args)
    ensures ArgTokens(ts, args) == TokensOf(ts, args[0]) && args == [args[0]]
    ensures DepthOfArgs(args) == 1 + Depth(args[0])
  {
    assert args[1..] == [];
  }

  /** Where the comma behind the first of several arguments stands. */
  lemma MoreArgs(ts: seq<Token>, args: seq<Expr>, i: nat) returns (m: nat)
    requires |args| > 1 && AllPrintable(ts, args) && At(ts, i, ArgTokens(ts, args))
    ensures m == i + |TokensOf(ts, args[0])| && At(ts, i, TokensOf(ts, args[0])) && ts[m] == Sym(",")
    ensures At(ts, m + 1, ArgTokens(ts, args[1..]))
    ensures m + 1 + |ArgTokens(ts, args[1..])| == i + |ArgTokens(ts, args)|
  {
    hide TokensOf, At;
    var first, more := TokensOf(ts, args[0]), ArgTokens(ts, args[1..]);
    m := i + |first|;
    AtSplit(ts, i, first, [Sym(",")] + more);
    AtSplit(ts, m, [Sym(",")], more);
    AtOne(ts, m, Sym(","));
  }

  // ----- The whole promise -----

  /** No keyword and no end of file. */
  predicate Plain(tokens: seq<Token>) {
    forall i :: 0 <= i < |tokens| ==> tokens[i].Num? || tokens[i].StrLit? || tokens[i].Ident? || tokens[i].Sym?
  }

  lemma {:induction false} PathIsPlain(names: seq<string>)
    ensures Plain(PathTokens(names))
  {
    if |names| > 1 { PathIsPlain(names[1..]); }
  }

  lemma {:induction false} TokensArePlain(ts: seq<Token>, e: Expr)
    requires Printable(ts, e)
    ensures Plain(TokensOf(ts, e))
    decreases e
  {
    if e.Name? {
      PathIsPlain(NamesOf(e.path));
    } else if e.Call? {
      PathIsPlain(NamesOf(e.callee));
      ArgsArePlain(ts, e.args);
    } else if e.Unary? {
      TokensArePlain(ts, e.operand);
    } else if e.Binary? {
      TokensArePlain(ts, e.left);
      TokensArePlain(ts, e.right);
    }
  }

  lemma {:induction false} ArgsArePlain(ts: seq<Token>, args: seq<Expr>)
    requires AllPrintable(ts, args)
    ensures Plain(ArgTokens(ts, args))
    decreases args
  {
    if args != [] {
      TokensArePlain(ts, args[0]);
      ArgsArePlain(ts, args[1..]);
    }
  }

  lemma {:induction false} DeclaredBehind(tokens: seq<Token>, rest: seq<Token>, i: nat)
    requires Plain(tokens) && i <= |tokens|
    ensures DeclaredFrom(tokens + rest, i) == DeclaredFrom(rest, 0)
    decreases |tokens| - i
  {
    if i < |tokens| { DeclaredBehind(tokens, rest, i + 1); } else { DeclaredShifted(tokens, rest, 0); }
  }

  lemma {:induction false} DeclaredShifted(a: seq<Token>, b: seq<Token>, i: nat)
    requires i <= |b|
    ensures DeclaredFrom(a + b, |a| + i) == DeclaredFrom(b, i)
    decreases |b| - i
  {
    if i < |b| {
      assert IsFunctionAt(a + b, |a| + i) == IsFunctionAt(b, i);
      DeclaredShifted(a, b, i + 1);
    }
  }

  /** What stands in front declares the same, whatever follows. */
  lemma {:induction false} DeclaredBefore(head: seq<Token>, b: seq<Token>, c: seq<Token>, i: nat)
    requires i <= |head| && (head != [] ==> head[|head| - 1] != Word("func"))
    requires DeclaredFrom(b, 0) == DeclaredFrom(c, 0)
    ensures DeclaredFrom(head + b, i) == DeclaredFrom(head + c, i)
    decreases |head| - i
  {
    if i < |head| {
      DeclaredBefore(head, b, c, i + 1);
    } else {
      DeclaredShifted(head, b, 0);
      DeclaredShifted(head, c, 0);
    }
  }

  /** Only the functions declared in the token list matter to whether an expression comes back. */
  lemma {:induction false} SameTokens(ts: seq<Token>, ts1: seq<Token>, e: Expr)
    requires Printable(ts, e) && DeclaredFrom(ts, 0) == DeclaredFrom(ts1, 0)
    ensures Printable(ts1, e) && TokensOf(ts1, e) == TokensOf(ts, e)
    decreases e
  {
    if e.Call? {
      SameArgTokens(ts, ts1, e.args);
    } else if e.Unary? {
      SameTokens(ts, ts1, e.operand);
    } else if e.Binary? {
      SameTokens(ts, ts1, e.left);
      SameTokens(ts, ts1, e.right);
    }
  }

  lemma {:induction false} SameArgTokens(ts: seq<Token>, ts1: seq<Token>, args: seq<Expr>)
    requires AllPrintable(ts, args) && DeclaredFrom(ts, 0) == DeclaredFrom(ts1, 0)
    ensures AllPrintable(ts1, args) && ArgTokens(ts1, args) == ArgTokens(ts, args)
    decreases args
  {
    if args != [] {
      SameTokens(ts, ts1, args[0]);
      SameArgTokens(ts, ts1, args[1..]);
    }
  }

  /** Where an expression can stand in a program: the tokens in front do not end in the middle of a function's
      head, and the token behind does not continue the expression. */
  predicate Surrounds(head: seq<Token>, tail: seq<Token>) {
    && (head != [] ==> head[|head| - 1] != Word("func"))
    && tail != [] && EndsName(tail[0]) && Stops(tail[0])
  }

  /** Printing an expression into a program, lexing the whole text and parsing at the expression's place gives the
      expression back and stops right behind it, at every depth; only an expression nested too deeply for the parser
      is refused.  The functions that decide about its calls are those the program around it declares. */
  lemma PrinterInProgram(floatText: string -> string, before: string, e: Expr, after: string, d: nat)
    requires Settled(before) && Follows(after) && Lex(before).Some? && Lex(after).Some? && d <= MAX_PARSE_DEPTH
    requires Surrounds(Lex(before).value, Lex(after).value + [EndOfFile])
    requires Printable(Lex(before).value + (Lex(after).value + [EndOfFile]), e)
    ensures var text := Print(floatText, e);
      var i := |Lex(before).value|;
      text.Some? && Lex(before + (text.value + after)).Some?
      && var ts := Lex(before + (text.value + after)).value + [EndOfFile];
         var end := |ts| - 1 - |Lex(after).value|;
         && Terminated(ts) && i < end
         && ts[..i] == Lex(before).value && ts[end..] == Lex(after).value + [EndOfFile]
         && ComesBack(ParseExpr(ts, i, d), e, end, d + 1 + Depth(e) <= MAX_PARSE_DEPTH)
  {
    hide Lex, TokensOf, ParseExpr, Print, Printable, Settled, Surrounds, Follows, ComesBack;
    var head, tail := Lex(before).value, Lex(after).value + [EndOfFile];
    LexInProgram(floatText, before, e, after);
    NoEndInside(before + (Print(floatText, e).value + after));
    assert head + (TokensOf(head + tail, e) + Lex(after).value) + [EndOfFile] == head + (TokensOf(head + tail, e) + tail);
    ParseInside(head, tail, e, d);
  }

  lemma ParseInside(head: seq<Token>, tail: seq<Token>, e: Expr, d: nat)
    requires Surrounds(head, tail) && Printable(head + tail, e) && d <= MAX_PARSE_DEPTH
    requires Terminated(head + (TokensOf(head + tail, e) + tail))
    ensures var tokens := TokensOf(head + tail, e);
      var ts := head + (tokens + tail);
      && ts[..|head|] == head && ts[|head| + |tokens|..] == tail
      && ComesBack(ParseExpr(ts, |head|, d), e, |head| + |tokens|, d + 1 + Depth(e) <= MAX_PARSE_DEPTH)
  {
    hide TokensOf, ParseExpr, Printable, Stops, EndsName, ComesBack, At, Depth, Terminated;
    SameInside(head, tail, e);
    Placed(head, TokensOf(head + tail, e), tail);
    ParsePrinted(head + (TokensOf(head + tail, e) + tail), e, |head|, d);
  }

  lemma LexInProgram(floatText: string -> string, before: string, e: Expr, after: string)
    requires Settled(before) && Follows(after) && Lex(before).Some? && Lex(after).Some?
    requires Printable(Lex(before).value + (Lex(after).value + [EndOfFile]), e)
    ensures var tokens := TokensOf(Lex(before).value + (Lex(after).value + [EndOfFile]), e);
      var text := Print(floatText, e);
      && tokens != [] && text.Some?
      && Lex(before + (text.value + after)) == Some(Lex(before).value + (tokens + Lex(after).value))
  {
    hide Lex, TokensOf, Print, Printable, Settled;
    var ts := Lex(before).value + (Lex(after).value + [EndOfFile]);
    LexPrinted(floatText, ts, e, after);
    LexAppended(before, Print(floatText, e).value + after);
    FirstToken(ts, e);
  }

  lemma Placed(head: seq<Token>, tokens: seq<Token>, tail: seq<Token>)
    requires tail != []
    ensures var ts := head + (tokens + tail);
      At(ts, |head|, tokens) && ts[|head| + |tokens|] == tail[0] && ts[|head| + |tokens|..] == tail && ts[..|head|] == head
  {
  }

  /** The printed tokens declare nothing, so they are the same in the list they stand in. */
  lemma SameInside(head: seq<Token>, tail: seq<Token>, e: Expr)
    requires Surrounds(head, tail) && Printable(head + tail, e)
    ensures var tokens := TokensOf(head + tail, e);
      var ts := head + (tokens + tail);
      Printable(ts, e) && TokensOf(ts, e) == tokens
  {
    hide TokensOf, Printable, DeclaredFrom, Stops;
    var tokens := TokensOf(head + tail, e);
    TokensArePlain(head + tail, e);
    DeclaredBehind(tokens, tail, 0);
    DeclaredBefore(head, tokens + tail, tail, 0);
    SameTokens(head + tail, head + (tokens + tail), e);
  }

  /** The same for an expression that is the whole text. */
  lemma PrinterAndParser(floatText: string -> string, e: Expr)
    requires Printable([EndOfFile], e)
    ensures var text := Print(floatText, e);
      text.Some? && Lex(text.value).Some?
      && var ts := Lex(text.value).value + [EndOfFile];
         Terminated(ts) && ComesBack(ParseExpr(ts, 0, 0), e, |ts| - 1, 1 + Depth(e) <= MAX_PARSE_DEPTH)
  {
    hide ParseExpr, Print, Printable, Stops;
    LexNothing();
    Closers();
    hide Lex;
    assert [] + ([] + [EndOfFile]) == [EndOfFile] && [] + [EndOfFile] == [EndOfFile];
    PrinterInProgram(floatText, "", e, "", 0);
    var text := Print(floatText, e).value;
    assert "" + (text + "") == text;
  }

  lemma LexNothing()
    ensures Lex("") == Some([])
  {
  }

  /** What a printed literal is parsed as. */
  ghost predicate LiteralComesBack(n: int) {
    var tokens := Lex(IntText(n));
    && tokens.Some? && Terminated(tokens.value + [EndOfFile])
    && ParseExpr(tokens.value + [EndOfFile], 0, 0) == Parsed(Number(n), |tokens.value|)
  }

  /** An integer literal of 32 bits comes back exactly when it is not negative: a negative one comes back as a
      negation, and the smallest one does not even pass the lexer. */
  lemma LiteralAgreement(n: int)
    requires -INT_MAX - 1 <= n <= INT_MAX
    ensures LiteralComesBack(n) <==> n >= 0
  {
    hide Lex, Digits, ParseExpr;
    LexNothing();
    if n >= 0 {
      LexNumber(n, "");
      assert Digits(n) + "" == Digits(n);
      var ts := [Num(n), EndOfFile];
      assert [Num(n)] + [] + [EndOfFile] == ts;
      ParsePrinted(ts, Number(n), 0, 0);
    } else if n >= -INT_MAX {
      LexNumber(-n, "");
      assert Digits(-n) + "" == Digits(-n);
      LexParen('-', Digits(-n));
      assert [Num(-n)] + [] == [Num(-n)] && [Sym("-")] + [Num(-n)] == [Sym("-"), Num(-n)];
      var ts := [Sym("-"), Num(-n), EndOfFile];
      assert [Sym("-"), Num(-n)] + [EndOfFile] == ts;
      NegativeParsed(ts, -n);
    } else {
      LexParen('-', Digits(-n));
      TooLarge(-n);
    }
  }

  lemma NegativeParsed(ts: seq<Token>, k: nat)
    requires ts == [Sym("-"), Num(k), EndOfFile]
    ensures ParseExpr(ts, 0, 0) == Parsed(Unary("-", Number(k)), 2)
  {
    hide ParseTier;
    assert ParsePrimary(ts, 1, 1) == Parsed(Number(k), 2);
    assert ParseUnary(ts, 1, 1) == Parsed(Number(k), 2);
    assert ParseUnary(ts, 0, 1) == Parsed(Unary("-", Number(k)), 2);
    hide ParseUnary;
    TopTier(ts, 0, 1);
    Climb(ts, 0, 1, TIERS, 0);
  }

  lemma TooLarge(n: nat)
    requires n > INT_MAX
    ensures Lex(Digits(n)) == None
  {
    var w := Digits(n);
    DigitLengthOf(w, "");
    DecimalOfDigits(n);
    hide Digits, Decimal, DigitLength;
    assert w + "" == w && w[..|w|] == w;
    assert NumberShape(w) == (|w|, false);
    assert LexOne(w) == Bad;
  }
}
