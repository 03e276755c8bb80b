/** Statements come back: a printer of statements as tokens, and the statement parser on what it writes. */
module CpStmtPrinter {
  import opened CpLexer
  import opened CpExprParser
  import opened CpStatements
  import opened CpLevels
  import P = CpPrinter

  // ----- The statements that can be written -----

  /** Statements of the language, with expressions that can be written: branches and bodies are blocks, an else holds
      a block or another if, and a function stands on its own. */
  ghost predicate Writable(ts: seq<Token>, s: Stmt)
    decreases s
  {
    match s
    case Bind(_, _, value) => P.Printable(ts, value)
    case Print(e) => P.Printable(ts, e)
    case Return(result) => result.Some? ==> P.Printable(ts, result.value)
    case Evaluate(e) => P.Printable(ts, e)
    case Switch(subject, cases) => P.Printable(ts, subject) && CasesWritable(ts, cases)
    case If(cond, thenBlock, elseBranch) =>
      && P.Printable(ts, cond) && thenBlock.Block? && Writable(ts, thenBlock)
      && (elseBranch.Some? ==> (elseBranch.value.If? || elseBranch.value.Block?) && Writable(ts, elseBranch.value))
    case While(cond, body) => P.Printable(ts, cond) && body.Block? && Writable(ts, body)
    case For(init, test, update, body) =>
      && InitWritable(ts, init) && (test.Some? ==> P.Printable(ts, test.value)) && UpdateWritable(ts, update)
      && body.Block? && Writable(ts, body)
    case TextAt(x, y, _) => P.Printable(ts, x) && P.Printable(ts, y)
    case Block(stmts) => AllWritable(ts, stmts)
    case Function(_, _, _) => false
    case _ => true
  }

  ghost predicate AllWritable(ts: seq<Token>, ss: seq<Stmt>)
    decreases ss
  {
    ss == [] || (Writable(ts, ss[0]) && AllWritable(ts, ss[1..]))
  }

  ghost predicate CasesWritable(ts: seq<Token>, cases: seq<Case>)
    decreases cases
  {
    cases == [] ||
    (&& (cases[0].value.Some? ==> P.Printable(ts, cases[0].value.value))
     && AllWritable(ts, cases[0].body) && CasesWritable(ts, cases[1..]))
  }

  /** A binding, or an expression that does not start with a misspelt keyword. */
  ghost predicate InitWritable(ts: seq<Token>, init: Option<Stmt>) {
    init.Some? ==>
      || (init.value.Bind? && P.Printable(ts, init.value.value))
      || (init.value.Evaluate? && P.Printable(ts, init.value.e) && !Misspelt(Lean(ts, init.value.e, 0)[0]))
  }

  ghost predicate UpdateWritable(ts: seq<Token>, update: Option<Stmt>) {
    update.Some? ==>
      || (update.value.Bind? && update.value.binder == Assign && P.Printable(ts, update.value.value))
      || (update.value.Evaluate? && P.Printable(ts, update.value.e))
  }

  // ----- Their tokens -----

  function Keyword(binder: Binder): seq<Token> {
    match binder
    case Let => [Word("let")]
    case Var => [Word("var")]
    case Assign => []
  }

  ghost function BindTokens(ts: seq<Token>, binder: Binder, name: string, value: Expr): seq<Token>
    requires P.Printable(ts, value)
  {
    Keyword(binder) + ([Ident(name), Sym("=")] + Lean(ts, value, 0))
  }

  ghost function OptionalTokens(ts: seq<Token>, e: Option<Expr>): seq<Token>
    requires e.Some? ==> P.Printable(ts, e.value)
  {
    if e.Some? then Lean(ts, e.value, 0) else []
  }

  /** The init or update part of a for loop. */
  ghost function PartTokens(ts: seq<Token>, part: Option<Stmt>): seq<Token>
    requires part.Some? ==>
      || (part.value.Bind? && P.Printable(ts, part.value.value))
      || (part.value.Evaluate? && P.Printable(ts, part.value.e))
  {
    if part.None? then []
    else if part.value.Bind? then BindTokens(ts, part.value.binder, part.value.name, part.value.value)
    else Lean(ts, part.value.e, 0)
  }

  ghost function StmtTokens(ts: seq<Token>, s: Stmt): seq<Token>
    requires Writable(ts, s)
    decreases s
  {
    hide P.Printable, Lean, Misspelt, TextTokens, ForTokens, IfTokens, SwitchTokens;
    match s
    case Bind(binder, name, value) => BindTokens(ts, binder, name, value) + [Sym(";")]
    case Print(e) => [Word("print"), Sym("(")] + (Lean(ts, e, 0) + [Sym(")"), Sym(";")])
    case Break => [Word("break"), Sym(";")]
    case Continue => [Word("continue"), Sym(";")]
    case Return(result) => [Word("return")] + (OptionalTokens(ts, result) + [Sym(";")])
    case Evaluate(e) => Lean(ts, e, 0) + [Sym(";")]
    case Switch(subject, cases) =>
      SwitchTokens(Lean(ts, subject, 0), CaseTokens(ts, cases))
    case If(cond, thenBlock, elseBranch) =>
      IfTokens(Lean(ts, cond, 0), StmtTokens(ts, thenBlock),
               if elseBranch.Some? then [Word("else")] + StmtTokens(ts, elseBranch.value) else [])
    case While(cond, body) => [Word("while")] + (Lean(ts, cond, 0) + StmtTokens(ts, body))
    case For(init, test, update, body) =>
      ForTokens(PartTokens(ts, init), OptionalTokens(ts, test), PartTokens(ts, update), StmtTokens(ts, body))
    case Import(path) => [Word("import"), StrLit(path), Sym(";")]
    case Window(title) => [Word("window"), Sym("("), StrLit(title), Sym(")"), Sym(";")]
    case TextAt(x, y, message) => TextTokens(Lean(ts, x, 0), Lean(ts, y, 0), message)
    case Block(stmts) => [Sym("{")] + (AllTokens(ts, stmts) + [Sym("}")])
  }

  ghost function AllTokens(ts: seq<Token>, ss: seq<Stmt>): seq<Token>
    requires AllWritable(ts, ss)
    decreases ss
  {
    if ss == [] then [] else StmtTokens(ts, ss[0]) + AllTokens(ts, ss[1..])
  }

  ghost function CaseTokens(ts: seq<Token>, cases: seq<Case>): seq<Token>
    requires CasesWritable(ts, cases)
    decreases cases
  {
    if cases == [] then []
    else CaseHead(ts, cases[0].value) + ([Sym(":")] + (AllTokens(ts, cases[0].body) + CaseTokens(ts, cases[1..])))
  }

  ghost function CaseHead(ts: seq<Token>, value: Option<Expr>): seq<Token>
    requires value.Some? ==> P.Printable(ts, value.value)
  {
    if value.Some? then [Word("case")] + Lean(ts, value.value, 0) else [Word("default")]
  }

  // ----- How deep the parser goes -----

  function RoomOf(e: Option<Expr>): nat { if e.Some? then 1 + Nest(e.value, 0) else 0 }

  function RoomOfPart(part: Option<Stmt>): nat {
    if part.Some? && part.value.Bind? then 1 + Nest(part.value.value, 0)
    else if part.Some? && part.value.Evaluate? then 1 + Nest(part.value.e, 0)
    else 0
  }

  /** The levels of the parser's recursion below a statement. */
  function Room(s: Stmt): nat
    decreases s
  {
    match s
    case Bind(_, _, value) => 1 + Nest(value, 0)
    case Print(e) => 1 + Nest(e, 0)
    case Return(result) => RoomOf(result)
    case Evaluate(e) => 1 + Nest(e, 0)
    case Switch(subject, cases) => Max(1 + Nest(subject, 0), RoomOfCases(cases))
    case If(cond, t, e) => Max(1 + Nest(cond, 0), Max(Room(t), if e.Some? then Room(e.value) else 0))
    case While(cond, body) => Max(1 + Nest(cond, 0), Room(body))
    case For(init, test, update, body) => Max(Max(RoomOfPart(init), RoomOf(test)), Max(RoomOfPart(update), Room(body)))
    case TextAt(x, y, _) => Max(1 + Nest(x, 0), 1 + Nest(y, 0))
    case Block(stmts) => RoomOfAll(stmts)
    case _ => 0
  }

  function RoomOfAll(ss: seq<Stmt>): nat
    decreases ss
  {
    if ss == [] then 0 else Max(1 + Room(ss[0]), RoomOfAll(ss[1..]))
  }

  function RoomOfCases(cases: seq<Case>): nat
    decreases cases
  {
    if cases == [] then 0
    else Max(RoomOf(cases[0].value), Max(RoomOfAll(cases[0].body), RoomOfCases(cases[1..])))
  }

  // ----- Places in the token list -----

  lemma AtTwo(ts: seq<Token>, i: nat, a: Token, b: Token)
    requires P.At(ts, i, [a, b])
    ensures i + 2 < |ts| && ts[i] == a && ts[i + 1] == b
  {
    assert ts[i..i + 2][0] == a && ts[i..i + 2][1] == b;
  }

  lemma AtFirst(ts: seq<Token>, i: nat, part: seq<Token>)
    requires P.At(ts, i, part) && part != []
    ensures i < |ts| && ts[i] == part[0]
  {
    assert ts[i] == ts[i..i + |part|][0];
  }

  /** An expression in its place, in front of a token that does not continue it. */
  lemma ExprHere(ts: seq<Token>, e: Expr, i: nat, d: nat)
    requires Terminated(ts) && P.Printable(ts, e) && d + 1 + Nest(e, 0) <= MAX_PARSE_DEPTH
    requires P.At(ts, i, Lean(ts, e, 0)) && Follower(ts[i + |Lean(ts, e, 0)|])
    ensures ParseExpr(ts, i, d) == Parsed(e, i + |Lean(ts, e, 0)|)
  {
    hide ParseExpr, Lean, Nest, P.Printable, P.At;
    ParseLeanExpr(ts, e, i, d);
  }

  /** The tokens that stand behind expressions in statements. */
  predicate Follower(t: Token) {
    t == Sym(")") || t == Sym(",") || t == Sym(";") || t == Sym("{") || t == Sym(":")
  }

  lemma FollowersEnd(t: Token)
    requires Follower(t)
    ensures EndsOperand(t, 0)
  {
  }

  // ----- Statements without others inside -----

  lemma FirstAndNoEquals(ts: seq<Token>, e: Expr, i: nat)
    requires P.Printable(ts, e) && P.At(ts, i, Lean(ts, e, 0)) && Follower(ts[i + |Lean(ts, e, 0)|])
    ensures i + 1 < |ts| && StartsExpression(ts[i]) && ts[i] == Lean(ts, e, 0)[0] && ts[i + 1] != Sym("=")
  {
    hide Lean, P.Printable;
    FirstLean(ts, e, 0);
    NoEquals(ts, e, 0);
    var part := Lean(ts, e, 0);
    AtFirst(ts, i, part);
    if |part| > 1 { assert ts[i + 1] == ts[i..i + |part|][1]; assert part[1] in part; }
  }

  /** A binding behind its keyword. */
  lemma BindHere(ts: seq<Token>, binder: Binder, name: string, value: Expr, i: nat, d: nat, err: bool)
    requires Terminated(ts) && P.Printable(ts, value) && d + 1 + Nest(value, 0) <= MAX_PARSE_DEPTH
    requires var part := [Ident(name), Sym("=")] + Lean(ts, value, 0);
      P.At(ts, i, part) && Follower(ts[i + |part|])
    ensures ts[i] == Ident(name) && ts[i + 1] == Sym("=")
    ensures var n := i + 2 + |Lean(ts, value, 0)|;
      && BindAt(ts, i, d, err, binder, false) == Good(Bind(binder, name, value), n, err)
      && (ts[n] == Sym(";") ==> BindAt(ts, i, d, err, binder, true) == Good(Bind(binder, name, value), n + 1, err))
  {
    hide ParseExpr, Lean, Nest, P.Printable, P.At;
    P.AtSplit(ts, i, [Ident(name), Sym("=")], Lean(ts, value, 0));
    AtTwo(ts, i, Ident(name), Sym("="));
    ExprHere(ts, value, i + 2, d);
  }

  lemma BindUnfold(ts: seq<Token>, i: nat, d: nat, err: bool)
    requires Terminated(ts) && i + 1 < |ts|
    ensures ts[i] == Word("let") ==> SimpleAt(ts, i, d, err) == BindAt(ts, i + 1, d, err, Let, true)
    ensures ts[i] == Word("var") ==> SimpleAt(ts, i, d, err) == BindAt(ts, i + 1, d, err, Var, true)
    ensures ts[i] == Word("const") ==> SimpleAt(ts, i, d, err) == BindAt(ts, i + 1, d, err, Let, true)
    ensures ts[i].Ident? && ts[i + 1] == Sym("=") && BindAt(ts, i, d, err, Assign, true).Good? ==>
      SimpleAt(ts, i, d, err) == BindAt(ts, i, d, err, Assign, true)
  {
    hide BindAt, RecoverAt;
  }

  lemma BindComesBack(ts: seq<Token>, s: Stmt, i: nat, d: nat, err: bool)
    requires Terminated(ts) && s.Bind? && Writable(ts, s) && d + Room(s) <= MAX_PARSE_DEPTH
    requires P.At(ts, i, StmtTokens(ts, s))
    ensures SimpleAt(ts, i, d, err) == Good(s, i + |StmtTokens(ts, s)|, err)
    ensures ts[i].Ident? || ts[i] == Word("let") || ts[i] == Word("var")
  {
    hide BindAt, ParseExpr, Lean, Nest, P.Printable, P.At, SimpleAt;
    var key, core := Keyword(s.binder), [Ident(s.name), Sym("=")] + Lean(ts, s.value, 0);
    P.AtSplit(ts, i, key + core, [Sym(";")]);
    P.AtOne(ts, i + |key + core|, Sym(";"));
    P.AtSplit(ts, i, key, core);
    BindHere(ts, s.binder, s.name, s.value, i + |key|, d, err);
    if s.binder != Assign { P.AtOne(ts, i, key[0]); }
    BindUnfold(ts, i, d, err);
  }

  lemma EvaluateComesBack(ts: seq<Token>, e: Expr, i: nat, d: nat, err: bool)
    requires Terminated(ts) && P.Printable(ts, e) && d + 1 + Nest(e, 0) <= MAX_PARSE_DEPTH
    requires P.At(ts, i, Lean(ts, e, 0) + [Sym(";")])
    ensures SimpleAt(ts, i, d, err) == Good(Evaluate(e), i + |Lean(ts, e, 0)| + 1, err)
    ensures StartsExpression(ts[i])
  {
    hide ParseExpr, Lean, Nest, P.Printable, P.At, SkipAt;
    var n := i + |Lean(ts, e, 0)|;
    P.AtSplit(ts, i, Lean(ts, e, 0), [Sym(";")]);
    P.AtOne(ts, n, Sym(";"));
    FirstAndNoEquals(ts, e, i);
    ExprHere(ts, e, i, d);
  }

  lemma PrintComesBack(ts: seq<Token>, e: Expr, i: nat, d: nat, err: bool)
    requires Terminated(ts) && P.Printable(ts, e) && d + 1 + Nest(e, 0) <= MAX_PARSE_DEPTH
    requires P.At(ts, i, [Word("print"), Sym("(")] + (Lean(ts, e, 0) + [Sym(")"), Sym(";")]))
    ensures SimpleAt(ts, i, d, err) == Good(Print(e), i + |Lean(ts, e, 0)| + 4, err) && ts[i] == Word("print")
  {
    hide ParseExpr, Lean, Nest, P.Printable, P.At;
    P.AtSplit(ts, i, [Word("print"), Sym("(")], Lean(ts, e, 0) + [Sym(")"), Sym(";")]);
    AtTwo(ts, i, Word("print"), Sym("("));
    P.AtSplit(ts, i + 2, Lean(ts, e, 0), [Sym(")"), Sym(";")]);
    AtTwo(ts, i + 2 + |Lean(ts, e, 0)|, Sym(")"), Sym(";"));
    ExprHere(ts, e, i + 2, d);
  }

  lemma ReturnComesBack(ts: seq<Token>, result: Option<Expr>, i: nat, d: nat, err: bool)
    requires Terminated(ts) && (result.Some? ==> P.Printable(ts, result.value)) && d + RoomOf(result) <= MAX_PARSE_DEPTH
    requires P.At(ts, i, [Word("return")] + (OptionalTokens(ts, result) + [Sym(";")]))
    ensures SimpleAt(ts, i, d, err) == Good(Return(result), i + |OptionalTokens(ts, result)| + 2, err)
    ensures ts[i] == Word("return")
  {
    hide ParseExpr, Lean, Nest, P.Printable, P.At, SimpleAt;
    P.AtSplit(ts, i, [Word("return")], OptionalTokens(ts, result) + [Sym(";")]);
    P.AtOne(ts, i, Word("return"));
    P.AtSplit(ts, i + 1, OptionalTokens(ts, result), [Sym(";")]);
    P.AtOne(ts, i + 1 + |OptionalTokens(ts, result)|, Sym(";"));
    if result.Some? {
      FirstAndNoEquals(ts, result.value, i + 1);
      ExprHere(ts, result.value, i + 1, d);
    }
    ReturnUnfold(ts, i, d, err);
  }

  lemma ReturnUnfold(ts: seq<Token>, i: nat, d: nat, err: bool)
    requires Terminated(ts) && i + 1 < |ts|
    ensures ts[i] == Word("return") ==> SimpleAt(ts, i, d, err) == ReturnAt(ts, i + 1, d, err)
  {
    hide ReturnAt, AssignmentAt;
  }

  lemma TextComesBack(ts: seq<Token>, x: Expr, y: Expr, message: string, i: nat, d: nat, err: bool)
    requires Terminated(ts) && P.Printable(ts, x) && P.Printable(ts, y)
    requires d + 1 + Nest(x, 0) <= MAX_PARSE_DEPTH && d + 1 + Nest(y, 0) <= MAX_PARSE_DEPTH
    requires P.At(ts, i, TextTokens(Lean(ts, x, 0), Lean(ts, y, 0), message))
    ensures SimpleAt(ts, i, d, err)
         == Good(TextAt(x, y, message), i + |TextTokens(Lean(ts, x, 0), Lean(ts, y, 0), message)|, err)
    ensures ts[i] == Word("text")
  {
    hide ParseExpr, Lean, Nest, P.Printable, P.At, AssignmentAt, TextTokens;
    var n, m := TextShape(ts, i, Lean(ts, x, 0), Lean(ts, y, 0), message);
    ExprHere(ts, x, i + 2, d);
    ExprHere(ts, y, n + 1, d);
  }

  function TextTokens(x: seq<Token>, y: seq<Token>, message: string): seq<Token> {
    [Word("text"), Sym("(")] + (x + ([Sym(",")] + (y + [Sym(","), StrLit(message), Sym(")"), Sym(";")])))
  }

  lemma TextShape(ts: seq<Token>, i: nat, x: seq<Token>, y: seq<Token>, message: string) returns (n: nat, m: nat)
    requires P.At(ts, i, TextTokens(x, y, message))
    ensures n == i + 2 + |x| && m == n + 1 + |y| && m + 4 == i + |TextTokens(x, y, message)| < |ts|
    ensures ts[i] == Word("text") && ts[i + 1] == Sym("(") && P.At(ts, i + 2, x) && ts[n] == Sym(",")
    ensures P.At(ts, n + 1, y)
    ensures ts[m] == Sym(",") && ts[m + 1] == StrLit(message) && ts[m + 2] == Sym(")") && ts[m + 3] == Sym(";")
  {
    hide P.At;
    var end := [Sym(","), StrLit(message), Sym(")"), Sym(";")];
    P.AtSplit(ts, i, [Word("text"), Sym("(")], x + ([Sym(",")] + (y + end)));
    AtTwo(ts, i, Word("text"), Sym("("));
    P.AtSplit(ts, i + 2, x, [Sym(",")] + (y + end));
    n := i + 2 + |x|;
    P.AtSplit(ts, n, [Sym(",")], y + end);
    P.AtOne(ts, n, Sym(","));
    P.AtSplit(ts, n + 1, y, end);
    m := n + 1 + |y|;
    FourTokens(ts, m, end[0], end[1], end[2], end[3]);
  }

  lemma FourTokens(ts: seq<Token>, i: nat, a: Token, b: Token, c: Token, e: Token)
    requires P.At(ts, i, [a, b, c, e])
    ensures i + 4 < |ts| && ts[i] == a && ts[i + 1] == b && ts[i + 2] == c && ts[i + 3] == e
  {
    var part := ts[i..i + 4];
    assert part[0] == a && part[1] == b && part[2] == c && part[3] == e;
  }

  lemma WordsComeBack(ts: seq<Token>, s: Stmt, i: nat, d: nat, err: bool)
    requires Terminated(ts) && (s.Break? || s.Continue? || s.Import? || s.Window?) && P.At(ts, i, StmtTokens(ts, s))
    ensures SimpleAt(ts, i, d, err) == Good(s, i + |StmtTokens(ts, s)|, err)
    ensures ts[i].Word? && ts[i].word in ["break", "continue", "import", "window"]
  {
    hide AssignmentAt, P.At;
    var part := StmtTokens(ts, s);
    TokensAt(ts, i, part);
    assert ts[i] == part[0] && ts[i + 1] == part[1];
    if |part| > 2 { assert ts[i + 2] == part[2]; }
    if |part| > 4 { assert ts[i + 3] == part[3] && ts[i + 4] == part[4]; }
  }

  lemma TokensAt(ts: seq<Token>, i: nat, part: seq<Token>)
    requires P.At(ts, i, part)
    ensures i + |part| < |ts| && forall k :: 0 <= k < |part| ==> ts[i + k] == part[k]
  {
    forall k | 0 <= k < |part| ensures ts[i + k] == part[k] { assert ts[i..i + |part|][k] == part[k]; }
  }

  // ----- Statements with others inside -----

  /** The words that do not start a statement. */
  lemma {:induction false} FirstOfStmt(ts: seq<Token>, s: Stmt)
    requires Writable(ts, s)
    ensures StmtTokens(ts, s) != []
    ensures StartsWell(StmtTokens(ts, s)[0])
    decreases s
  {
    hide Lean, P.Printable, TextTokens, IfTokens, ForTokens, SwitchTokens, PartTokens, OptionalTokens, CaseTokens;
    match s {
      case Evaluate(e) => FirstLean(ts, e, 0);
      case TextAt(x, y, message) => FirstOfText(Lean(ts, x, 0), Lean(ts, y, 0), message);
      case If(c, t, _) =>
        var rest := if s.elseBranch.Some? then [Word("else")] + StmtTokens(ts, s.elseBranch.value) else [];
        FirstOfIf(Lean(ts, c, 0), StmtTokens(ts, t), rest);
      case For(init, test, update, body) =>
        FirstOfFor(PartTokens(ts, init), OptionalTokens(ts, test), PartTokens(ts, update), StmtTokens(ts, body));
      case Switch(e, cases) => FirstOfSwitch(Lean(ts, e, 0), CaseTokens(ts, cases));
      case _ =>
    }
  }

  lemma FirstOfText(x: seq<Token>, y: seq<Token>, message: string)
    ensures TextTokens(x, y, message) != [] && TextTokens(x, y, message)[0] == Word("text")
  {
  }

  lemma FirstOfIf(cond: seq<Token>, thenBlock: seq<Token>, rest: seq<Token>)
    ensures IfTokens(cond, thenBlock, rest) != [] && IfTokens(cond, thenBlock, rest)[0] == Word("if")
  {
  }

  lemma FirstOfFor(init: seq<Token>, test: seq<Token>, update: seq<Token>, body: seq<Token>)
    ensures ForTokens(init, test, update, body) != [] && ForTokens(init, test, update, body)[0] == Word("for")
  {
  }

  lemma FirstOfSwitch(subject: seq<Token>, cases: seq<Token>)
    ensures SwitchTokens(subject, cases) != [] && SwitchTokens(subject, cases)[0] == Word("switch")
  {
  }

  predicate StartsWell(t: Token) {
    !Halts(t, true) && t != Word("else") && t != Word("func") && t != Word("package")
  }

  /** A statement comes back from its tokens, in front of anything but an else. */
  lemma {:induction false} StatementComesBack(ts: seq<Token>, s: Stmt, i: nat, d: nat, err: bool)
    requires Terminated(ts) && Writable(ts, s) && d + 1 + Room(s) <= MAX_PARSE_DEPTH
    requires P.At(ts, i, StmtTokens(ts, s)) && ts[i + |StmtTokens(ts, s)|] != Word("else")
    ensures StatementAt(ts, i, d, err) == Good(s, i + |StmtTokens(ts, s)|, err)
    decreases s, 2
  {
    hide Writable, StmtTokens, Room, InnerAt, P.At;
    InnerComesBack(ts, s, i, d + 1, err);
  }

  lemma {:induction false} InnerComesBack(ts: seq<Token>, s: Stmt, i: nat, d: nat, err: bool)
    requires Terminated(ts) && Writable(ts, s) && d + Room(s) <= MAX_PARSE_DEPTH
    requires P.At(ts, i, StmtTokens(ts, s)) && ts[i + |StmtTokens(ts, s)|] != Word("else")
    ensures InnerAt(ts, i, d, err) == Good(s, i + |StmtTokens(ts, s)|, err)
    decreases s, 1
  {
    hide IfAt, WhileAt, ForAt, SwitchAt, BlockAt, SimpleAt, P.At, Lean, P.Printable, TextTokens, BindTokens, OptionalTokens,
         PartTokens, Nest;
    if s.If? {
      IfComesBack(ts, s, i, d, err);
    } else if s.While? {
      WhileComesBack(ts, s, i, d, err);
    } else if s.For? {
      ForComesBack(ts, s, i, d, err);
    } else if s.Switch? {
      SwitchComesBack(ts, s, i, d, err);
    } else if s.Block? {
      BlockComesBack(ts, s, i, d, err);
    } else {
      SimpleComesBack(ts, s, i, d, err);
    }
  }

  lemma SimpleComesBack(ts: seq<Token>, s: Stmt, i: nat, d: nat, err: bool)
    requires Terminated(ts) && Writable(ts, s) && d + Room(s) <= MAX_PARSE_DEPTH && P.At(ts, i, StmtTokens(ts, s))
    requires !s.If? && !s.While? && !s.For? && !s.Switch? && !s.Block?
    ensures SimpleAt(ts, i, d, err) == Good(s, i + |StmtTokens(ts, s)|, err)
    ensures ts[i] != Sym("{") && (ts[i].Word? ==> ts[i].word !in ["if", "while", "for", "switch"])
  {
    hide SimpleAt, P.At, Lean, P.Printable, TextTokens, BindTokens, OptionalTokens, Nest;
    match s {
      case Bind(_, _, _) => BindComesBack(ts, s, i, d, err);
      case Print(e) => PrintComesBack(ts, e, i, d, err);
      case Return(result) => ReturnComesBack(ts, result, i, d, err);
      case Evaluate(e) => EvaluateComesBack(ts, e, i, d, err);
      case TextAt(x, y, message) => TextComesBack(ts, x, y, message, i, d, err);
      case Break => WordsComeBack(ts, s, i, d, err);
      case Continue => WordsComeBack(ts, s, i, d, err);
      case Import(_) => WordsComeBack(ts, s, i, d, err);
      case Window(_) => WordsComeBack(ts, s, i, d, err);
    }
  }

  /** Statements one behind the other, in front of what ends them. */
  lemma {:induction false} StatementsComeBack(ts: seq<Token>, ss: seq<Stmt>, i: nat, d: nat, err: bool, inSwitch: bool)
    requires Terminated(ts) && AllWritable(ts, ss) && d + RoomOfAll(ss) <= MAX_PARSE_DEPTH
    requires P.At(ts, i, AllTokens(ts, ss)) && Halts(ts[i + |AllTokens(ts, ss)|], inSwitch)
    ensures StatementsAt(ts, i, d, err, inSwitch) == Many(ss, i + |AllTokens(ts, ss)|, err)
    decreases ss
  {
    hide StatementAt, Writable, StmtTokens, Room, P.At;
    if ss != [] {
      var first, more := StmtTokens(ts, ss[0]), AllTokens(ts, ss[1..]);
      P.AtSplit(ts, i, first, more);
      FirstOfStmt(ts, ss[0]);
      AtFirst(ts, i, first);
      NextIsNoElse(ts, ss[1..], i + |first|, inSwitch);
      StatementComesBack(ts, ss[0], i, d, err);
      StatementsComeBack(ts, ss[1..], i + |first|, d, err, inSwitch);
      assert [ss[0]] + ss[1..] == ss;
    }
  }

  lemma NextIsNoElse(ts: seq<Token>, ss: seq<Stmt>, i: nat, inSwitch: bool)
    requires AllWritable(ts, ss) && P.At(ts, i, AllTokens(ts, ss)) && Halts(ts[i + |AllTokens(ts, ss)|], inSwitch)
    ensures ts[i] != Word("else")
  {
    hide Writable, StmtTokens;
    if ss != [] {
      FirstOfStmt(ts, ss[0]);
      AtFirst(ts, i, AllTokens(ts, ss));
    }
  }

  lemma {:induction false} BlockComesBack(ts: seq<Token>, s: Stmt, i: nat, d: nat, err: bool)
    requires Terminated(ts) && s.Block? && Writable(ts, s) && d + Room(s) <= MAX_PARSE_DEPTH
    requires P.At(ts, i, StmtTokens(ts, s))
    ensures BlockAt(ts, i, d, err) == Good(s, i + |StmtTokens(ts, s)|, err) && ts[i] == Sym("{")
    decreases s, 0
  {
    hide StatementsAt, AllTokens, AllWritable, RoomOfAll, P.At;
    var inside := AllTokens(ts, s.stmts);
    P.AtSplit(ts, i, [Sym("{")], inside + [Sym("}")]);
    P.AtOne(ts, i, Sym("{"));
    P.AtSplit(ts, i + 1, inside, [Sym("}")]);
    P.AtOne(ts, i + 1 + |inside|, Sym("}"));
    StatementsComeBack(ts, s.stmts, i + 1, d, err, false);
  }

  /** Any if without else in front of an else would take it. */
  lemma {:induction false} IfComesBack(ts: seq<Token>, s: Stmt, i: nat, d: nat, err: bool)
    requires Terminated(ts) && s.If? && Writable(ts, s) && d + Room(s) <= MAX_PARSE_DEPTH
    requires P.At(ts, i, StmtTokens(ts, s)) && ts[i + |StmtTokens(ts, s)|] != Word("else")
    ensures ts[i] == Word("if") && IfAt(ts, i, d, err) == Good(s, i + |StmtTokens(ts, s)|, err)
    decreases s, 0
  {
    hide BlockAt, ElseAt, ParseExpr, P.Printable, P.At, Writable, StmtTokens, Room, Sound, IfAt, ElseTokens;
    var n, m := IfFront(ts, s, i, d, err);
    if s.elseBranch.Some? { ElseBehind(ts, s, m, d, err); } else { NoElse(ts); }
    IfParsed(ts, i, d, err, s, n, m, i + |StmtTokens(ts, s)|);
  }

  lemma NoElse(ts: seq<Token>)
    ensures ElseTokens(ts, None) == []
  {
  }

  /** The condition and the block behind it. */
  lemma {:induction false} IfFront(ts: seq<Token>, s: Stmt, i: nat, d: nat, err: bool) returns (n: nat, m: nat)
    requires Terminated(ts) && s.If? && Writable(ts, s) && d + Room(s) <= MAX_PARSE_DEPTH
    requires P.At(ts, i, StmtTokens(ts, s))
    ensures i + 1 < |ts| && ts[i] == Word("if") && n < |ts| && m < |ts|
    ensures ParseExpr(ts, i + 1, d) == Parsed(s.cond, n) && BlockAt(ts, n, d, err) == Good(s.thenBlock, m, err)
    ensures s.elseBranch.Some? ==> Writable(ts, s.elseBranch.value)
    ensures P.At(ts, m, ElseTokens(ts, s.elseBranch))
    ensures m + |ElseTokens(ts, s.elseBranch)| == i + |StmtTokens(ts, s)|
    decreases s, 0, 0
  {
    hide BlockAt, ParseExpr, Lean, Nest, P.Printable, P.At, Writable, StmtTokens, Room, IfTokens, Sound, ElseTokens;
    IfUnfold(ts, s);
    var c, t := Lean(ts, s.cond, 0), StmtTokens(ts, s.thenBlock);
    n := IfShape(ts, i, c, t, ElseTokens(ts, s.elseBranch));
    m := n + |t|;
    BlockStart(ts, s.thenBlock, n);
    BlockComesBack(ts, s.thenBlock, n, d, err);
    ExprHere(ts, s.cond, i + 1, d);
  }

  lemma BlockStart(ts: seq<Token>, s: Stmt, i: nat)
    requires s.Block? && Writable(ts, s) && P.At(ts, i, StmtTokens(ts, s))
    ensures i < |ts| && ts[i] == Sym("{")
  {
    hide AllTokens;
    AtFirst(ts, i, StmtTokens(ts, s));
  }

  lemma {:induction false} ElseBehind(ts: seq<Token>, s: Stmt, m: nat, d: nat, err: bool)
    requires Terminated(ts) && s.If? && s.elseBranch.Some? && Writable(ts, s) && Writable(ts, s.elseBranch.value)
    requires d + Room(s) <= MAX_PARSE_DEPTH && P.At(ts, m, ElseTokens(ts, s.elseBranch))
    requires ts[m + |ElseTokens(ts, s.elseBranch)|] != Word("else")
    ensures m + 1 < |ts| && ts[m] == Word("else")
    ensures ElseAt(ts, m + 1, d, err) == Good(s.elseBranch.value, m + |ElseTokens(ts, s.elseBranch)|, err)
    decreases s, 0, 0
  {
    hide ElseAt, P.At, Writable, StmtTokens, Room, IfTokens, Sound, P.Printable, Lean, Nest;
    IfUnfold(ts, s);
    P.AtSplit(ts, m, [Word("else")], StmtTokens(ts, s.elseBranch.value));
    P.AtOne(ts, m, Word("else"));
    ElseComesBack(ts, s.elseBranch.value, m + 1, d, err);
  }

  /** An if from the results of its parts. */
  lemma IfParsed(ts: seq<Token>, i: nat, d: nat, err: bool, s: Stmt, n: nat, m: nat, end: nat)
    requires Terminated(ts) && i + 1 < |ts| && n < |ts| && ts[i] == Word("if") && s.If?
    requires ParseExpr(ts, i + 1, d) == Parsed(s.cond, n) && BlockAt(ts, n, d, err) == Good(s.thenBlock, m, err)
    requires s.elseBranch.None? ==> ts[m] != Word("else") && end == m
    requires s.elseBranch.Some? ==>
      m + 1 < |ts| && ts[m] == Word("else") && ElseAt(ts, m + 1, d, err) == Good(s.elseBranch.value, end, err)
    ensures IfAt(ts, i, d, err) == Good(s, end, err)
  {
    hide BlockAt, ElseAt, ParseExpr, Sound;
  }

  lemma IfUnfold(ts: seq<Token>, s: Stmt)
    requires s.If? && Writable(ts, s)
    ensures P.Printable(ts, s.cond) && s.thenBlock.Block? && Writable(ts, s.thenBlock)
    ensures 1 + Nest(s.cond, 0) <= Room(s) && Room(s.thenBlock) <= Room(s)
    ensures s.elseBranch.Some? ==>
      var e := s.elseBranch.value; (e.If? || e.Block?) && Writable(ts, e) && Room(e) <= Room(s)
    ensures StmtTokens(ts, s)
         == IfTokens(Lean(ts, s.cond, 0), StmtTokens(ts, s.thenBlock), ElseTokens(ts, s.elseBranch))
  {
    hide P.Printable, Lean, Nest, AllWritable, AllTokens, RoomOfAll;
  }

  ghost function ElseTokens(ts: seq<Token>, e: Option<Stmt>): seq<Token>
    requires e.Some? ==> Writable(ts, e.value)
  {
    if e.Some? then [Word("else")] + StmtTokens(ts, e.value) else []
  }

  function IfTokens(cond: seq<Token>, thenBlock: seq<Token>, rest: seq<Token>): seq<Token> {
    [Word("if")] + (cond + (thenBlock + rest))
  }

  lemma IfShape(ts: seq<Token>, i: nat, cond: seq<Token>, thenBlock: seq<Token>, rest: seq<Token>) returns (n: nat)
    requires P.At(ts, i, IfTokens(cond, thenBlock, rest))
    ensures n == i + 1 + |cond| && n + |thenBlock| + |rest| == i + |IfTokens(cond, thenBlock, rest)| < |ts|
    ensures ts[i] == Word("if") && P.At(ts, i + 1, cond) && P.At(ts, n, thenBlock) && P.At(ts, n + |thenBlock|, rest)
  {
    hide P.At;
    n := i + 1 + |cond|;
    P.AtSplit(ts, i, [Word("if")], cond + (thenBlock + rest));
    P.AtOne(ts, i, Word("if"));
    P.AtSplit(ts, i + 1, cond, thenBlock + rest);
    P.AtSplit(ts, n, thenBlock, rest);
    RestInside(ts, n + |thenBlock|, rest);
  }

  lemma {:induction false} ElseComesBack(ts: seq<Token>, s: Stmt, i: nat, d: nat, err: bool)
    requires Terminated(ts) && (s.If? || s.Block?) && Writable(ts, s) && d + Room(s) <= MAX_PARSE_DEPTH
    requires P.At(ts, i, StmtTokens(ts, s)) && ts[i + |StmtTokens(ts, s)|] != Word("else")
    ensures ElseAt(ts, i, d, err) == Good(s, i + |StmtTokens(ts, s)|, err)
    decreases s, 1
  {
    hide IfAt, BlockAt, Writable, StmtTokens, Room, P.At;
    if s.If? { IfComesBack(ts, s, i, d, err); } else { BlockComesBack(ts, s, i, d, err); }
  }

  lemma {:induction false} WhileComesBack(ts: seq<Token>, s: Stmt, i: nat, d: nat, err: bool)
    requires Terminated(ts) && s.While? && Writable(ts, s) && d + Room(s) <= MAX_PARSE_DEPTH
    requires P.At(ts, i, StmtTokens(ts, s))
    ensures ts[i] == Word("while") && WhileAt(ts, i, d, err) == Good(s, i + |StmtTokens(ts, s)|, err)
    decreases s, 0
  {
    hide BlockAt, ParseExpr, Lean, Nest, P.Printable, P.At, AllTokens, AllWritable, RoomOfAll;
    var c, b := Lean(ts, s.cond, 0), StmtTokens(ts, s.body);
    P.AtSplit(ts, i, [Word("while")], c + b);
    P.AtOne(ts, i, Word("while"));
    P.AtSplit(ts, i + 1, c, b);
    BlockComesBack(ts, s.body, i + 1 + |c|, d, err);
    ExprHere(ts, s.cond, i + 1, d);
  }

  // ----- For loops -----

  lemma InitComesBack(ts: seq<Token>, init: Option<Stmt>, i: nat, d: nat)
    requires Terminated(ts) && InitWritable(ts, init) && d + RoomOfPart(init) <= MAX_PARSE_DEPTH
    requires P.At(ts, i, PartTokens(ts, init)) && ts[i + |PartTokens(ts, init)|] == Sym(";")
    ensures InitAt(ts, i, d) == Part(init, i + |PartTokens(ts, init)|)
  {
    hide BindAt, ParseExpr, Lean, Nest, P.Printable, P.At, Misspelt;
    if init.Some? {
      if init.value.Bind? {
        var s := init.value;
        var key, core := Keyword(s.binder), [Ident(s.name), Sym("=")] + Lean(ts, s.value, 0);
        P.AtSplit(ts, i, key, core);
        BindHere(ts, s.binder, s.name, s.value, i + |key|, d, false);
        if s.binder != Assign { P.AtOne(ts, i, key[0]); }
      } else {
        FirstAndNoEquals(ts, init.value.e, i);
        ExprHere(ts, init.value.e, i, d);
      }
    }
  }

  lemma UpdateComesBack(ts: seq<Token>, update: Option<Stmt>, i: nat, d: nat)
    requires Terminated(ts) && UpdateWritable(ts, update) && d + RoomOfPart(update) <= MAX_PARSE_DEPTH
    requires P.At(ts, i, PartTokens(ts, update)) && ts[i + |PartTokens(ts, update)|] == Sym(")")
    ensures UpdateAt(ts, i, d) == Part(update, i + |PartTokens(ts, update)|)
  {
    hide BindAt, ParseExpr, Lean, Nest, P.Printable, P.At;
    if update.Some? {
      if update.value.Bind? {
        var s := update.value;
        var core := [Ident(s.name), Sym("=")] + Lean(ts, s.value, 0);
        assert [] + core == core;
        BindHere(ts, Assign, s.name, s.value, i, d, false);
      } else {
        FirstAndNoEquals(ts, update.value.e, i);
        ExprHere(ts, update.value.e, i, d);
      }
    }
  }

  /** A part, one token, and the rest. */
  lemma PartThen(ts: seq<Token>, i: nat, part: seq<Token>, t: Token, rest: seq<Token>)
    requires P.At(ts, i, part + ([t] + rest))
    ensures var n := i + |part|; n + 1 + |rest| < |ts| && ts[n] == t && P.At(ts, i, part) && P.At(ts, n + 1, rest)
  {
    hide P.At;
    P.AtSplit(ts, i, part, [t] + rest);
    P.AtSplit(ts, i + |part|, [t], rest);
    P.AtOne(ts, i + |part|, t);
    RestInside(ts, i + |part| + 1, rest);
  }

  lemma RestInside(ts: seq<Token>, i: nat, rest: seq<Token>)
    requires P.At(ts, i, rest)
    ensures i + |rest| < |ts|
  {
  }

  /** Where the four parts of a for loop stand. */
  lemma ForShape(ts: seq<Token>, i: nat, init: seq<Token>, test: seq<Token>, update: seq<Token>, body: seq<Token>)
    returns (a: nat, b: nat, c: nat)
    requires P.At(ts, i, ForTokens(init, test, update, body))
    ensures a == i + 2 + |init| && b == a + 1 + |test| && c == b + 1 + |update|
    ensures c + 1 + |body| == i + |ForTokens(init, test, update, body)| < |ts|
    ensures ts[i] == Word("for") && ts[i + 1] == Sym("(") && P.At(ts, i + 2, init) && ts[a] == Sym(";")
    ensures P.At(ts, a + 1, test) && ts[b] == Sym(";") && P.At(ts, b + 1, update) && ts[c] == Sym(")")
    ensures P.At(ts, c + 1, body)
  {
    hide P.At;
    var tail3 := [Sym(")")] + body;
    var tail2 := [Sym(";")] + (update + tail3);
    var tail1 := [Sym(";")] + (test + tail2);
    P.AtSplit(ts, i, [Word("for"), Sym("(")], init + tail1);
    AtTwo(ts, i, Word("for"), Sym("("));
    PartThen(ts, i + 2, init, Sym(";"), test + tail2);
    a := i + 2 + |init|;
    PartThen(ts, a + 1, test, Sym(";"), update + tail3);
    b := a + 1 + |test|;
    PartThen(ts, b + 1, update, Sym(")"), body);
    c := b + 1 + |update|;
  }

  function ForTokens(init: seq<Token>, test: seq<Token>, update: seq<Token>, body: seq<Token>): seq<Token> {
    [Word("for"), Sym("(")] + (init + ([Sym(";")] + (test + ([Sym(";")] + (update + ([Sym(")")] + body))))))
  }

  lemma {:induction false} ForComesBack(ts: seq<Token>, s: Stmt, i: nat, d: nat, err: bool)
    requires Terminated(ts) && s.For? && Writable(ts, s) && d + Room(s) <= MAX_PARSE_DEPTH
    requires P.At(ts, i, StmtTokens(ts, s))
    ensures ts[i] == Word("for") && ForAt(ts, i, d, err) == Good(s, i + |StmtTokens(ts, s)|, err)
    decreases s, 0
  {
    hide BlockAt, InitAt, UpdateAt, ParseExpr, Lean, Nest, P.Printable, P.At, PartTokens, RoomOfPart, ForTokens, Misspelt,
         Writable, StmtTokens, Room, ForAt, HeadAt, Sound;
    ForUnfold(ts, s);
    var a, b, c := ForShape(ts, i, PartTokens(ts, s.init), OptionalTokens(ts, s.test), PartTokens(ts, s.update),
                            StmtTokens(ts, s.body));
    InitComesBack(ts, s.init, i + 2, d);
    if s.test.Some? {
      FirstAndNoEquals(ts, s.test.value, a + 1);
      ExprHere(ts, s.test.value, a + 1, d);
    }
    UpdateComesBack(ts, s.update, b + 1, d);
    BlockComesBack(ts, s.body, c + 1, d, err);
    HeadParsed(ts, i + 1, d, s, a, b, c);
    ForParsed(ts, i, d, err, s, c + 1, i + |StmtTokens(ts, s)|);
  }

  lemma HeadParsed(ts: seq<Token>, i: nat, d: nat, s: Stmt, a: nat, b: nat, c: nat)
    requires Terminated(ts) && s.For? && i < a < b < c < |ts| && ts[i] == Sym("(")
    requires InitAt(ts, i + 1, d) == Part(s.init, a) && ts[a] == Sym(";")
    requires s.test.None? ==> b == a + 1
    requires s.test.Some? ==> ts[a + 1] != Sym(";") && ParseExpr(ts, a + 1, d) == Parsed(s.test.value, b)
    requires ts[b] == Sym(";") && UpdateAt(ts, b + 1, d) == Part(s.update, c) && ts[c] == Sym(")")
    ensures HeadAt(ts, i, d) == Head(s.init, s.test, s.update, c + 1)
  {
    hide InitAt, UpdateAt, ParseExpr;
    assert TestAt(ts, a + 1, d, s.init) == HeadEndAt(ts, b + 1, d, s.init, s.test);
  }

  lemma ForParsed(ts: seq<Token>, i: nat, d: nat, err: bool, s: Stmt, n: nat, end: nat)
    requires Terminated(ts) && i + 1 < |ts| && n < |ts| && ts[i] == Word("for") && s.For?
    requires HeadAt(ts, i + 1, d) == Head(s.init, s.test, s.update, n) && BlockAt(ts, n, d, err) == Good(s.body, end, err)
    ensures ForAt(ts, i, d, err) == Good(s, end, err)
  {
    hide HeadAt, BlockAt, Sound;
  }

  lemma ForUnfold(ts: seq<Token>, s: Stmt)
    requires s.For? && Writable(ts, s)
    ensures InitWritable(ts, s.init) && UpdateWritable(ts, s.update) && (s.test.Some? ==> P.Printable(ts, s.test.value))
    ensures s.body.Block? && Writable(ts, s.body)
    ensures RoomOfPart(s.init) <= Room(s) && RoomOf(s.test) <= Room(s) && RoomOfPart(s.update) <= Room(s)
    ensures Room(s.body) <= Room(s)
    ensures StmtTokens(ts, s) == ForTokens(PartTokens(ts, s.init), OptionalTokens(ts, s.test), PartTokens(ts, s.update),
                                           StmtTokens(ts, s.body))
  {
    hide P.Printable, Lean, Nest, AllWritable, AllTokens, RoomOfAll, ForTokens, RoomOfPart, Misspelt;
  }

  // ----- Switch -----

  lemma SwitchShape(ts: seq<Token>, i: nat, subject: seq<Token>, cases: seq<Token>) returns (n: nat)
    requires P.At(ts, i, SwitchTokens(subject, cases))
    ensures n == i + 2 + |subject| && n + 3 + |cases| == i + |SwitchTokens(subject, cases)| < |ts|
    ensures ts[i] == Word("switch") && ts[i + 1] == Sym("(") && P.At(ts, i + 2, subject)
    ensures ts[n] == Sym(")") && ts[n + 1] == Sym("{") && P.At(ts, n + 2, cases) && ts[n + 2 + |cases|] == Sym("}")
  {
    hide P.At;
    n := i + 2 + |subject|;
    P.AtSplit(ts, i, [Word("switch"), Sym("(")], subject + ([Sym(")"), Sym("{")] + (cases + [Sym("}")])));
    AtTwo(ts, i, Word("switch"), Sym("("));
    P.AtSplit(ts, i + 2, subject, [Sym(")"), Sym("{")] + (cases + [Sym("}")]));
    P.AtSplit(ts, n, [Sym(")"), Sym("{")], cases + [Sym("}")]);
    AtTwo(ts, n, Sym(")"), Sym("{"));
    P.AtSplit(ts, n + 2, cases, [Sym("}")]);
    P.AtOne(ts, n + 2 + |cases|, Sym("}"));
  }

  function SwitchTokens(subject: seq<Token>, cases: seq<Token>): seq<Token> {
    [Word("switch"), Sym("(")] + (subject + ([Sym(")"), Sym("{")] + (cases + [Sym("}")])))
  }

  lemma {:induction false} SwitchComesBack(ts: seq<Token>, s: Stmt, i: nat, d: nat, err: bool)
    requires Terminated(ts) && s.Switch? && Writable(ts, s) && d + Room(s) <= MAX_PARSE_DEPTH
    requires P.At(ts, i, StmtTokens(ts, s))
    ensures ts[i] == Word("switch") && SwitchAt(ts, i, d, err) == Good(s, i + |StmtTokens(ts, s)|, err)
    decreases s, 0
  {
    hide CasesAt, ParseExpr, Lean, Nest, P.Printable, P.At, CaseTokens, CasesWritable, RoomOfCases,
         SwitchTokens;
    var n := SwitchShape(ts, i, Lean(ts, s.subject, 0), CaseTokens(ts, s.cases));
    ExprHere(ts, s.subject, i + 2, d);
    CasesComeBack(ts, s.cases, n + 2, d, err);
  }

  lemma {:induction false} CasesComeBack(ts: seq<Token>, cases: seq<Case>, i: nat, d: nat, err: bool)
    requires Terminated(ts) && CasesWritable(ts, cases) && d + RoomOfCases(cases) <= MAX_PARSE_DEPTH
    requires P.At(ts, i, CaseTokens(ts, cases)) && ts[i + |CaseTokens(ts, cases)|] == Sym("}")
    ensures CasesAt(ts, i, d, err) == Cases(cases, i + |CaseTokens(ts, cases)|, err)
    decreases cases
  {
    hide CaseBodyAt, ParseExpr, Lean, Nest, P.Printable, P.At, AllTokens, AllWritable, RoomOfAll, CasesAt, CaseHead, RoomOf;
    RestInside(ts, i, CaseTokens(ts, cases));
    if cases == [] { NoCases(ts, i, d, err); }
    if cases != [] {
      var value := cases[0].value;
      var head, tail := CaseHead(ts, value), [Sym(":")] + (AllTokens(ts, cases[0].body) + CaseTokens(ts, cases[1..]));
      P.AtSplit(ts, i, head, tail);
      CaseBodyComesBack(ts, cases, i + |head|, d, err);
      CaseHeadParsed(ts, value, i, d, err);
    }
  }

  lemma NoCases(ts: seq<Token>, i: nat, d: nat, err: bool)
    requires Terminated(ts) && i < |ts|
    ensures ts[i] == Sym("}") ==> CasesAt(ts, i, d, err) == Cases([], i, err)
  {
  }

  lemma CaseHeadParsed(ts: seq<Token>, value: Option<Expr>, i: nat, d: nat, err: bool)
    requires Terminated(ts) && (value.Some? ==> P.Printable(ts, value.value)) && d + RoomOf(value) <= MAX_PARSE_DEPTH
    requires P.At(ts, i, CaseHead(ts, value)) && ts[i + |CaseHead(ts, value)|] == Sym(":")
    ensures CasesAt(ts, i, d, err) == CaseBodyAt(ts, i + |CaseHead(ts, value)|, d, err, value)
  {
    hide ParseExpr, Lean, Nest, P.Printable, P.At, CaseBodyAt;
    if value.Some? {
      P.AtSplit(ts, i, [Word("case")], Lean(ts, value.value, 0));
      P.AtOne(ts, i, Word("case"));
      ExprHere(ts, value.value, i + 1, d);
    } else {
      P.AtOne(ts, i, Word("default"));
    }
  }

  lemma {:induction false} CaseBodyComesBack(ts: seq<Token>, cases: seq<Case>, i: nat, d: nat, err: bool)
    requires cases != [] && Terminated(ts) && CasesWritable(ts, cases) && d + RoomOfCases(cases) <= MAX_PARSE_DEPTH
    requires var part := [Sym(":")] + (AllTokens(ts, cases[0].body) + CaseTokens(ts, cases[1..]));
      P.At(ts, i, part) && ts[i + |part|] == Sym("}")
    ensures ts[i] == Sym(":")
    ensures CaseBodyAt(ts, i, d, err, cases[0].value)
         == Cases(cases, i + 1 + |AllTokens(ts, cases[0].body)| + |CaseTokens(ts, cases[1..])|, err)
    decreases cases, 0
  {
    hide CasesAt, StatementsAt, P.At, AllTokens, AllWritable, RoomOfAll, CaseTokens, P.Printable;
    var body, more := AllTokens(ts, cases[0].body), CaseTokens(ts, cases[1..]);
    P.AtSplit(ts, i, [Sym(":")], body + more);
    P.AtOne(ts, i, Sym(":"));
    P.AtSplit(ts, i + 1, body, more);
    CaseHalts(ts, cases[1..], i + 1 + |body|);
    StatementsComeBack(ts, cases[0].body, i + 1, d, err, true);
    CasesComeBack(ts, cases[1..], i + 1 + |body|, d, err);
    assert [Case(cases[0].value, cases[0].body)] + cases[1..] == cases;
  }

  /** Behind a case stands another one or the end of the switch. */
  lemma CaseHalts(ts: seq<Token>, cases: seq<Case>, i: nat)
    requires CasesWritable(ts, cases) && P.At(ts, i, CaseTokens(ts, cases)) && ts[i + |CaseTokens(ts, cases)|] == Sym("}")
    ensures Halts(ts[i], true)
  {
    hide AllTokens, AllWritable, P.Printable, Lean;
    if cases != [] { AtFirst(ts, i, CaseTokens(ts, cases)); }
  }

  // ----- Functions and programs -----

  ghost predicate DeclWritable(ts: seq<Token>, s: Stmt) {
    if s.Function? then s.body.Block? && Writable(ts, s.body) else Writable(ts, s)
  }

  ghost predicate ProgramWritable(ts: seq<Token>, decls: seq<Stmt>) {
    decls == [] || (DeclWritable(ts, decls[0]) && ProgramWritable(ts, decls[1..]))
  }

  function NameTokens(names: seq<string>): seq<Token> {
    if names == [] then []
    else if |names| == 1 then [Ident(names[0])]
    else [Ident(names[0])] + ([Sym(",")] + NameTokens(names[1..]))
  }

  function FunctionTokens(name: string, params: seq<Token>, body: seq<Token>): seq<Token> {
    [Word("func"), Ident(name)] + ([Sym("(")] + (params + ([Sym(")")] + body)))
  }

  ghost function DeclTokens(ts: seq<Token>, s: Stmt): seq<Token>
    requires DeclWritable(ts, s)
  {
    if s.Function? then FunctionTokens(s.name, NameTokens(s.params), StmtTokens(ts, s.body)) else StmtTokens(ts, s)
  }

  ghost function ProgramTokens(ts: seq<Token>, decls: seq<Stmt>): seq<Token>
    requires ProgramWritable(ts, decls)
  {
    if decls == [] then [] else DeclTokens(ts, decls[0]) + ProgramTokens(ts, decls[1..])
  }

  /** The body of a function is no deeper than its declaration; any other statement is one level deeper. */
  predicate Fits(s: Stmt) {
    if s.Function? then Room(s.body) <= MAX_PARSE_DEPTH else 1 + Room(s) <= MAX_PARSE_DEPTH
  }

  lemma {:induction false} ParamsComeBack(ts: seq<Token>, names: seq<string>, i: nat)
    requires Terminated(ts) && names != [] && P.At(ts, i, NameTokens(names)) && ts[i + |NameTokens(names)|] == Sym(")")
    ensures ParamsAt(ts, i) == Names(names, i + |NameTokens(names)|) && ts[i].Ident?
    decreases |names|
  {
    hide P.At;
    if |names| == 1 {
      P.AtOne(ts, i, Ident(names[0]));
    } else {
      PartThen(ts, i, [Ident(names[0])], Sym(","), NameTokens(names[1..]));
      P.AtOne(ts, i, Ident(names[0]));
      ParamsComeBack(ts, names[1..], i + 2);
      assert [names[0]] + names[1..] == names;
    }
  }

  lemma FunctionShape(ts: seq<Token>, i: nat, name: string, params: seq<Token>, body: seq<Token>) returns (n: nat)
    requires P.At(ts, i, FunctionTokens(name, params, body))
    ensures n == i + 3 + |params| && n + 1 + |body| == i + |FunctionTokens(name, params, body)| < |ts|
    ensures ts[i] == Word("func") && ts[i + 1] == Ident(name) && ts[i + 2] == Sym("(")
    ensures P.At(ts, i + 3, params) && ts[n] == Sym(")") && P.At(ts, n + 1, body)
  {
    hide P.At;
    PartThen(ts, i, [Word("func"), Ident(name)], Sym("("), params + ([Sym(")")] + body));
    AtTwo(ts, i, Word("func"), Ident(name));
    PartThen(ts, i + 3, params, Sym(")"), body);
    n := i + 3 + |params|;
  }

  /** A function comes back with its parameters and its body. */
  lemma FunctionComesBack(ts: seq<Token>, s: Stmt, i: nat, d: nat, err: bool)
    requires Terminated(ts) && s.Function? && DeclWritable(ts, s) && d + Room(s.body) <= MAX_PARSE_DEPTH
    requires P.At(ts, i, DeclTokens(ts, s))
    ensures ts[i] == Word("func") && FunctionAt(ts, i, d, err) == Good(s, i + |DeclTokens(ts, s)|, err)
  {
    hide BlockAt, ParamsAt, P.At, Writable, StmtTokens, FunctionTokens, NameTokens, Room, Sound;
    var params := NameTokens(s.params);
    var n := FunctionShape(ts, i, s.name, params, StmtTokens(ts, s.body));
    BlockComesBack(ts, s.body, n + 1, d, err);
    if s.params != [] { ParamsComeBack(ts, s.params, i + 3); } else { NoParams(); }
  }

  lemma NoParams()
    ensures NameTokens([]) == []
  {
  }

  lemma DeclarationComesBack(ts: seq<Token>, s: Stmt, i: nat, err: bool)
    requires Terminated(ts) && DeclWritable(ts, s) && Fits(s)
    requires P.At(ts, i, DeclTokens(ts, s)) && ts[i + |DeclTokens(ts, s)|] != Word("else")
    ensures DeclarationAt(ts, i, err) == Good(s, i + |DeclTokens(ts, s)|, err)
  {
    hide StatementAt, FunctionAt, P.At, Writable, StmtTokens, FunctionTokens, NameTokens, Room;
    if s.Function? {
      FunctionComesBack(ts, s, i, 0, err);
    } else {
      FirstOfStmt(ts, s);
      AtFirst(ts, i, StmtTokens(ts, s));
      StatementComesBack(ts, s, i, 0, err);
    }
  }

  lemma FirstOfDecl(ts: seq<Token>, s: Stmt)
    requires DeclWritable(ts, s)
    ensures DeclTokens(ts, s) != []
    ensures var t := DeclTokens(ts, s)[0]; t != Word("else") && t != EndOfFile && t != Word("package")
  {
    hide Writable, StmtTokens;
    if !s.Function? { FirstOfStmt(ts, s); }
  }

  /** Declarations one behind the other, up to the end of the file. */
  lemma {:induction false} DeclarationsComeBack(ts: seq<Token>, decls: seq<Stmt>, i: nat, err: bool)
    requires Terminated(ts) && ProgramWritable(ts, decls) && forall k :: 0 <= k < |decls| ==> Fits(decls[k])
    requires P.At(ts, i, ProgramTokens(ts, decls)) && i + |ProgramTokens(ts, decls)| == |ts| - 1
    ensures DeclarationsAt(ts, i, err) == Many(decls, |ts| - 1, err)
    decreases decls
  {
    hide DeclarationAt, DeclWritable, DeclTokens, P.At, Fits;
    if decls != [] {
      var first, more := DeclTokens(ts, decls[0]), ProgramTokens(ts, decls[1..]);
      P.AtSplit(ts, i, first, more);
      FirstOfDecl(ts, decls[0]);
      AtFirst(ts, i, first);
      if decls[1..] != [] {
        FirstOfDecl(ts, decls[1]);
        AtFirst(ts, i + |first|, more);
      }
      DeclarationComesBack(ts, decls[0], i, err);
      forall k | 0 <= k < |decls[1..]| ensures Fits(decls[1..][k]) { assert decls[1..][k] == decls[k + 1]; }
      DeclarationsComeBack(ts, decls[1..], i + |first|, err);
      assert [decls[0]] + decls[1..] == decls;
    }
  }

  function PackageTokens(package: Option<string>): seq<Token> {
    if package.Some? then [Word("package"), Ident(package.value), Sym(";")] else []
  }

  /** A whole program comes back from its tokens, declaration by declaration. */
  lemma ProgramComesBack(ts: seq<Token>, package: Option<string>, decls: seq<Stmt>)
    requires Terminated(ts) && ProgramWritable(ts, decls) && forall k :: 0 <= k < |decls| ==> Fits(decls[k])
    requires ts == PackageTokens(package) + ProgramTokens(ts, decls) + [EndOfFile]
    ensures ProgramAt(ts) == Program(package, decls, false)
  {
    hide DeclarationsAt, ProgramWritable, ProgramTokens, Fits;
    var head, body := PackageTokens(package), ProgramTokens(ts, decls);
    assert ts[|head|..|head| + |body|] == body;
    DeclarationsComeBack(ts, decls, |head|, false);
    if package.Some? {
      assert ts[0] == head[0] && ts[1] == head[1] && ts[2] == head[2];
    } else {
      FirstOfProgram(ts, decls);
    }
  }

  lemma FirstOfProgram(ts: seq<Token>, decls: seq<Stmt>)
    requires ProgramWritable(ts, decls) && ts == [] + ProgramTokens(ts, decls) + [EndOfFile]
    ensures ts[0] != Word("package")
  {
    hide DeclWritable, DeclTokens;
    if decls != [] { FirstOfDecl(ts, decls[0]); }
  }

  // ----- The other spellings -----

  /** const binds like let. */
  lemma ConstIsLet(ts: seq<Token>, name: string, e: Expr, i: nat, d: nat, err: bool)
    requires Terminated(ts) && P.Printable(ts, e) && d + 1 + Nest(e, 0) <= MAX_PARSE_DEPTH
    requires P.At(ts, i, [Word("const")] + (([Ident(name), Sym("=")] + Lean(ts, e, 0)) + [Sym(";")]))
    ensures SimpleAt(ts, i, d, err) == Good(Bind(Let, name, e), i + |Lean(ts, e, 0)| + 4, err)
  {
    hide ParseExpr, Lean, Nest, P.Printable, P.At, SimpleAt, BindAt;
    var core := [Ident(name), Sym("=")] + Lean(ts, e, 0);
    P.AtSplit(ts, i, [Word("const")], core + [Sym(";")]);
    P.AtOne(ts, i, Word("const"));
    P.AtSplit(ts, i + 1, core, [Sym(";")]);
    P.AtOne(ts, i + 1 + |core|, Sym(";"));
    BindHere(ts, Let, name, e, i + 1, d, err);
    BindUnfold(ts, i, d, err);
  }

  /** print may leave out the parentheses in front of what does not start with one. */
  lemma BarePrint(ts: seq<Token>, e: Expr, i: nat, d: nat, err: bool)
    requires Terminated(ts) && P.Printable(ts, e) && d + 1 + Nest(e, 0) <= MAX_PARSE_DEPTH
    requires P.At(ts, i, [Word("print")] + (Lean(ts, e, 0) + [Sym(";")])) && ts[i + 1] != Sym("(")
    ensures SimpleAt(ts, i, d, err) == Good(Print(e), i + |Lean(ts, e, 0)| + 2, err)
  {
    hide ParseExpr, Lean, Nest, P.Printable, P.At, AssignmentAt;
    P.AtSplit(ts, i, [Word("print")], Lean(ts, e, 0) + [Sym(";")]);
    P.AtOne(ts, i, Word("print"));
    P.AtSplit(ts, i + 1, Lean(ts, e, 0), [Sym(";")]);
    P.AtOne(ts, i + 1 + |Lean(ts, e, 0)|, Sym(";"));
    ExprHere(ts, e, i + 1, d);
  }

  /** prints takes a string in brackets. */
  lemma PrintsText(ts: seq<Token>, message: string, i: nat, d: nat, err: bool)
    requires Terminated(ts) && P.At(ts, i, [Word("prints"), Sym("["), StrLit(message), Sym("]"), Sym(";")])
    ensures SimpleAt(ts, i, d, err) == Good(Print(Text(message)), i + 5, err)
  {
    hide AssignmentAt, P.At;
    var part := [Word("prints"), Sym("["), StrLit(message), Sym("]"), Sym(";")];
    TokensAt(ts, i, part);
    assert ts[i] == part[0] && ts[i + 1] == part[1] && ts[i + 2] == part[2] && ts[i + 3] == part[3] && ts[i + 4] == part[4];
  }

  /** A for loop may have a condition alone. */
  lemma ForCondition(ts: seq<Token>, i: nat, d: nat, e: Expr)
    requires Terminated(ts) && P.Printable(ts, e) && d + 1 + Nest(e, 0) <= MAX_PARSE_DEPTH
    requires P.At(ts, i, Lean(ts, e, 0)) && ts[i + |Lean(ts, e, 0)|] == Sym("{") && ts[i] != Sym("(")
    ensures HeadAt(ts, i, d) == Head(None, Some(e), None, i + |Lean(ts, e, 0)|)
  {
    hide ParseExpr, Lean, Nest, P.Printable, P.At;
    ExprHere(ts, e, i, d);
  }
}
