/** The statements of the compiler's recursive-descent parser (compiler/src/parser.c) and how it recovers: what
    every token list is parsed to, where the cursor stops, and what becomes of the depth and the error flag. */
module CpStatements {
  import opened CpLexer
  import opened EditDistance
  import opened CpExprParser
  import opened CpTexts

  /** let and const, var, or a plain assignment. */
  datatype Binder = Let | Var | Assign

  datatype Stmt =
    | Bind(binder: Binder, name: string, value: Expr)
    | Print(e: Expr)
    | Break
    | Continue
    | Return(result: Option<Expr>)
    | Evaluate(e: Expr)
    | Switch(subject: Expr, cases: seq<Case>)
    | If(cond: Expr, thenBlock: Stmt, elseBranch: Option<Stmt>)
    | While(cond: Expr, body: Stmt)
    | For(init: Option<Stmt>, test: Option<Expr>, update: Option<Stmt>, body: Stmt)
    | Import(path: string)
    | Window(title: string)
    | TextAt(x: Expr, y: Expr, message: string)
    | Block(stmts: seq<Stmt>)
    | Function(name: string, params: seq<string>, body: Stmt)

  datatype Case = Case(value: Option<Expr>, body: seq<Stmt>)

  /** The empty block that stands for skipped tokens. */
  const NOOP: Stmt := Block([])

  // ----- How deep statements nest -----

  function Max(a: nat, b: nat): nat { if a < b then b else a }

  /** The greatest number of statements inside one another below s; an else-if adds none. */
  function Nesting(s: Stmt): nat
    decreases s
  {
    match s
    case Switch(_, cases) => NestingOfCases(cases)
    case If(_, t, e) => Max(Nesting(t), if e.Some? then Nesting(e.value) else 0)
    case While(_, body) => Nesting(body)
    case For(_, _, _, body) => Nesting(body)
    case Block(stmts) => NestingOfAll(stmts)
    case Function(_, _, body) => Nesting(body)
    case _ => 0
  }

  function NestingOfAll(ss: seq<Stmt>): nat
    decreases ss
  {
    if ss == [] then 0 else Max(1 + Nesting(ss[0]), NestingOfAll(ss[1..]))
  }

  function NestingOfCases(cases: seq<Case>): nat
    decreases cases
  {
    if cases == [] then 0 else Max(NestingOfAll(cases[0].body), NestingOfCases(cases[1..]))
  }

  // ----- Ends of statements and skipping -----

  const STARTERS: seq<string> := [
    "import", "let", "var", "const", "print", "prints", "if", "while", "for", "return", "break", "continue",
    "switch", "window", "text", "func", "package", "else"
  ]

  predicate StartsStatement(t: Token) { t.Ident? || t == Sym("{") || (t.Word? && t.word in STARTERS) }

  /** A statement may end before a closing brace, the end of the file or the start of another one. */
  predicate Ends(t: Token) { t == Sym(";") || t == Sym("}") || t == EndOfFile || StartsStatement(t) }

  function PastEnd(ts: seq<Token>, i: nat): (r: nat)
    requires Terminated(ts) && i < |ts|
    ensures i <= r < |ts|
  {
    if ts[i] == Sym(";") then i + 1 else i
  }

  function Parens(t: Token, open: nat): nat {
    if t == Sym("(") then open + 1 else if t == Sym(")") && open > 0 then open - 1 else open
  }

  /** skip_statement */
  function SkipTo(ts: seq<Token>, i: nat, open: nat, moved: bool): (r: nat)
    requires Terminated(ts) && i < |ts|
    ensures i <= r < |ts| && (!moved && ts[i] != EndOfFile ==> i < r)
    decreases |ts| - i
  {
    var t := ts[i];
    if t == EndOfFile then i
    else if t == Sym(";") then i + 1
    else if open == 0 && t == Sym("}") then (if moved then i else i + 1)
    else if moved && open == 0 && StartsStatement(t) then i
    else SkipTo(ts, i + 1, Parens(t, open), true)
  }

  /** A name within two edits of a keyword. */
  predicate Misspelt(t: Token) {
    t.Ident? && t.name != "" && ClosestIn(t.name, EditDistance.KEYWORDS, NoHint).Hint?
  }

  // ----- The parser as functions -----

  /** Where a statement leaves the cursor and whether an error message is set by then. */
  datatype Step = Fail(next: nat, err: bool) | Good(s: Stmt, next: nat, err: bool)
  datatype Steps = Broken(next: nat, err: bool) | Many(stmts: seq<Stmt>, next: nat, err: bool)
  datatype Cases = BadCases(next: nat, err: bool) | Cases(cases: seq<Case>, next: nat, err: bool)
  datatype Names = BadNames(next: nat) | Names(names: seq<string>, next: nat)
  datatype Part = BadPart(next: nat) | Part(s: Option<Stmt>, next: nat)
  datatype Head = BadHead(next: nat) | Head(init: Option<Stmt>, test: Option<Expr>, update: Option<Stmt>, next: nat)

  /** consume_statement_end behind s */
  function Ended(ts: seq<Token>, s: Stmt, i: nat, err: bool): (r: Step)
    requires Terminated(ts) && i < |ts|
    ensures i <= r.next < |ts| && r.err == err && (r.Good? ==> r.s == s)
  {
    if Ends(ts[i]) then Good(s, PastEnd(ts, i), err) else Fail(i, err)
  }

  /** parse_var_decl_core and parse_assignment_core */
  function BindAt(ts: seq<Token>, i: nat, d: nat, err: bool, binder: Binder, requireEnd: bool): (r: Step)
    requires Terminated(ts) && i < |ts|
    ensures i <= r.next < |ts| && (err ==> r.err) && (r.Good? ==> i < r.next && r.s.Bind? && r.err == err)
  {
    if !ts[i].Ident? then Fail(i, err)
    else if ts[i + 1] != Sym("=") then Fail(i + 1, err)
    else
      match ParseExpr(ts, i + 2, d)
      case Failed(at, e) => Fail(at, err || e)
      case Parsed(v, n) =>
        var s := Bind(binder, ts[i].name, v);
        if requireEnd then Ended(ts, s, n, err) else Good(s, n, err)
  }

  /** parse_expr_statement_core */
  function EvaluateAt(ts: seq<Token>, i: nat, d: nat, err: bool, requireEnd: bool): (r: Step)
    requires Terminated(ts) && i < |ts|
    ensures i <= r.next < |ts| && (err ==> r.err) && (r.Good? ==> i < r.next && r.s.Evaluate? && r.err == err)
  {
    match ParseExpr(ts, i, d)
    case Failed(at, e) => Fail(at, err || e)
    case Parsed(v, n) => if requireEnd then Ended(ts, Evaluate(v), n, err) else Good(Evaluate(v), n, err)
  }

  function PrintAt(ts: seq<Token>, i: nat, d: nat, err: bool): (r: Step)
    requires Terminated(ts) && i < |ts|
    ensures i <= r.next < |ts| && (r.Good? ==> r.s.Print? && r.err == err) && (r.Fail? ==> r.err)
  {
    var paren := ts[i] == Sym("(");
    match ParseExpr(ts, if paren then i + 1 else i, d)
    case Failed(at, _) => Fail(at, true)
    case Parsed(e, n) =>
      if paren && ts[n] != Sym(")") then Fail(n, true)
      else
        var m := if paren then n + 1 else n;
        if Ends(ts[m]) then Good(Print(e), PastEnd(ts, m), err) else Fail(m, true)
  }

  function PrintsAt(ts: seq<Token>, i: nat, err: bool): (r: Step)
    requires Terminated(ts) && i < |ts|
    ensures i <= r.next < |ts| && (err ==> r.err) && (r.Good? ==> r.s.Print? && r.err == err)
  {
    if ts[i] != Sym("[") then Fail(i, true)
    else if !ts[i + 1].StrLit? then Fail(i + 1, true)
    else if ts[i + 2] != Sym("]") then Fail(i + 2, true)
    else Ended(ts, Print(Text(ts[i + 1].s)), i + 3, err)
  }

  function ReturnAt(ts: seq<Token>, i: nat, d: nat, err: bool): (r: Step)
    requires Terminated(ts) && i < |ts|
    ensures i <= r.next < |ts| && (err ==> r.err) && (r.Good? ==> r.s.Return? && r.err == err)
  {
    if ts[i] == Sym(";") || ts[i] == Sym("}") || ts[i] == EndOfFile then Ended(ts, Return(None), i, err)
    else
      match ParseExpr(ts, i, d)
      case Failed(at, e) => Fail(at, err || e)
      case Parsed(v, n) => Ended(ts, Return(Some(v)), n, err)
  }

  function ImportAt(ts: seq<Token>, i: nat, err: bool): (r: Step)
    requires Terminated(ts) && i < |ts| && ts[i] == Word("import")
    ensures i < r.next < |ts| && r.err == err && (r.Good? ==> r.s.Import?)
  {
    if ts[i + 1].StrLit? then Ended(ts, Import(ts[i + 1].s), i + 2, err) else Fail(i + 1, err)
  }

  function WindowAt(ts: seq<Token>, i: nat, err: bool): (r: Step)
    requires Terminated(ts) && i < |ts| && ts[i] == Word("window")
    ensures i < r.next < |ts| && r.err == err && (r.Good? ==> r.s.Window?)
  {
    if ts[i + 1] != Sym("(") then Fail(i + 1, err)
    else if !ts[i + 2].StrLit? then Fail(i + 2, err)
    else if ts[i + 3] != Sym(")") then Fail(i + 3, err)
    else Ended(ts, Window(ts[i + 2].s), i + 4, err)
  }

  function TextStmtAt(ts: seq<Token>, i: nat, d: nat, err: bool): (r: Step)
    requires Terminated(ts) && i < |ts| && ts[i] == Word("text")
    ensures i < r.next < |ts| && (err ==> r.err) && (r.Good? ==> r.s.TextAt? && r.err == err)
  {
    if ts[i + 1] != Sym("(") then Fail(i + 1, err)
    else
      match ParseExpr(ts, i + 2, d)
      case Failed(at, e) => Fail(at, err || e)
      case Parsed(x, n) => if ts[n] == Sym(",") then TextRestAt(ts, n + 1, d, err, x) else Fail(n, err)
  }

  function TextRestAt(ts: seq<Token>, i: nat, d: nat, err: bool, x: Expr): (r: Step)
    requires Terminated(ts) && i < |ts|
    ensures i <= r.next < |ts| && (err ==> r.err) && (r.Good? ==> r.s.TextAt? && r.err == err)
  {
    match ParseExpr(ts, i, d)
    case Failed(at, e) => Fail(at, err || e)
    case Parsed(y, n) =>
      if ts[n] != Sym(",") then Fail(n, err)
      else if !ts[n + 1].StrLit? then Fail(n + 1, err)
      else if ts[n + 2] != Sym(")") then Fail(n + 2, err)
      else Ended(ts, TextAt(x, y, ts[n + 1].s), n + 3, err)
  }

  // ----- The head of a for loop: every failure sets the error message, success sets none -----

  function InitAt(ts: seq<Token>, i: nat, d: nat): (r: Part)
    requires Terminated(ts) && i < |ts|
    ensures i <= r.next < |ts|
  {
    hide BindAt, EvaluateAt, Misspelt;
    if ts[i] == Sym(";") then Part(None, i)
    else if ts[i] == Word("let") then PartOf(BindAt(ts, i + 1, d, false, Let, false))
    else if ts[i] == Word("var") then PartOf(BindAt(ts, i + 1, d, false, Var, false))
    else if ts[i].Ident? && ts[i + 1] == Sym("=") then PartOf(BindAt(ts, i, d, false, Assign, false))
    else if Misspelt(ts[i]) then BadPart(i)
    else PartOf(EvaluateAt(ts, i, d, false, false))
  }

  function PartOf(r: Step): Part { if r.Good? then Part(Some(r.s), r.next) else BadPart(r.next) }

  function UpdateAt(ts: seq<Token>, i: nat, d: nat): (r: Part)
    requires Terminated(ts) && i < |ts|
    ensures i <= r.next < |ts|
  {
    if ts[i] == Sym(")") then Part(None, i)
    else if ts[i].Ident? && ts[i + 1] == Sym("=") then PartOf(BindAt(ts, i, d, false, Assign, false))
    else PartOf(EvaluateAt(ts, i, d, false, false))
  }

  function HeadAt(ts: seq<Token>, i: nat, d: nat): (r: Head)
    requires Terminated(ts) && i < |ts|
    ensures i <= r.next < |ts|
  {
    if ts[i] == Sym("(") then
      match InitAt(ts, i + 1, d)
      case BadPart(n) => BadHead(n)
      case Part(init, n) => if ts[n] == Sym(";") then TestAt(ts, n + 1, d, init) else BadHead(n)
    else
      match ParseExpr(ts, i, d)
      case Failed(at, _) => BadHead(at)
      case Parsed(e, n) => Head(None, Some(e), None, n)
  }

  function TestAt(ts: seq<Token>, i: nat, d: nat, init: Option<Stmt>): (r: Head)
    requires Terminated(ts) && i < |ts|
    ensures i <= r.next < |ts|
  {
    if ts[i] == Sym(";") then HeadEndAt(ts, i + 1, d, init, None)
    else
      match ParseExpr(ts, i, d)
      case Failed(at, _) => BadHead(at)
      case Parsed(e, n) => if ts[n] == Sym(";") then HeadEndAt(ts, n + 1, d, init, Some(e)) else BadHead(n)
  }

  function HeadEndAt(ts: seq<Token>, i: nat, d: nat, init: Option<Stmt>, test: Option<Expr>): (r: Head)
    requires Terminated(ts) && i < |ts|
    ensures i <= r.next < |ts|
  {
    match UpdateAt(ts, i, d)
    case BadPart(n) => BadHead(n)
    case Part(update, n) => if ts[n] == Sym(")") then Head(init, test, update, n + 1) else BadHead(n)
  }

  // ----- Statements that hold statements -----

  /** What holds of every statement: the cursor stays inside, an error message stays set, and what is accepted
      nests no deeper than the limit leaves room for. */
  predicate Sound(ts: seq<Token>, i: nat, d: nat, err: bool, r: Step) {
    && i <= r.next < |ts| && (err ==> r.err)
    && (r.Good? && d <= MAX_PARSE_DEPTH ==> d + Nesting(r.s) <= MAX_PARSE_DEPTH)
  }

  /** parse_statement */
  function StatementAt(ts: seq<Token>, i: nat, d: nat, err: bool): (r: Step)
    requires Terminated(ts) && i < |ts|
    ensures Sound(ts, i, d, err, r)
    ensures r.Good? ==> d + 1 + Nesting(r.s) <= MAX_PARSE_DEPTH && (ts[i] != EndOfFile ==> i < r.next)
    decreases |ts| - i, 20
  {
    if d >= MAX_PARSE_DEPTH then Fail(i, true) else InnerAt(ts, i, d + 1, err)
  }

  /** parse_statement_internal */
  function InnerAt(ts: seq<Token>, i: nat, d: nat, err: bool): (r: Step)
    requires Terminated(ts) && i < |ts|
    ensures Sound(ts, i, d, err, r) && (r.Good? && ts[i] != EndOfFile ==> i < r.next)
    decreases |ts| - i, 19
  {
    var t := ts[i];
    if t == Word("if") then IfAt(ts, i, d, err)
    else if t == Word("while") then WhileAt(ts, i, d, err)
    else if t == Word("for") then ForAt(ts, i, d, err)
    else if t == Word("switch") then SwitchAt(ts, i, d, err)
    else if t == Sym("{") then BlockAt(ts, i, d, err)
    else SimpleAt(ts, i, d, err)
  }

  /** The statements that hold no others, and the way out of everything else. */
  function SimpleAt(ts: seq<Token>, i: nat, d: nat, err: bool): (r: Step)
    requires Terminated(ts) && i < |ts|
    ensures i <= r.next < |ts| && (err ==> r.err)
    ensures r.Good? ==> Nesting(r.s) == 0 && (ts[i] != EndOfFile ==> i < r.next)
  {
    var t := ts[i];
    if t == Word("import") then ImportAt(ts, i, err)
    else if t == Word("let") then BindAt(ts, i + 1, d, err, Let, true)
    else if t == Word("var") then BindAt(ts, i + 1, d, err, Var, true)
    else if t == Word("const") then BindAt(ts, i + 1, d, err, Let, true)
    else if t == Word("print") then PrintAt(ts, i + 1, d, err)
    else if t == Word("prints") then PrintsAt(ts, i + 1, err)
    else if t == Word("return") then ReturnAt(ts, i + 1, d, err)
    else if t == Word("break") then Ended(ts, Break, i + 1, err)
    else if t == Word("continue") then Ended(ts, Continue, i + 1, err)
    else if t == Word("window") then WindowAt(ts, i, err)
    else if t == Word("text") then TextStmtAt(ts, i, d, err)
    else AssignmentAt(ts, i, d, err)
  }

  /** A failed assignment is not taken back: parsing goes on where it failed. */
  function AssignmentAt(ts: seq<Token>, i: nat, d: nat, err: bool): (r: Step)
    requires Terminated(ts) && i < |ts|
    ensures i <= r.next < |ts| && (err ==> r.err)
    ensures r.Good? ==> Nesting(r.s) == 0 && (ts[i] != EndOfFile ==> i < r.next)
  {
    if ts[i].Ident? && ts[i + 1] == Sym("=") then
      var a := BindAt(ts, i, d, err, Assign, true);
      if a.Good? then a else assert a.next > i; RecoverAt(ts, a.next, d, a.err)
    else RecoverAt(ts, i, d, err)
  }

  /** An expression, or the tokens of one statement skipped. */
  function RecoverAt(ts: seq<Token>, i: nat, d: nat, err: bool): (r: Step)
    requires Terminated(ts) && i < |ts|
    ensures i <= r.next < |ts| && (err ==> r.err)
    ensures r.Good? ==> Nesting(r.s) == 0 && (ts[i] != EndOfFile ==> i < r.next)
  {
    var e := EvaluateAt(ts, i, d, err, true);
    if e.Good? || e.err then e else SkipAt(ts, i)
  }

  function SkipAt(ts: seq<Token>, i: nat): (r: Step)
    requires Terminated(ts) && i < |ts|
    ensures i <= r.next < |ts|
    ensures r.Good? ==> r.s == NOOP && (ts[i] != EndOfFile ==> i < r.next)
  {
    hide ClosestIn;
    if Misspelt(ts[i]) then Fail(i, true) else Good(NOOP, SkipTo(ts, i, 0, false), false)
  }

  /** parse_block: every failure has an error message. */
  function BlockAt(ts: seq<Token>, i: nat, d: nat, err: bool): (r: Step)
    requires Terminated(ts) && i < |ts|
    ensures Sound(ts, i, d, err, r) && (r.Good? ==> i < r.next && r.s.Block?) && (r.Fail? ==> r.err)
    decreases |ts| - i, 15
  {
    if ts[i] != Sym("{") then Fail(i, true)
    else
      match StatementsAt(ts, i + 1, d, err, false)
      case Broken(n, _) => Fail(n, true)
      case Many(stmts, n, e) => if ts[n] == Sym("}") then Good(Block(stmts), n + 1, e) else Fail(n, true)
  }

  predicate Halts(t: Token, inSwitch: bool) {
    t == Sym("}") || t == EndOfFile || (inSwitch && (t == Word("case") || t == Word("default")))
  }

  /** The loop over the statements of a block or of a case. */
  function StatementsAt(ts: seq<Token>, i: nat, d: nat, err: bool, inSwitch: bool): (r: Steps)
    requires Terminated(ts) && i < |ts|
    ensures i <= r.next < |ts| && (err ==> r.err)
    ensures r.Many? ==> Halts(ts[r.next], inSwitch)
    ensures r.Many? && d <= MAX_PARSE_DEPTH ==> d + NestingOfAll(r.stmts) <= MAX_PARSE_DEPTH
    decreases |ts| - i, 21
  {
    if Halts(ts[i], inSwitch) then Many([], i, err)
    else
      match StatementAt(ts, i, d, err)
      case Fail(n, e) => Broken(n, e)
      case Good(s, n, e) =>
        match StatementsAt(ts, n, d, e, inSwitch)
        case Broken(m, f) => Broken(m, f)
        case Many(rest, m, f) => Many([s] + rest, m, f)
  }

  function IfAt(ts: seq<Token>, i: nat, d: nat, err: bool): (r: Step)
    requires Terminated(ts) && i < |ts| && ts[i] == Word("if")
    ensures Sound(ts, i, d, err, r) && (r.Good? ==> i < r.next) && (r.Fail? ==> r.err)
    decreases |ts| - i, 16
  {
    match ParseExpr(ts, i + 1, d)
    case Failed(at, _) => Fail(at, true)
    case Parsed(cond, n) =>
      match BlockAt(ts, n, d, err)
      case Fail(m, _) => Fail(m, true)
      case Good(t, m, e) =>
        if ts[m] != Word("else") then Good(If(cond, t, None), m, e)
        else
          match ElseAt(ts, m + 1, d, e)
          case Fail(k, _) => Fail(k, true)
          case Good(f, k, e1) => Good(If(cond, t, Some(f)), k, e1)
  }

  function ElseAt(ts: seq<Token>, i: nat, d: nat, err: bool): (r: Step)
    requires Terminated(ts) && i < |ts|
    ensures Sound(ts, i, d, err, r) && (r.Good? ==> i < r.next)
    decreases |ts| - i, 17
  {
    if ts[i] == Word("if") then IfAt(ts, i, d, err) else BlockAt(ts, i, d, err)
  }

  function WhileAt(ts: seq<Token>, i: nat, d: nat, err: bool): (r: Step)
    requires Terminated(ts) && i < |ts| && ts[i] == Word("while")
    ensures Sound(ts, i, d, err, r) && (r.Good? ==> i < r.next)
    decreases |ts| - i, 16
  {
    match ParseExpr(ts, i + 1, d)
    case Failed(at, e) => Fail(at, err || e)
    case Parsed(cond, n) =>
      match BlockAt(ts, n, d, err)
      case Fail(m, e) => Fail(m, e)
      case Good(body, m, e) => Good(While(cond, body), m, e)
  }

  function ForAt(ts: seq<Token>, i: nat, d: nat, err: bool): (r: Step)
    requires Terminated(ts) && i < |ts| && ts[i] == Word("for")
    ensures Sound(ts, i, d, err, r) && (r.Good? ==> i < r.next) && (r.Fail? ==> r.err)
    decreases |ts| - i, 16
  {
    match HeadAt(ts, i + 1, d)
    case BadHead(n) => Fail(n, true)
    case Head(init, test, update, n) =>
      match BlockAt(ts, n, d, err)
      case Fail(m, _) => Fail(m, true)
      case Good(body, m, e) => Good(For(init, test, update, body), m, e)
  }

  function SwitchAt(ts: seq<Token>, i: nat, d: nat, err: bool): (r: Step)
    requires Terminated(ts) && i < |ts| && ts[i] == Word("switch")
    ensures Sound(ts, i, d, err, r) && (r.Good? ==> i < r.next)
    decreases |ts| - i, 16
  {
    if ts[i + 1] != Sym("(") then Fail(i + 1, err)
    else
      match ParseExpr(ts, i + 2, d)
      case Failed(at, e) => Fail(at, err || e)
      case Parsed(subject, n) =>
        if ts[n] != Sym(")") then Fail(n, err)
        else if ts[n + 1] != Sym("{") then Fail(n + 1, err)
        else
          match CasesAt(ts, n + 2, d, err)
          case BadCases(m, e) => Fail(m, e)
          case Cases(cases, m, e) => if ts[m] == Sym("}") then Good(Switch(subject, cases), m + 1, e) else Fail(m, e)
  }

  function CasesAt(ts: seq<Token>, i: nat, d: nat, err: bool): (r: Cases)
    requires Terminated(ts) && i < |ts|
    ensures i <= r.next < |ts| && (err ==> r.err)
    ensures r.Cases? && d <= MAX_PARSE_DEPTH ==> d + NestingOfCases(r.cases) <= MAX_PARSE_DEPTH
    decreases |ts| - i, 23
  {
    if ts[i] == Sym("}") || ts[i] == EndOfFile then Cases([], i, err)
    else if ts[i] == Word("default") then CaseBodyAt(ts, i + 1, d, err, None)
    else if ts[i] != Word("case") then BadCases(i, err)
    else
      match ParseExpr(ts, i + 1, d)
      case Failed(at, e) => BadCases(at, err || e)
      case Parsed(v, n) => CaseBodyAt(ts, n, d, err, Some(v))
  }

  /** A case from its colon on, and the cases behind it. */
  function CaseBodyAt(ts: seq<Token>, i: nat, d: nat, err: bool, value: Option<Expr>): (r: Cases)
    requires Terminated(ts) && i < |ts|
    ensures i <= r.next < |ts| && (err ==> r.err)
    ensures r.Cases? && d <= MAX_PARSE_DEPTH ==> d + NestingOfCases(r.cases) <= MAX_PARSE_DEPTH
    decreases |ts| - i, 22
  {
    if ts[i] != Sym(":") then BadCases(i, err)
    else
      match StatementsAt(ts, i + 1, d, err, true)
      case Broken(n, e) => BadCases(n, e)
      case Many(body, n, e) =>
        match CasesAt(ts, n, d, e)
        case BadCases(m, f) => BadCases(m, f)
        case Cases(rest, m, f) => Cases([Case(value, body)] + rest, m, f)
  }

  // ----- Functions and the program -----

  function ParamsAt(ts: seq<Token>, i: nat): (r: Names)
    requires Terminated(ts) && i < |ts|
    ensures i <= r.next < |ts|
    decreases |ts| - i
  {
    if !ts[i].Ident? then BadNames(i)
    else if ts[i + 1] != Sym(",") then Names([ts[i].name], i + 1)
    else
      match ParamsAt(ts, i + 2)
      case BadNames(n) => BadNames(n)
      case Names(rest, n) => Names([ts[i].name] + rest, n)
  }

  /** parse_function: every failure has an error message. */
  function FunctionAt(ts: seq<Token>, i: nat, d: nat, err: bool): (r: Step)
    requires Terminated(ts) && i < |ts| && ts[i] == Word("func")
    ensures Sound(ts, i, d, err, r) && (r.Good? ==> i < r.next) && (r.Fail? ==> r.err)
  {
    if !ts[i + 1].Ident? then Fail(i + 1, true)
    else if ts[i + 2] != Sym("(") then Fail(i + 2, true)
    else
      var params := if ts[i + 3] == Sym(")") then Names([], i + 3) else ParamsAt(ts, i + 3);
      match params
      case BadNames(n) => Fail(n, true)
      case Names(names, n) =>
        if ts[n] != Sym(")") then Fail(n, true)
        else
          match BlockAt(ts, n + 1, d, err)
          case Fail(m, _) => Fail(m, true)
          case Good(body, m, e) => Good(Function(ts[i + 1].name, names, body), m, e)
  }

  datatype Program = Refused(next: nat, err: bool) | Program(package: Option<string>, decls: seq<Stmt>, err: bool)

  function DeclarationAt(ts: seq<Token>, i: nat, err: bool): (r: Step)
    requires Terminated(ts) && i < |ts|
    ensures Sound(ts, i, 0, err, r) && (r.Good? && ts[i] != EndOfFile ==> i < r.next)
  {
    if ts[i] == Word("func") then FunctionAt(ts, i, 0, err) else StatementAt(ts, i, 0, err)
  }

  function DeclarationsAt(ts: seq<Token>, i: nat, err: bool): (r: Steps)
    requires Terminated(ts) && i < |ts|
    ensures i <= r.next < |ts| && (err ==> r.err)
    ensures r.Many? ==> r.next == |ts| - 1 && |r.stmts| <= |ts| - 1 - i
    ensures r.Many? ==> forall k :: 0 <= k < |r.stmts| ==> Nesting(r.stmts[k]) <= MAX_PARSE_DEPTH
    decreases |ts| - i
  {
    if ts[i] == EndOfFile then Many([], i, err)
    else
      match DeclarationAt(ts, i, err)
      case Fail(n, e) => Broken(n, e)
      case Good(s, n, e) =>
        match DeclarationsAt(ts, n, e)
        case Broken(m, f) => Broken(m, f)
        case Many(rest, m, f) => Many([s] + rest, m, f)
  }

  /** parser_parse_program */
  function ProgramAt(ts: seq<Token>): Program
    requires Terminated(ts)
  {
    if ts[0] != Word("package") then ProgramOf(None, DeclarationsAt(ts, 0, false))
    else if !ts[1].Ident? then Refused(1, false)
    else ProgramOf(Some(ts[1].name), DeclarationsAt(ts, PastEnd(ts, 2), false))
  }

  function ProgramOf(package: Option<string>, r: Steps): Program {
    match r
    case Broken(n, e) => Refused(n, e)
    case Many(decls, _, e) => Program(package, decls, e)
  }

  // ----- What skipping stops at -----

  /** The parentheses open in front of k, counted from i. */
  ghost function OpenAt(ts: seq<Token>, i: nat, k: nat): nat
    requires i <= k <= |ts|
    decreases k
  {
    if k == i then 0 else Parens(ts[k - 1], OpenAt(ts, i, k - 1))
  }

  /** A place behind the first token that ends a skip: the end of the file, or, outside parentheses, a closing brace
      or the start of a statement. */
  ghost predicate StopsAt(ts: seq<Token>, i: nat, k: nat)
    requires i <= k < |ts|
  {
    ts[k] == EndOfFile || (OpenAt(ts, i, k) == 0 && (ts[k] == Sym("}") || StartsStatement(ts[k])))
  }

  /** Skipping takes one closing brace; anything else it takes up to the first stop, or through the first semicolon
      if that comes earlier, even one inside parentheses. */
  lemma {:induction false} SkipsToFirstStop(ts: seq<Token>, i: nat)
    requires Terminated(ts) && i < |ts| && ts[i] != EndOfFile
    ensures var r := SkipTo(ts, i, 0, false);
      && i < r < |ts|
      && (ts[i] == Sym("}") ==> r == i + 1)
      && (ts[i] != Sym("}") ==>
            && (ts[r - 1] == Sym(";") || StopsAt(ts, i, r))
            && (forall k :: i <= k < r - 1 ==> ts[k] != Sym(";"))
            && (forall k :: i < k < r ==> !StopsAt(ts, i, k)))
  {
    hide StartsStatement;
    if ts[i] != Sym("}") && ts[i] != Sym(";") {
      SkipsOn(ts, i, i + 1);
    }
  }

  lemma {:induction false} SkipsOn(ts: seq<Token>, i: nat, k: nat)
    requires Terminated(ts) && i < k < |ts|
    ensures var r := SkipTo(ts, k, OpenAt(ts, i, k), true);
      && k <= r < |ts|
      && ((r > k && ts[r - 1] == Sym(";")) || StopsAt(ts, i, r))
      && (forall j :: k <= j < r - 1 ==> ts[j] != Sym(";"))
      && (forall j :: k <= j < r ==> !StopsAt(ts, i, j))
    decreases |ts| - k
  {
    if ts[k] != EndOfFile && ts[k] != Sym(";") && !StopsAt(ts, i, k) {
      SkipsOn(ts, i, k + 1);
    }
  }

  // ----- Assignments that are lost -----

  /** An assignment becomes a statement exactly if its expression parses and the statement may end behind it.
      Otherwise the parser goes on from the place of the failure, and the tokens before it are in no statement. */
  lemma AssignmentKept(ts: seq<Token>, i: nat, d: nat, err: bool)
    requires Terminated(ts) && i < |ts| && ts[i].Ident? && ts[i + 1] == Sym("=")
    ensures var v := ParseExpr(ts, i + 2, d);
      var r := AssignmentAt(ts, i, d, err);
      && (r.Good? && r.s.Bind? <==> v.Parsed? && Ends(ts[v.next]))
      && (v.Parsed? && Ends(ts[v.next]) ==> r == Good(Bind(Assign, ts[i].name, v.e), PastEnd(ts, v.next), err))
      && (v.Parsed? && !Ends(ts[v.next]) ==> r == RecoverAt(ts, v.next, d, err))
      && (v.Failed? ==> r == RecoverAt(ts, v.next, d, err || v.err))
  {
    hide ParseExpr, Ends, SkipTo, Misspelt;
  }

  lemma {:induction false} NumberTier(ts: seq<Token>, i: nat, d: nat, tier: nat)
    requires Terminated(ts) && i < |ts| && ts[i].Num? && tier <= TIERS
    requires !ts[i + 1].Sym? || ts[i + 1] == Sym(";")
    ensures ParseTier(ts, i, d, tier) == Parsed(Number(ts[i].n), i + 1)
    decreases TIERS - tier
  {
    if tier < TIERS {
      NumberTier(ts, i, d, tier + 1);
      var rest := ParseTierRest(ts, i + 1, d, tier, Number(ts[i].n));
    } else {
      hide ParseExpr, ParseCall, ParsePath, InTier;
      var u := ParseUnary(ts, i, d);
      var q := ParsePrimary(ts, i, d);
    }
  }

  const LOSING: seq<Token> := [Ident("x"), Sym("="), Num(1), Num(2), Sym(";"), EndOfFile]

  /** "x = 1 2;" is accepted without an error message as the expression 2: the assignment is gone. */
  lemma AssignmentCanBeLost()
    ensures Terminated(LOSING) && ProgramAt(LOSING) == Program(None, [Evaluate(Number(2))], false)
  {
    hide SkipTo, Misspelt, DeclarationAt, ParseTier, Nesting, Sound;
    var ts := LOSING;
    NumberTier(ts, 2, 2, 0);
    NumberTier(ts, 3, 2, 0);
    LosingStatement();
    var end := DeclarationsAt(ts, 5, false);
    var all := DeclarationsAt(ts, 0, false);
  }

  lemma LosingStatement()
    requires Terminated(LOSING)
    requires ParseTier(LOSING, 2, 2, 0) == Parsed(Number(1), 3) && ParseTier(LOSING, 3, 2, 0) == Parsed(Number(2), 4)
    ensures DeclarationAt(LOSING, 0, false) == Good(Evaluate(Number(2)), 5, false)
  {
    hide SkipTo, Misspelt, ParseTier, Nesting;
    var ts := LOSING;
    var one, two := ParseExpr(ts, 2, 1), ParseExpr(ts, 3, 1);
    AssignmentKept(ts, 0, 1, false);
    assert RecoverAt(ts, 3, 1, false) == Good(Evaluate(Number(2)), 5, false);
    assert InnerAt(ts, 0, 1, false) == SimpleAt(ts, 0, 1, false);
  }

  // ----- What holds of every source -----

  /** Too many opening braces in a row are refused with an error message. */
  lemma {:induction false} TooManyBraces(ts: seq<Token>, i: nat, d: nat, err: bool, k: nat)
    requires Terminated(ts) && i + k < |ts| && d <= MAX_PARSE_DEPTH < d + k
    requires forall j :: i <= j < i + k ==> ts[j] == Sym("{")
    ensures var r := StatementAt(ts, i, d, err); r.Fail? && r.err
    decreases k
  {
    hide Nesting;
    if d < MAX_PARSE_DEPTH {
      TooManyBraces(ts, i + 1, d + 1, err, k - 1);
      var inside := StatementsAt(ts, i + 1, d + 1, err, false);
      var block := BlockAt(ts, i, d + 1, err);
    }
  }

  /** The declarations stand one behind the other from i to the end of the file: each starts where the one before it
      stopped, at marks that strictly advance. */
  ghost predicate InTurn(ts: seq<Token>, i: nat, decls: seq<Stmt>, marks: seq<nat>) {
    && |marks| == |decls| + 1 && marks[0] == i && marks[|decls|] == |ts| - 1
    && forall k :: 0 <= k < |decls| ==> DeclaredBetween(ts, marks[k], decls[k], marks[k + 1])
  }

  /** Parsing a declaration at i gives s and stops at next, which is further on. */
  ghost predicate DeclaredBetween(ts: seq<Token>, i: nat, s: Stmt, next: nat) {
    && Terminated(ts) && i < next < |ts|
    && exists before: bool, after: bool :: DeclarationAt(ts, i, before) == Good(s, next, after)
  }

  lemma {:induction false} DeclarationsInTurn(ts: seq<Token>, i: nat, err: bool) returns (marks: seq<nat>)
    requires Terminated(ts) && i < |ts|
    ensures var r := DeclarationsAt(ts, i, err); r.Many? ==> r.next == |ts| - 1 && InTurn(ts, i, r.stmts, marks)
    decreases |ts| - i
  {
    hide DeclarationAt, Nesting, DeclaredBetween;
    marks := [i];
    var r := DeclarationsAt(ts, i, err);
    if ts[i] != EndOfFile && r.Many? {
      var h := DeclarationAt(ts, i, err);
      assert DeclaredBetween(ts, i, h.s, h.next) by { FirstDeclared(ts, i, err); }
      var more := DeclarationsInTurn(ts, h.next, h.err);
      var rest := DeclarationsAt(ts, h.next, h.err);
      marks := [i] + more;
      forall k | 0 <= k < |r.stmts| ensures DeclaredBetween(ts, marks[k], r.stmts[k], marks[k + 1]) {
        if k > 0 {
          assert marks[k] == more[k - 1] && marks[k + 1] == more[k] && r.stmts[k] == rest.stmts[k - 1];
        }
      }
    }
  }

  lemma FirstDeclared(ts: seq<Token>, i: nat, err: bool)
    requires Terminated(ts) && i < |ts| && ts[i] != EndOfFile && DeclarationAt(ts, i, err).Good?
    ensures var h := DeclarationAt(ts, i, err); DeclaredBetween(ts, i, h.s, h.next)
  {
    hide FunctionAt, StatementAt, Nesting;
    var h := DeclarationAt(ts, i, err);
    assert DeclarationAt(ts, i, err) == Good(h.s, h.next, h.err);
  }

  /** Every source text the lexer accepts is parsed to an end: either it is refused, or its declarations were read one
      behind the other, each from at least one token, up to the end of the file, and all nest within the limit. */
  lemma EverySourceEnds(source: string)
    requires Lex(source).Some?
    ensures var ts := Lex(source).value + [EndOfFile];
      && Terminated(ts)
      && (ProgramAt(ts).Program? ==>
            var p := ProgramAt(ts);
            && (exists start: nat, marks: seq<nat> :: start <= 3 && InTurn(ts, start, p.decls, marks))
            && (p.package.None? ==> exists marks: seq<nat> :: InTurn(ts, 0, p.decls, marks))
            && forall k :: 0 <= k < |p.decls| ==> Nesting(p.decls[k]) <= MAX_PARSE_DEPTH)
  {
    hide Nesting, DeclarationsAt, InTurn, Lex;
    NoEndInside(source);
    var ts := Lex(source).value + [EndOfFile];
    if ProgramAt(ts).Program? {
      var start: nat := if ts[0] == Word("package") then PastEnd(ts, 2) else 0;
      var marks := DeclarationsInTurn(ts, start, false);
    }
  }

  // ----- The parser in its own form -----

  /** What a method returns, where it leaves the cursor and the error flag it leaves, all as the function says. */
  ghost predicate Came(p: Parser, ok: bool, s: Stmt, r: Step)
    reads p
  {
    ok == r.Good? && (ok ==> s == r.s) && p.current == r.next && p.error == r.err
  }

  method ConsumeEnd(p: Parser) returns (ok: bool)
    requires p.Valid()
    modifies p`current
    ensures p.Valid() && ok == Ends(p.tokens[old(p.current)]) && p.current == PastEnd(p.tokens, old(p.current))
    ensures !ok ==> p.current == old(p.current)
  {
    hide StartsStatement;
    ok := p.Match(Sym(";"));
    if ok { return; }
    ok := p.tokens[p.current] == Sym("}") || p.tokens[p.current] == EndOfFile || StartsStatement(p.tokens[p.current]);
  }

  method SkipStatement(p: Parser)
    requires p.Valid()
    modifies p`current
    ensures p.Valid() && p.current == SkipTo(p.tokens, old(p.current), 0, false)
  {
    hide StartsStatement;
    var open, moved := 0, false;
    while p.tokens[p.current] != EndOfFile
      invariant p.Valid() && old(p.current) <= p.current
      invariant SkipTo(p.tokens, p.current, open, moved) == SkipTo(p.tokens, old(p.current), 0, false)
      decreases |p.tokens| - p.current
    {
      var t := p.tokens[p.current];
      if t == Sym(";") {
        t := p.Advance();
        return;
      }
      if open == 0 && t == Sym("}") {
        if !moved { t := p.Advance(); }
        return;
      }
      if moved && open == 0 && StartsStatement(t) { return; }
      if t == Sym("(") { open := open + 1; } else if t == Sym(")") && open > 0 { open := open - 1; }
      t := p.Advance();
      moved := true;
    }
  }

  /** find_closest_keyword on a token */
  method LooksMisspelt(t: Token) returns (yes: bool)
    ensures yes == Misspelt(t)
  {
    hide ClosestIn;
    yes := false;
    if t.Ident? && t.name != "" {
      var hint := FindClosestKeyword(t.name);
      yes := hint.Hint?;
    }
  }

  method Binding(p: Parser, binder: Binder, requireEnd: bool) returns (ok: bool, s: Stmt)
    requires p.Valid()
    modifies p
    ensures p.Valid() && p.depth == old(p.depth)
    ensures Came(p, ok, s, BindAt(p.tokens, old(p.current), p.depth, old(p.error), binder, requireEnd))
  {
    hide ParseExpr, Ends;
    s := NOOP;
    if !p.tokens[p.current].Ident? { return false, s; }
    var id := p.Advance();
    ok := p.Match(Sym("="));
    if !ok { return; }
    var value;
    ok, value := p.Expression();
    if !ok { return; }
    if requireEnd { ok := ConsumeEnd(p); }
    s := Bind(binder, id.name, value);
  }

  method Evaluation(p: Parser, requireEnd: bool) returns (ok: bool, s: Stmt)
    requires p.Valid()
    modifies p
    ensures p.Valid() && p.depth == old(p.depth)
    ensures Came(p, ok, s, EvaluateAt(p.tokens, old(p.current), p.depth, old(p.error), requireEnd))
  {
    hide ParseExpr, Ends;
    s := NOOP;
    var e;
    ok, e := p.Expression();
    if !ok { return; }
    if requireEnd { ok := ConsumeEnd(p); }
    s := Evaluate(e);
  }

  method PrintStatement(p: Parser) returns (ok: bool, s: Stmt)
    requires p.Valid()
    modifies p
    ensures p.Valid() && p.depth == old(p.depth)
    ensures Came(p, ok, s, PrintAt(p.tokens, old(p.current), p.depth, old(p.error)))
  {
    hide ParseExpr, Ends;
    s := NOOP;
    var paren := p.Match(Sym("("));
    var e;
    ok, e := p.Expression();
    if ok && paren { ok := p.Match(Sym(")")); }
    if ok { ok := ConsumeEnd(p); }
    if !ok {
      p.error := true;
      return;
    }
    s := Print(e);
  }

  method PrintsStatement(p: Parser) returns (ok: bool, s: Stmt)
    requires p.Valid()
    modifies p
    ensures p.Valid() && p.depth == old(p.depth)
    ensures Came(p, ok, s, PrintsAt(p.tokens, old(p.current), old(p.error)))
  {
    hide Ends;
    s := NOOP;
    ok := p.Match(Sym("["));
    if !ok {
      p.error := true;
      return;
    }
    if !p.tokens[p.current].StrLit? {
      p.error := true;
      return false, s;
    }
    var text := p.Advance();
    ok := p.Match(Sym("]"));
    if !ok {
      p.error := true;
      return;
    }
    ok := ConsumeEnd(p);
    s := Print(Text(text.s));
  }

  method ReturnStatement(p: Parser) returns (ok: bool, s: Stmt)
    requires p.Valid()
    modifies p
    ensures p.Valid() && p.depth == old(p.depth)
    ensures Came(p, ok, s, ReturnAt(p.tokens, old(p.current), p.depth, old(p.error)))
  {
    hide ParseExpr, Ends;
    s := Return(None);
    var t := p.tokens[p.current];
    if t != Sym(";") && t != Sym("}") && t != EndOfFile {
      var e;
      ok, e := p.Expression();
      if !ok { return; }
      s := Return(Some(e));
    }
    ok := ConsumeEnd(p);
  }

  /** parse_break_or_continue */
  method Jump(p: Parser, isContinue: bool) returns (ok: bool, s: Stmt)
    requires p.Valid()
    modifies p
    ensures p.Valid() && p.depth == old(p.depth)
    ensures Came(p, ok, s, Ended(p.tokens, if isContinue then Continue else Break, old(p.current), old(p.error)))
  {
    hide Ends;
    s := if isContinue then Continue else Break;
    ok := ConsumeEnd(p);
  }

  method ImportStatement(p: Parser) returns (ok: bool, s: Stmt)
    requires p.Valid() && p.tokens[p.current] == Word("import")
    modifies p
    ensures p.Valid() && p.depth == old(p.depth)
    ensures Came(p, ok, s, ImportAt(p.tokens, old(p.current), old(p.error)))
  {
    hide Ends;
    s := NOOP;
    var path := p.Advance();
    if !p.tokens[p.current].StrLit? { return false, s; }
    path := p.Advance();
    ok := ConsumeEnd(p);
    s := Import(path.s);
  }

  method WindowStatement(p: Parser) returns (ok: bool, s: Stmt)
    requires p.Valid() && p.tokens[p.current] == Word("window")
    modifies p
    ensures p.Valid() && p.depth == old(p.depth)
    ensures Came(p, ok, s, WindowAt(p.tokens, old(p.current), old(p.error)))
  {
    hide Ends;
    s := NOOP;
    var title := p.Advance();
    ok := p.Match(Sym("("));
    if !ok { return; }
    if !p.tokens[p.current].StrLit? { return false, s; }
    title := p.Advance();
    ok := p.Match(Sym(")"));
    if !ok { return; }
    ok := ConsumeEnd(p);
    s := Window(title.s);
  }

  method TextStatement(p: Parser) returns (ok: bool, s: Stmt)
    requires p.Valid() && p.tokens[p.current] == Word("text")
    modifies p
    ensures p.Valid() && p.depth == old(p.depth)
    ensures Came(p, ok, s, TextStmtAt(p.tokens, old(p.current), p.depth, old(p.error)))
  {
    hide ParseExpr, TextRestAt;
    s := NOOP;
    var word := p.Advance();
    ok := p.Match(Sym("("));
    if !ok { return; }
    var x;
    ok, x := p.Expression();
    if !ok { return; }
    ok := p.Match(Sym(","));
    if !ok { return; }
    ok, s := TextRest(p, x);
  }

  /** parse_text behind its first comma. */
  method TextRest(p: Parser, x: Expr) returns (ok: bool, s: Stmt)
    requires p.Valid()
    modifies p
    ensures p.Valid() && p.depth == old(p.depth)
    ensures Came(p, ok, s, TextRestAt(p.tokens, old(p.current), p.depth, old(p.error), x))
  {
    hide ParseExpr, Ends;
    s := NOOP;
    var y;
    ok, y := p.Expression();
    if !ok { return; }
    ok := p.Match(Sym(","));
    if !ok { return; }
    if !p.tokens[p.current].StrLit? { return false, s; }
    var message := p.Advance();
    ok := p.Match(Sym(")"));
    if !ok { return; }
    ok := ConsumeEnd(p);
    s := TextAt(x, y, message.s);
  }

  method AssignmentStarts(p: Parser) returns (yes: bool)
    requires p.Valid()
    ensures yes == (p.tokens[p.current].Ident? && p.tokens[p.current + 1] == Sym("="))
  {
    yes := p.tokens[p.current].Ident? && p.tokens[p.current + 1] == Sym("=");
  }

  /** The cursor and the flag behind a part of a for loop's head. */
  ghost predicate CamePart(p: Parser, before: bool, ok: bool, s: Option<Stmt>, r: Part)
    reads p
  {
    ok == r.Part? && (ok ==> s == r.s) && p.current == r.next && p.error == (before || !ok)
  }

  method ForInit(p: Parser) returns (ok: bool, init: Option<Stmt>)
    requires p.Valid()
    modifies p
    ensures p.Valid() && p.depth == old(p.depth)
    ensures CamePart(p, old(p.error), ok, init, InitAt(p.tokens, old(p.current), p.depth))
  {
    hide BindAt, EvaluateAt, Misspelt;
    PartsIgnoreErrors(p.tokens, p.current, p.depth, p.error);
    var t := p.tokens[p.current];
    if t == Sym(";") { return true, None; }
    var s;
    if t == Word("let") {
      t := p.Advance();
      PartsIgnoreErrors(p.tokens, p.current, p.depth, p.error);
      ok, s := Binding(p, Let, false);
    } else if t == Word("var") {
      t := p.Advance();
      PartsIgnoreErrors(p.tokens, p.current, p.depth, p.error);
      ok, s := Binding(p, Var, false);
    } else {
      var assignment := AssignmentStarts(p);
      if assignment {
        ok, s := Binding(p, Assign, false);
      } else {
        var misspelt := LooksMisspelt(t);
        if misspelt {
          p.error := true;
          return false, None;
        }
        ok, s := Evaluation(p, false);
      }
    }
    if !ok { p.error := true; }
    init := Some(s);
  }

  /** The error flag has no influence on what a part of a for loop's head is parsed to. */
  lemma PartsIgnoreErrors(ts: seq<Token>, i: nat, d: nat, err: bool)
    requires Terminated(ts) && i < |ts|
    ensures forall b ::
      SamePart(BindAt(ts, i, d, err, b, false), BindAt(ts, i, d, false, b, false))
    ensures SamePart(EvaluateAt(ts, i, d, err, false), EvaluateAt(ts, i, d, false, false))
  {
    hide ParseExpr;
  }

  ghost predicate SamePart(a: Step, b: Step) {
    a.Good? == b.Good? && a.next == b.next && (a.Good? ==> a.s == b.s)
  }

  method ForUpdate(p: Parser) returns (ok: bool, update: Option<Stmt>)
    requires p.Valid()
    modifies p
    ensures p.Valid() && p.depth == old(p.depth)
    ensures CamePart(p, old(p.error), ok, update, UpdateAt(p.tokens, old(p.current), p.depth))
  {
    hide BindAt, EvaluateAt;
    PartsIgnoreErrors(p.tokens, p.current, p.depth, p.error);
    if p.tokens[p.current] == Sym(")") { return true, None; }
    var s;
    var assignment := AssignmentStarts(p);
    if assignment { ok, s := Binding(p, Assign, false); } else { ok, s := Evaluation(p, false); }
    if !ok { p.error := true; }
    update := Some(s);
  }

  method ForHead(p: Parser) returns (ok: bool, init: Option<Stmt>, test: Option<Expr>, update: Option<Stmt>)
    requires p.Valid()
    modifies p
    ensures p.Valid() && p.depth == old(p.depth)
    ensures CameHead(p, old(p.error), ok, init, test, update, HeadAt(p.tokens, old(p.current), p.depth))
  {
    hide InitAt, TestAt, ParseExpr;
    ok, init, test, update := true, None, None, None;
    var paren := p.Match(Sym("("));
    if paren {
      ok, init := ForInit(p);
      if ok { ok := p.Match(Sym(";")); }
      if !ok {
        p.error := true;
        return;
      }
      ok, test, update := ForTest(p, init);
    } else {
      var e;
      ok, e := p.Expression();
      test := Some(e);
      if !ok { p.error := true; }
    }
  }

  ghost predicate CameHead(p: Parser, before: bool, ok: bool, init: Option<Stmt>, test: Option<Expr>,
                           update: Option<Stmt>, r: Head)
    reads p
  {
    && ok == r.Head? && p.current == r.next && p.error == (before || !ok)
    && (ok ==> init == r.init && test == r.test && update == r.update)
  }

  /** The head behind its first semicolon. */
  method ForTest(p: Parser, init: Option<Stmt>) returns (ok: bool, test: Option<Expr>, update: Option<Stmt>)
    requires p.Valid()
    modifies p
    ensures p.Valid() && p.depth == old(p.depth)
    ensures CameHead(p, old(p.error), ok, init, test, update, TestAt(p.tokens, old(p.current), p.depth, init))
  {
    hide UpdateAt, ParseExpr;
    ok, test, update := true, None, None;
    if p.tokens[p.current] != Sym(";") {
      var e;
      ok, e := p.Expression();
      test := Some(e);
    }
    if ok { ok := p.Match(Sym(";")); }
    if ok { ok, update := ForUpdate(p); }
    if ok { ok := p.Match(Sym(")")); }
    if !ok { p.error := true; }
  }

  /** parse_statement */
  method Statement(p: Parser) returns (ok: bool, s: Stmt)
    requires p.Valid()
    modifies p
    ensures p.Valid() && p.depth == old(p.depth)
    ensures Came(p, ok, s, StatementAt(p.tokens, old(p.current), p.depth, old(p.error)))
    decreases |p.tokens| - p.current, 20
  {
    hide InnerAt;
    if p.depth >= MAX_PARSE_DEPTH {
      p.error := true;
      return false, NOOP;
    }
    p.depth := p.depth + 1;
    ok, s := StatementInside(p);
    p.depth := p.depth - 1;
  }

  /** parse_statement_internal */
  method StatementInside(p: Parser) returns (ok: bool, s: Stmt)
    requires p.Valid()
    modifies p
    ensures p.Valid() && p.depth == old(p.depth)
    ensures Came(p, ok, s, InnerAt(p.tokens, old(p.current), p.depth, old(p.error)))
    decreases |p.tokens| - p.current, 19
  {
    hide IfAt, WhileAt, ForAt, SwitchAt, BlockAt, SimpleAt;
    var t := p.tokens[p.current];
    if t == Word("if") {
      ok, s := IfStatement(p);
    } else if t == Word("while") {
      ok, s := WhileStatement(p);
    } else if t == Word("for") {
      ok, s := ForStatement(p);
    } else if t == Word("switch") {
      ok, s := SwitchStatement(p);
    } else if t == Sym("{") {
      ok, s := BlockStatement(p);
    } else {
      ok, s := SimpleStatement(p);
    }
  }

  method SimpleStatement(p: Parser) returns (ok: bool, s: Stmt)
    requires p.Valid()
    modifies p
    ensures p.Valid() && p.depth == old(p.depth)
    ensures Came(p, ok, s, SimpleAt(p.tokens, old(p.current), p.depth, old(p.error)))
  {
    hide BindAt, PrintAt, PrintsAt, ReturnAt, Ended, ImportAt, WindowAt, TextStmtAt, AssignmentAt;
    var t := p.tokens[p.current];
    if t == Word("import") {
      ok, s := ImportStatement(p);
    } else if t == Word("let") || t == Word("const") {
      t := p.Advance();
      ok, s := Binding(p, Let, true);
    } else if t == Word("var") {
      t := p.Advance();
      ok, s := Binding(p, Var, true);
    } else if t == Word("print") {
      t := p.Advance();
      ok, s := PrintStatement(p);
    } else if t == Word("prints") {
      t := p.Advance();
      ok, s := PrintsStatement(p);
    } else if t == Word("return") {
      t := p.Advance();
      ok, s := ReturnStatement(p);
    } else if t == Word("break") || t == Word("continue") {
      var isContinue := t == Word("continue");
      t := p.Advance();
      ok, s := Jump(p, isContinue);
    } else if t == Word("window") {
      ok, s := WindowStatement(p);
    } else if t == Word("text") {
      ok, s := TextStatement(p);
    } else {
      ok, s := Otherwise(p);
    }
  }

  /** The end of parse_statement_internal: an assignment, an expression, a hint, or a skipped statement. */
  method Otherwise(p: Parser) returns (ok: bool, s: Stmt)
    requires p.Valid()
    modifies p
    ensures p.Valid() && p.depth == old(p.depth)
    ensures Came(p, ok, s, AssignmentAt(p.tokens, old(p.current), p.depth, old(p.error)))
  {
    hide BindAt, EvaluateAt, Misspelt, SkipTo;
    var assignment := AssignmentStarts(p);
    if assignment {
      ok, s := Binding(p, Assign, true);
      if ok { return; }
    }
    var save := p.current;
    ok, s := Evaluation(p, true);
    if ok { return; }
    if p.error { return; }
    p.current := save;
    var misspelt := LooksMisspelt(p.tokens[p.current]);
    if misspelt {
      p.error := true;
      return;
    }
    SkipStatement(p);
    return true, NOOP;
  }

  method BlockStatement(p: Parser) returns (ok: bool, s: Stmt)
    requires p.Valid()
    modifies p
    ensures p.Valid() && p.depth == old(p.depth)
    ensures Came(p, ok, s, BlockAt(p.tokens, old(p.current), p.depth, old(p.error)))
    decreases |p.tokens| - p.current, 15
  {
    hide StatementsAt, NestingOfAll;
    s := NOOP;
    ok := p.Match(Sym("{"));
    if !ok {
      p.error := true;
      return;
    }
    var stmts;
    ok, stmts := Statements(p, false);
    if ok { ok := p.Match(Sym("}")); }
    if !ok {
      p.error := true;
      return;
    }
    s := Block(stmts);
  }

  /** What the statements so far and the rest amount to. */
  ghost function StepsBehind(before: seq<Stmt>, rest: Steps): Steps {
    if rest.Many? then Many(before + rest.stmts, rest.next, rest.err) else rest
  }

  lemma StatementsStep(ts: seq<Token>, i: nat, d: nat, err: bool, inSwitch: bool, before: seq<Stmt>)
    requires Terminated(ts) && i < |ts|
    ensures Halts(ts[i], inSwitch) ==> StatementsAt(ts, i, d, err, inSwitch) == Many([], i, err)
    ensures !Halts(ts[i], inSwitch) ==>
      var h := StatementAt(ts, i, d, err);
      && (h.Fail? ==> StatementsAt(ts, i, d, err, inSwitch) == Broken(h.next, h.err))
      && (h.Good? ==> StepsBehind(before, StatementsAt(ts, i, d, err, inSwitch)) ==
                      StepsBehind(before + [h.s], StatementsAt(ts, h.next, d, h.err, inSwitch)))
  {
    hide StatementAt, NestingOfAll, Nesting, Halts, Sound;
    var whole := StatementsAt(ts, i, d, err, inSwitch);
    if !Halts(ts[i], inSwitch) {
      var h := StatementAt(ts, i, d, err);
      if h.Good? {
        var rest := StatementsAt(ts, h.next, d, h.err, inSwitch);
        if rest.Many? { assert before + ([h.s] + rest.stmts) == (before + [h.s]) + rest.stmts; }
      }
    }
  }

  method Statements(p: Parser, inSwitch: bool) returns (ok: bool, stmts: seq<Stmt>)
    requires p.Valid()
    modifies p
    ensures p.Valid() && p.depth == old(p.depth)
    ensures var r := StatementsAt(p.tokens, old(p.current), p.depth, old(p.error), inSwitch);
      ok == r.Many? && (ok ==> stmts == r.stmts) && p.current == r.next && p.error == r.err
    decreases |p.tokens| - p.current, 21
  {
    hide StatementAt, StatementsAt, NestingOfAll, Nesting;
    stmts := [];
    ghost var whole := StatementsAt(p.tokens, p.current, p.depth, p.error, inSwitch);
    assert whole.Many? ==> [] + whole.stmts == whole.stmts;
    StatementsStep(p.tokens, p.current, p.depth, p.error, inSwitch, stmts);
    while !Halts(p.tokens[p.current], inSwitch)
      invariant p.Valid() && p.depth == old(p.depth) && old(p.current) <= p.current
      invariant whole == StepsBehind(stmts, StatementsAt(p.tokens, p.current, p.depth, p.error, inSwitch))
      decreases |p.tokens| - p.current
    {
      StatementsStep(p.tokens, p.current, p.depth, p.error, inSwitch, stmts);
      var s;
      ok, s := Statement(p);
      if !ok { return; }
      stmts := stmts + [s];
    }
    StatementsStep(p.tokens, p.current, p.depth, p.error, inSwitch, stmts);
    ok := true;
    assert stmts + [] == stmts;
  }

  method IfStatement(p: Parser) returns (ok: bool, s: Stmt)
    requires p.Valid() && p.tokens[p.current] == Word("if")
    modifies p
    ensures p.Valid() && p.depth == old(p.depth)
    ensures Came(p, ok, s, IfAt(p.tokens, old(p.current), p.depth, old(p.error)))
    decreases |p.tokens| - p.current, 16
  {
    hide ParseExpr, BlockAt, Nesting;
    s := NOOP;
    var word := p.Advance();
    var cond, thenBlock;
    ok, cond := p.Expression();
    if ok { ok, thenBlock := BlockStatement(p); }
    if !ok {
      p.error := true;
      return;
    }
    var hasElse := p.Match(Word("else"));
    if !hasElse {
      s := If(cond, thenBlock, None);
      return;
    }
    var elseBranch;
    if p.tokens[p.current] == Word("if") { ok, elseBranch := IfStatement(p); } else { ok, elseBranch := BlockStatement(p); }
    if !ok {
      p.error := true;
      return;
    }
    s := If(cond, thenBlock, Some(elseBranch));
  }

  method WhileStatement(p: Parser) returns (ok: bool, s: Stmt)
    requires p.Valid() && p.tokens[p.current] == Word("while")
    modifies p
    ensures p.Valid() && p.depth == old(p.depth)
    ensures Came(p, ok, s, WhileAt(p.tokens, old(p.current), p.depth, old(p.error)))
    decreases |p.tokens| - p.current, 16
  {
    hide ParseExpr, BlockAt, Nesting;
    s := NOOP;
    var word := p.Advance();
    var cond, body;
    ok, cond := p.Expression();
    if !ok { return; }
    ok, body := BlockStatement(p);
    if !ok { return; }
    s := While(cond, body);
  }

  method ForStatement(p: Parser) returns (ok: bool, s: Stmt)
    requires p.Valid() && p.tokens[p.current] == Word("for")
    modifies p
    ensures p.Valid() && p.depth == old(p.depth)
    ensures Came(p, ok, s, ForAt(p.tokens, old(p.current), p.depth, old(p.error)))
    decreases |p.tokens| - p.current, 16
  {
    hide HeadAt, BlockAt, Nesting;
    s := NOOP;
    var word := p.Advance();
    var init, test, update, body;
    ok, init, test, update := ForHead(p);
    if !ok { return; }
    ok, body := BlockStatement(p);
    if !ok {
      p.error := true;
      return;
    }
    s := For(init, test, update, body);
  }

  method SwitchStatement(p: Parser) returns (ok: bool, s: Stmt)
    requires p.Valid() && p.tokens[p.current] == Word("switch")
    modifies p
    ensures p.Valid() && p.depth == old(p.depth)
    ensures Came(p, ok, s, SwitchAt(p.tokens, old(p.current), p.depth, old(p.error)))
    decreases |p.tokens| - p.current, 16
  {
    hide ParseExpr, CasesAt, Nesting;
    s := NOOP;
    var word := p.Advance();
    ok := p.Match(Sym("("));
    if !ok { return; }
    var subject, cases;
    ok, subject := p.Expression();
    if !ok { return; }
    ok := p.Match(Sym(")"));
    if !ok { return; }
    ok := p.Match(Sym("{"));
    if !ok { return; }
    ok, cases := SwitchCases(p);
    if !ok { return; }
    ok := p.Match(Sym("}"));
    s := Switch(subject, cases);
  }

  ghost function CasesBehind(before: seq<Case>, rest: Cases): Cases {
    if rest.Cases? then Cases(before + rest.cases, rest.next, rest.err) else rest
  }

  lemma CaseStep(ts: seq<Token>, i: nat, d: nat, err: bool, value: Option<Expr>, before: seq<Case>)
    requires Terminated(ts) && i < |ts|
    ensures ts[i] != Sym(":") ==> CaseBodyAt(ts, i, d, err, value) == BadCases(i, err)
    ensures ts[i] == Sym(":") ==>
      var b := StatementsAt(ts, i + 1, d, err, true);
      && (b.Broken? ==> CaseBodyAt(ts, i, d, err, value) == BadCases(b.next, b.err))
      && (b.Many? ==> CasesBehind(before, CaseBodyAt(ts, i, d, err, value)) ==
                      CasesBehind(before + [Case(value, b.stmts)], CasesAt(ts, b.next, d, b.err)))
  {
    hide StatementsAt, CasesAt, NestingOfCases, NestingOfAll;
    var whole := CaseBodyAt(ts, i, d, err, value);
    if ts[i] == Sym(":") {
      var b := StatementsAt(ts, i + 1, d, err, true);
      if b.Many? {
        var rest := CasesAt(ts, b.next, d, b.err);
        if rest.Cases? {
          assert before + ([Case(value, b.stmts)] + rest.cases) == (before + [Case(value, b.stmts)]) + rest.cases;
        }
      }
    }
  }

  method SwitchCases(p: Parser) returns (ok: bool, cases: seq<Case>)
    requires p.Valid()
    modifies p
    ensures p.Valid() && p.depth == old(p.depth)
    ensures var r := CasesAt(p.tokens, old(p.current), p.depth, old(p.error));
      ok == r.Cases? && (ok ==> cases == r.cases) && p.current == r.next && p.error == r.err
    decreases |p.tokens| - p.current, 23
  {
    hide StatementsAt, CaseBodyAt, ParseExpr, NestingOfCases, NestingOfAll;
    cases := [];
    ghost var whole := CasesAt(p.tokens, p.current, p.depth, p.error);
    assert whole.Cases? ==> [] + whole.cases == whole.cases;
    while p.tokens[p.current] != Sym("}") && p.tokens[p.current] != EndOfFile
      invariant p.Valid() && p.depth == old(p.depth) && old(p.current) <= p.current
      invariant whole == CasesBehind(cases, CasesAt(p.tokens, p.current, p.depth, p.error))
      decreases |p.tokens| - p.current
    {
      var value;
      ok, value := CaseHead(p);
      if !ok { return; }
      CaseStep(p.tokens, p.current, p.depth, p.error, value, cases);
      ok := p.Match(Sym(":"));
      if !ok { return; }
      var body;
      ok, body := Statements(p, true);
      if !ok { return; }
      cases := cases + [Case(value, body)];
    }
    ok := true;
    assert cases + [] == cases;
  }

  /** default, or case and a value. */
  method CaseHead(p: Parser) returns (ok: bool, value: Option<Expr>)
    requires p.Valid() && p.tokens[p.current] != Sym("}") && p.tokens[p.current] != EndOfFile
    modifies p
    ensures p.Valid() && p.depth == old(p.depth) && old(p.current) <= p.current && (ok ==> old(p.current) < p.current)
    ensures ok ==> CasesAt(p.tokens, old(p.current), p.depth, old(p.error)) ==
                   CaseBodyAt(p.tokens, p.current, p.depth, p.error, value)
    ensures !ok ==> CasesAt(p.tokens, old(p.current), p.depth, old(p.error)) == BadCases(p.current, p.error)
  {
    hide CaseBodyAt, ParseExpr;
    ghost var whole := CasesAt(p.tokens, p.current, p.depth, p.error);
    value := None;
    ok := p.Match(Word("default"));
    if ok { return; }
    ok := p.Match(Word("case"));
    if !ok { return; }
    var e;
    ok, e := p.Expression();
    value := Some(e);
  }

  ghost function NamesBehind(before: seq<string>, rest: Names): Names {
    if rest.Names? then Names(before + rest.names, rest.next) else rest
  }

  method Params(p: Parser) returns (ok: bool, names: seq<string>)
    requires p.Valid()
    modifies p`current
    ensures p.Valid()
    ensures var r := ParamsAt(p.tokens, old(p.current)); ok == r.Names? && (ok ==> names == r.names) && p.current == r.next
  {
    names := [];
    while true
      invariant p.Valid() && old(p.current) <= p.current
      invariant ParamsAt(p.tokens, old(p.current)) == NamesBehind(names, ParamsAt(p.tokens, p.current))
      decreases |p.tokens| - p.current
    {
      ghost var before := names;
      if !p.tokens[p.current].Ident? { return false, names; }
      var t := p.Advance();
      names := names + [t.name];
      var comma := p.Match(Sym(","));
      if !comma { return true, names; }
      ghost var rest := ParamsAt(p.tokens, p.current);
      assert rest.Names? ==> before + ([t.name] + rest.names) == names + rest.names;
    }
  }

  method FunctionDeclaration(p: Parser) returns (ok: bool, s: Stmt)
    requires p.Valid() && p.tokens[p.current] == Word("func")
    modifies p
    ensures p.Valid() && p.depth == old(p.depth)
    ensures Came(p, ok, s, FunctionAt(p.tokens, old(p.current), p.depth, old(p.error)))
  {
    hide ParamsAt, BlockAt, Nesting;
    s := NOOP;
    var name := p.Advance();
    if !p.tokens[p.current].Ident? {
      p.error := true;
      return false, s;
    }
    name := p.Advance();
    ok := p.Match(Sym("("));
    if !ok {
      p.error := true;
      return;
    }
    var params: seq<string> := [];
    if p.tokens[p.current] != Sym(")") { ok, params := Params(p); }
    if ok { ok := p.Match(Sym(")")); }
    if !ok {
      p.error := true;
      return;
    }
    var body;
    ok, body := BlockStatement(p);
    s := Function(name.name, params, if ok then body else s);
  }

  lemma AtTheEnd(ts: seq<Token>, i: nat, err: bool)
    requires Terminated(ts) && i < |ts| && ts[i] == EndOfFile
    ensures DeclarationsAt(ts, i, err) == Many([], i, err)
  {
  }

  lemma DeclarationsStep(ts: seq<Token>, i: nat, err: bool, before: seq<Stmt>)
    requires Terminated(ts) && i < |ts| && ts[i] != EndOfFile
    ensures var h := DeclarationAt(ts, i, err);
      && (h.Fail? ==> DeclarationsAt(ts, i, err) == Broken(h.next, h.err))
      && (h.Good? ==> StepsBehind(before, DeclarationsAt(ts, i, err)) ==
                      StepsBehind(before + [h.s], DeclarationsAt(ts, h.next, h.err)))
  {
    hide DeclarationAt, Nesting, Sound;
    var whole := DeclarationsAt(ts, i, err);
    var h := DeclarationAt(ts, i, err);
    if h.Good? {
      var rest := DeclarationsAt(ts, h.next, h.err);
      if rest.Many? { assert before + ([h.s] + rest.stmts) == (before + [h.s]) + rest.stmts; }
    }
  }

  method Declarations(p: Parser) returns (ok: bool, decls: seq<Stmt>)
    requires p.Valid() && p.depth == 0
    modifies p
    ensures p.Valid() && p.depth == 0
    ensures var r := DeclarationsAt(p.tokens, old(p.current), old(p.error));
      ok == r.Many? && (ok ==> decls == r.stmts) && p.current == r.next && p.error == r.err
  {
    hide StatementAt, FunctionAt, DeclarationsAt, Nesting;
    decls := [];
    ghost var whole := DeclarationsAt(p.tokens, p.current, p.error);
    assert whole.Many? ==> [] + whole.stmts == whole.stmts;
    while p.tokens[p.current] != EndOfFile
      invariant p.Valid() && p.depth == 0 && old(p.current) <= p.current
      invariant whole == StepsBehind(decls, DeclarationsAt(p.tokens, p.current, p.error))
      decreases |p.tokens| - p.current
    {
      DeclarationsStep(p.tokens, p.current, p.error, decls);
      var s;
      if p.tokens[p.current] == Word("func") { ok, s := FunctionDeclaration(p); } else { ok, s := Statement(p); }
      if !ok { return; }
      decls := decls + [s];
    }
    AtTheEnd(p.tokens, p.current, p.error);
    ok := true;
    assert decls + [] == decls;
  }

  /** parser_parse_program on a new parser: it ends on every token list, with the depth back at 0; a program is
      returned only at the end of the file. */
  method ParseProgram(tokens: seq<Token>) returns (r: Program)
    requires Terminated(tokens)
    ensures r == ProgramAt(tokens)
  {
    hide DeclarationsAt;
    var p := new Parser(tokens);
    var package: Option<string> := None;
    if p.tokens[p.current] == Word("package") {
      var id := p.Advance();
      if !p.tokens[p.current].Ident? { return Refused(p.current, p.error); }
      id := p.Advance();
      package := Some(id.name);
      var ended := ConsumeEnd(p);
    }
    var ok, decls := Declarations(p);
    r := if ok then Program(package, decls, p.error) else Refused(p.current, p.error);
  }
}
