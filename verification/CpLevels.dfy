/** Associativity and precedence: a printer that writes only the parentheses the language needs.  What it writes is
    parsed to the expression it was given, so a chain of operators of one level leans to the left and a tighter
    operator takes its operands first. */
module CpLevels {
  import opened CpLexer
  import opened CpExprParser
  import opened CpPrinter

  /** The levels of the language, from the loosest operator to the tightest; an operand that is no operation of two
      operands stands at the level behind them. */
  function Level(op: string): (level: nat)
    requires IsOp(op)
    ensures level < OPERAND
  {
    if op == "||" then 0
    else if op == "&&" then 1
    else if op == "==" || op == "!=" then 2
    else if op == "<" || op == "<=" || op == ">" || op == ">=" then 3
    else if op == "+" || op == "-" then 4
    else 5
  }

  const OPERAND: nat := 6

  /** An operation looser than its place needs parentheses. */
  predicate NeedsParens(e: Expr, level: nat) { e.Binary? && IsOp(e.op) && Level(e.op) < level }

  /** The tokens of e at a place for operations of the given level or a tighter one: a left operand may be of the same
      level, a right one must be tighter. */
  ghost function Lean(ts: seq<Token>, e: Expr, level: nat): seq<Token>
    requires Printable(ts, e)
    decreases e, if NeedsParens(e, level) then 1 else 0
  {
    match e
    case Number(n) => [Num(n)]
    case Text(s) => [StrLit(s)]
    case Name(path) => PathTokens(NamesOf(path))
    case Call(callee, args) => PathTokens(NamesOf(callee)) + ([Sym("(")] + (LeanArgs(ts, args) + [Sym(")")]))
    case Unary(op, operand) => [Sym(op)] + Lean(ts, operand, OPERAND)
    case Binary(op, left, right) =>
      if Level(op) < level then [Sym("(")] + (Lean(ts, e, 0) + [Sym(")")])
      else Lean(ts, left, Level(op)) + ([Sym(op)] + Lean(ts, right, Level(op) + 1))
  }

  ghost function LeanArgs(ts: seq<Token>, args: seq<Expr>): seq<Token>
    requires AllPrintable(ts, args)
    decreases args
  {
    if args == [] then []
    else if |args| == 1 then Lean(ts, args[0], 0)
    else Lean(ts, args[0], 0) + ([Sym(",")] + LeanArgs(ts, args[1..]))
  }

  /** How many parentheses and argument lists are open inside each other. */
  function Nest(e: Expr, level: nat): nat
    decreases e
  {
    match e
    case Unary(_, operand) => Nest(operand, OPERAND)
    case Binary(op, left, right) =>
      if !IsOp(op) then 0
      else (if Level(op) < level then 1 else 0) + Max(Nest(left, Level(op)), Nest(right, Level(op) + 1))
    case Call(_, args) => NestArgs(args)
    case _ => 0
  }

  function NestArgs(args: seq<Expr>): nat
    decreases args
  {
    if args == [] then 0 else Max(1 + Nest(args[0], 0), NestArgs(args[1..]))
  }

  // ----- What the parser makes of them -----

  /** The parser's tiers are the levels. */
  lemma TierIsLevel(op: string, k: nat)
    requires IsOp(op) && k < TIERS
    ensures InTier(Sym(op), k) <==> k == Level(op)
  {
  }

  /** The token behind an operand ends its name and is no operator of the given level or a tighter one. */
  predicate EndsOperand(t: Token, level: nat) {
    EndsName(t) && forall k: nat :: level <= k < TIERS ==> !InTier(t, k)
  }

  lemma OperatorEnds(op: string)
    requires IsOp(op)
    ensures InTier(Sym(op), Level(op)) && EndsOperand(Sym(op), Level(op) + 1)
  {
    TierIsLevel(op, Level(op));
    forall k: nat | Level(op) + 1 <= k < TIERS ensures !InTier(Sym(op), k) { TierIsLevel(op, k); }
  }

  lemma ClosersEnd(level: nat)
    ensures EndsOperand(Sym(")"), level) && EndsOperand(Sym(","), level)
  {
  }

  /** What an expression starts with. */
  predicate StartsExpression(t: Token) {
    t.Num? || t.StrLit? || t.Ident? || t == Sym("(") || t == Sym("-") || t == Sym("!")
  }

  lemma {:induction false} FirstLean(ts: seq<Token>, e: Expr, level: nat)
    requires Printable(ts, e)
    ensures Lean(ts, e, level) != []
    ensures StartsExpression(Lean(ts, e, level)[0])
    decreases e, if NeedsParens(e, level) then 1 else 0
  {
    if e.Name? {
      FirstOfPath(NamesOf(e.path));
    } else if e.Call? {
      FirstOfPath(NamesOf(e.callee));
    } else if e.Binary? {
      if NeedsParens(e, level) { FirstLean(ts, e, 0); } else { FirstLean(ts, e.left, Level(e.op)); }
    }
  }

  /** How far the tiers above the operands have to be climbed before a smaller expression is reached. */
  function Rank(e: Expr, level: nat): nat
    requires level <= TIERS
  {
    (if e.Binary? && IsOp(e.op) && Level(e.op) >= level then 0 else 20) + 2 * (TIERS - level)
  }

  /** A tier parses an operand of its level to the expression, whatever looser operator follows. */
  lemma {:induction false} ParseLean(ts: seq<Token>, e: Expr, level: nat, i: nat, d: nat)
    requires Terminated(ts) && Printable(ts, e) && d <= MAX_PARSE_DEPTH && level <= TIERS
    requires At(ts, i, Lean(ts, e, level)) && EndsOperand(ts[i + |Lean(ts, e, level)|], level)
    ensures ComesBack(ParseTier(ts, i, d, level), e, i + |Lean(ts, e, level)|, d + Nest(e, level) <= MAX_PARSE_DEPTH)
    decreases e, Rank(e, level) + 1, 0
  {
    hide ParseTierRest, ParseTier, Lean, Nest, Printable;
    if level == TIERS {
      TopTier(ts, i, d);
      ParseLeanOperand(ts, e, i, d);
    } else {
      ParseChain(ts, e, level, i, d);
      if d + Nest(e, level) <= MAX_PARSE_DEPTH { RestStops(ts, i + |Lean(ts, e, level)|, d, level, e); }
    }
  }

  lemma RestStops(ts: seq<Token>, i: nat, d: nat, tier: nat, e: Expr)
    requires Terminated(ts) && i < |ts| && tier < TIERS && !InTier(ts[i], tier)
    ensures ParseTierRest(ts, i, d, tier, e) == Parsed(e, i)
  {
  }

  /** The same in front of more operators of the level: the tier goes on with the expression as its left operand. */
  lemma {:induction false} ParseChain(ts: seq<Token>, e: Expr, level: nat, i: nat, d: nat)
    requires Terminated(ts) && Printable(ts, e) && d <= MAX_PARSE_DEPTH && level < TIERS
    requires At(ts, i, Lean(ts, e, level)) && EndsOperand(ts[i + |Lean(ts, e, level)|], level + 1)
    ensures d + Nest(e, level) <= MAX_PARSE_DEPTH ==>
      ParseTier(ts, i, d, level) == ParseTierRest(ts, i + |Lean(ts, e, level)|, d, level, e)
    ensures d + Nest(e, level) > MAX_PARSE_DEPTH ==> ParseTier(ts, i, d, level).Failed?
    decreases e, Rank(e, level), 0
  {
    hide ParseTierRest, ParseTier, Lean, Nest, Printable, At, EndsOperand;
    if e.Binary? && IsOp(e.op) && Level(e.op) == level {
      ParseLink(ts, e, i, d);
    } else {
      SameAbove(ts, e, level);
      ParseLean(ts, e, level + 1, i, d);
      TierUnfold(ts, i, d, level);
    }
  }

  /** An operation that does not belong to the level is written as for the next one. */
  lemma SameAbove(ts: seq<Token>, e: Expr, level: nat)
    requires Printable(ts, e) && !(e.Binary? && IsOp(e.op) && Level(e.op) == level)
    ensures Lean(ts, e, level) == Lean(ts, e, level + 1) && Nest(e, level) == Nest(e, level + 1)
  {
  }

  lemma TierUnfold(ts: seq<Token>, i: nat, d: nat, tier: nat)
    requires Terminated(ts) && i < |ts| && tier < TIERS
    ensures var r := ParseTier(ts, i, d, tier + 1);
      && (r.Failed? ==> ParseTier(ts, i, d, tier).Failed?)
      && (r.Parsed? ==> ParseTier(ts, i, d, tier) == ParseTierRest(ts, r.next, d, tier, r.e))
  {
    hide ParseTierRest;
  }

  /** One more operator of the level, with a tighter right operand. */
  lemma {:induction false} ParseLink(ts: seq<Token>, e: Expr, i: nat, d: nat)
    requires Terminated(ts) && Printable(ts, e) && d <= MAX_PARSE_DEPTH && e.Binary? && IsOp(e.op)
    requires At(ts, i, Lean(ts, e, Level(e.op))) && EndsOperand(ts[i + |Lean(ts, e, Level(e.op))|], Level(e.op) + 1)
    ensures var level := Level(e.op);
      && (d + Nest(e, level) <= MAX_PARSE_DEPTH ==>
            ParseTier(ts, i, d, level) == ParseTierRest(ts, i + |Lean(ts, e, level)|, d, level, e))
      && (d + Nest(e, level) > MAX_PARSE_DEPTH ==> ParseTier(ts, i, d, level).Failed?)
    decreases e, 0, 0
  {
    hide ParseTierRest, ParseTier, Lean, Nest, Printable, At, EndsOperand, Level;
    var level := Level(e.op);
    LinkParts(ts, e, i);
    OperatorEnds(e.op);
    var m := i + |Lean(ts, e.left, level)|;
    ParseChain(ts, e.left, level, i, d);
    ParseLean(ts, e.right, level + 1, m + 1, d);
    RestUnfold(ts, m, d, level, e.left);
  }

  lemma RestUnfold(ts: seq<Token>, i: nat, d: nat, tier: nat, left: Expr)
    requires Terminated(ts) && i + 1 < |ts| && tier < TIERS && InTier(ts[i], tier)
    ensures var r := ParseTier(ts, i + 1, d, tier + 1);
      && (r.Failed? ==> ParseTierRest(ts, i, d, tier, left).Failed?)
      && (r.Parsed? ==>
            ParseTierRest(ts, i, d, tier, left) == ParseTierRest(ts, r.next, d, tier, Binary(ts[i].sym, left, r.e)))
  {
    hide ParseTier;
  }

  /** Where the parts of an operation without parentheses stand. */
  lemma LinkParts(ts: seq<Token>, e: Expr, i: nat)
    requires e.Binary? && Printable(ts, e) && At(ts, i, Lean(ts, e, Level(e.op)))
    ensures Printable(ts, e.left) && Printable(ts, e.right)
    ensures var level := Level(e.op);
      var m := i + |Lean(ts, e.left, level)|;
      && At(ts, i, Lean(ts, e.left, level)) && ts[m] == Sym(e.op)
      && At(ts, m + 1, Lean(ts, e.right, level + 1))
      && m + 1 + |Lean(ts, e.right, level + 1)| == i + |Lean(ts, e, level)|
      && Nest(e, level) == Max(Nest(e.left, level), Nest(e.right, level + 1))
  {
    hide At;
    var l, r := Lean(ts, e.left, Level(e.op)), Lean(ts, e.right, Level(e.op) + 1);
    AtSplit(ts, i, l, [Sym(e.op)] + r);
    AtSplit(ts, i + |l|, [Sym(e.op)], r);
    AtOne(ts, i + |l|, Sym(e.op));
  }

  /** Literals, names, calls, unary operations, and parentheses. */
  lemma {:induction false} ParseLeanOperand(ts: seq<Token>, e: Expr, i: nat, d: nat)
    requires Terminated(ts) && Printable(ts, e) && d <= MAX_PARSE_DEPTH
    requires At(ts, i, Lean(ts, e, OPERAND)) && EndsName(ts[i + |Lean(ts, e, OPERAND)|])
    ensures ComesBack(ParseUnary(ts, i, d), e, i + |Lean(ts, e, OPERAND)|, d + Nest(e, OPERAND) <= MAX_PARSE_DEPTH)
    decreases e, Rank(e, OPERAND), 1
  {
    if e.Binary? {
      ParseLeanParens(ts, e, i, d);
    } else if e.Unary? {
      ParseLeanUnary(ts, e, i, d);
    } else if e.Call? {
      ParseLeanCall(ts, e, i, d);
    } else {
      hide ParseExpr, ParseCall, ParsePath, ParseTier;
      FirstLean(ts, e, OPERAND);
      assert ts[i] == ts[i..i + |Lean(ts, e, OPERAND)|][0];
      if e.Name? { PathParsed(ts, i, NamesOf(e.path)); }
    }
  }

  lemma {:induction false} ParseLeanParens(ts: seq<Token>, e: Expr, i: nat, d: nat)
    requires Terminated(ts) && Printable(ts, e) && d <= MAX_PARSE_DEPTH && e.Binary?
    requires At(ts, i, Lean(ts, e, OPERAND))
    ensures ComesBack(ParseUnary(ts, i, d), e, i + |Lean(ts, e, OPERAND)|, d + Nest(e, OPERAND) <= MAX_PARSE_DEPTH)
    decreases e, Rank(e, OPERAND), 0
  {
    hide ParseTier, ParseUnary, Lean, Nest, Printable;
    assert Lean(ts, e, OPERAND) == [Sym("(")] + (Lean(ts, e, 0) + [Sym(")")]) && Nest(e, OPERAND) == 1 + Nest(e, 0) by {
      LeanInParens(ts, e);
    }
    Surrounded(ts, i, Lean(ts, e, 0));
    ParensUnfold(ts, i, d);
    ClosersEnd(0);
    assert IsOp(e.op) by { OperatorOf(ts, e); }
    if d < MAX_PARSE_DEPTH { ParseLean(ts, e, 0, i + 1, d + 1); }
  }

  lemma OperatorOf(ts: seq<Token>, e: Expr)
    requires Printable(ts, e) && e.Binary?
    ensures IsOp(e.op)
  {
  }

  lemma LeanInParens(ts: seq<Token>, e: Expr)
    requires Printable(ts, e) && e.Binary?
    ensures Lean(ts, e, OPERAND) == [Sym("(")] + (Lean(ts, e, 0) + [Sym(")")])
    ensures Nest(e, OPERAND) == 1 + Nest(e, 0)
  {
    assert Level(e.op) < OPERAND;
  }

  lemma {:induction false} ParseLeanUnary(ts: seq<Token>, e: Expr, i: nat, d: nat)
    requires Terminated(ts) && Printable(ts, e) && d <= MAX_PARSE_DEPTH && e.Unary?
    requires At(ts, i, Lean(ts, e, OPERAND)) && EndsName(ts[i + |Lean(ts, e, OPERAND)|])
    ensures ComesBack(ParseUnary(ts, i, d), e, i + |Lean(ts, e, OPERAND)|, d + Nest(e, OPERAND) <= MAX_PARSE_DEPTH)
    decreases e, 0, 0
  {
    hide ParsePrimary, ParseUnary, Lean, Nest, Printable;
    LeanOfUnary(ts, e);
    AtSplit(ts, i, [Sym(e.op)], Lean(ts, e.operand, OPERAND));
    AtOne(ts, i, Sym(e.op));
    UnaryUnfold(ts, i, d);
    ParseLeanOperand(ts, e.operand, i + 1, d);
  }

  lemma LeanOfUnary(ts: seq<Token>, e: Expr)
    requires Printable(ts, e) && e.Unary?
    ensures Printable(ts, e.operand) && (e.op == "-" || e.op == "!")
    ensures Lean(ts, e, OPERAND) == [Sym(e.op)] + Lean(ts, e.operand, OPERAND)
    ensures Nest(e, OPERAND) == Nest(e.operand, OPERAND)
  {
    hide IsOp;
  }

  lemma UnaryUnfold(ts: seq<Token>, i: nat, d: nat)
    requires Terminated(ts) && i + 1 < |ts| && (ts[i] == Sym("-") || ts[i] == Sym("!"))
    ensures var r := ParseUnary(ts, i + 1, d);
      && (r.Failed? ==> ParseUnary(ts, i, d).Failed?)
      && (r.Parsed? ==> ParseUnary(ts, i, d) == Parsed(Unary(ts[i].sym, r.e), r.next))
  {
    hide ParsePrimary;
  }

  lemma {:induction false} ParseLeanCall(ts: seq<Token>, e: Expr, i: nat, d: nat)
    requires Terminated(ts) && Printable(ts, e) && d <= MAX_PARSE_DEPTH && e.Call?
    requires At(ts, i, Lean(ts, e, OPERAND))
    ensures ComesBack(ParseUnary(ts, i, d), e, i + |Lean(ts, e, OPERAND)|, d + Nest(e, OPERAND) <= MAX_PARSE_DEPTH)
    decreases e, 0, 0
  {
    hide ParseArgs, ParsePath, PathTokens, CallAccepted, LeanArgs, ParseUnary;
    var names := NamesOf(e.callee);
    var path := PathTokens(names);
    var j := i + |path| + 1;
    FirstOfPath(names);
    CallShape(ts, i, path, LeanArgs(ts, e.args));
    PathParsed(ts, i, names);
    CallUnfold(ts, i, d, e.callee, j);
    if e.args != [] {
      FirstLeanArg(ts, e.args);
      assert ts[j] == ts[j..j + |LeanArgs(ts, e.args)|][0];
      ParseLeanArgs(ts, e.args, j, d);
    } else {
      assert LeanArgs(ts, []) == [] by { NoLeanArgs(ts); }
    }
  }

  lemma NoLeanArgs(ts: seq<Token>)
    ensures LeanArgs(ts, []) == []
  {
  }

  lemma FirstLeanArg(ts: seq<Token>, args: seq<Expr>)
    requires args != [] && AllPrintable(ts, args)
    ensures LeanArgs(ts, args) != []
    ensures var t := LeanArgs(ts, args)[0]; t != Sym(")") && t != Sym("{")
  {
    hide Lean;
    FirstLean(ts, args[0], 0);
  }

  lemma {:induction false} ParseLeanArgs(ts: seq<Token>, args: seq<Expr>, i: nat, d: nat)
    requires Terminated(ts) && args != [] && AllPrintable(ts, args) && d <= MAX_PARSE_DEPTH
    requires At(ts, i, LeanArgs(ts, args)) && ts[i + |LeanArgs(ts, args)|] == Sym(")")
    ensures d + NestArgs(args) <= MAX_PARSE_DEPTH ==> ParseArgs(ts, i, d) == Args(args, i + |LeanArgs(ts, args)|)
    ensures d + NestArgs(args) > MAX_PARSE_DEPTH ==> ParseArgs(ts, i, d).BadArgs?
    decreases args
  {
    hide ParseExpr, Lean, LeanArgs, Printable, EndsOperand, ParseArgs, Nest, At;
    ClosersEnd(0);
    if |args| == 1 {
      OneLeanArg(ts, args);
      ParseLeanExpr(ts, args[0], i, d);
      ArgsUnfold(ts, i, d);
    } else {
      var m := MoreLeanArgs(ts, args, i);
      ParseLeanExpr(ts, args[0], i, d);
      ParseLeanArgs(ts, args[1..], m + 1, d);
      ArgsUnfold(ts, i, d);
      assert [args[0]] + args[1..] == args;
    }
  }

  lemma OneLeanArg(ts: seq<Token>, args: seq<Expr>)
    requires |args| == 1 && AllPrintable(ts, args)
    ensures LeanArgs(ts, args) == Lean(ts, args[0], 0) && args == [args[0]]
    ensures NestArgs(args) == 1 + Nest(args[0], 0)
  {
    assert args[1..] == [];
  }

  lemma MoreLeanArgs(ts: seq<Token>, args: seq<Expr>, i: nat) returns (m: nat)
    requires |args| > 1 && AllPrintable(ts, args) && At(ts, i, LeanArgs(ts, args))
    ensures m == i + |Lean(ts, args[0], 0)| && At(ts, i, Lean(ts, args[0], 0)) && ts[m] == Sym(",")
    ensures At(ts, m + 1, LeanArgs(ts, args[1..]))
    ensures m + 1 + |LeanArgs(ts, args[1..])| == i + |LeanArgs(ts, args)|
  {
    hide Lean, At;
    var first, more := Lean(ts, args[0], 0), LeanArgs(ts, args[1..]);
    m := i + |first|;
    AtSplit(ts, i, first, [Sym(",")] + more);
    AtSplit(ts, m, [Sym(",")], more);
    AtOne(ts, m, Sym(","));
  }

  /** Every printable expression comes back from the tokens with no parentheses but those its operators need, in front of
      whatever does not continue it; only one that nests too deeply is refused. */
  lemma {:induction false} ParseLeanExpr(ts: seq<Token>, e: Expr, i: nat, d: nat)
    requires Terminated(ts) && Printable(ts, e) && d <= MAX_PARSE_DEPTH
    requires At(ts, i, Lean(ts, e, 0)) && EndsOperand(ts[i + |Lean(ts, e, 0)|], 0)
    ensures ComesBack(ParseExpr(ts, i, d), e, i + |Lean(ts, e, 0)|, d + 1 + Nest(e, 0) <= MAX_PARSE_DEPTH)
    decreases e, 100, 0
  {
    hide ParseTier, Lean, Nest, Printable, EndsOperand;
    if d < MAX_PARSE_DEPTH { ParseLean(ts, e, 0, i, d + 1); }
  }

  /** No token of an expression is an equals sign. */
  lemma {:induction false} NoEquals(ts: seq<Token>, e: Expr, level: nat)
    requires Printable(ts, e)
    ensures Sym("=") !in Lean(ts, e, level)
    decreases e, if NeedsParens(e, level) then 1 else 0
  {
    if e.Name? {
      NoEqualsInPath(NamesOf(e.path));
    } else if e.Call? {
      NoEqualsInPath(NamesOf(e.callee));
      NoEqualsInArgs(ts, e.args);
    } else if e.Unary? {
      NoEquals(ts, e.operand, OPERAND);
    } else if e.Binary? {
      if NeedsParens(e, level) {
        NoEquals(ts, e, 0);
      } else {
        NoEquals(ts, e.left, Level(e.op));
        NoEquals(ts, e.right, Level(e.op) + 1);
      }
    }
  }

  lemma {:induction false} NoEqualsInPath(names: seq<string>)
    ensures Sym("=") !in PathTokens(names)
  {
    if |names| > 1 { NoEqualsInPath(names[1..]); }
  }

  lemma {:induction false} NoEqualsInArgs(ts: seq<Token>, args: seq<Expr>)
    requires AllPrintable(ts, args)
    ensures Sym("=") !in LeanArgs(ts, args)
    decreases args
  {
    if args != [] {
      NoEquals(ts, args[0], 0);
      NoEqualsInArgs(ts, args[1..]);
    }
  }

  // ----- As text -----

  /** The text of those tokens, with blanks around operators of two operands. */
  ghost function Written(ts: seq<Token>, e: Expr, level: nat): string
    requires Printable(ts, e)
    decreases e, if NeedsParens(e, level) then 1 else 0
  {
    match e
    case Number(n) => Digits(n)
    case Text(s) => "\"" + Escape(s) + "\""
    case Name(path) => path
    case Call(callee, args) => callee + ("(" + (WrittenArgs(ts, args) + ")"))
    case Unary(op, operand) => op + Written(ts, operand, OPERAND)
    case Binary(op, left, right) =>
      if Level(op) < level then "(" + (Written(ts, e, 0) + ")")
      else Written(ts, left, Level(op)) + (" " + (op + (" " + Written(ts, right, Level(op) + 1))))
  }

  ghost function WrittenArgs(ts: seq<Token>, args: seq<Expr>): string
    requires AllPrintable(ts, args)
    decreases args
  {
    if args == [] then ""
    else if |args| == 1 then Written(ts, args[0], 0)
    else Written(ts, args[0], 0) + (", " + WrittenArgs(ts, args[1..]))
  }

  /** No text of an expression starts with '=', which would merge with a '!' before it. */
  lemma {:induction false} StartOfWritten(ts: seq<Token>, e: Expr, level: nat)
    requires Printable(ts, e)
    ensures Written(ts, e, level) != "" && Written(ts, e, level)[0] != '='
    decreases e, if NeedsParens(e, level) then 1 else 0
  {
    if e.Number? {
      assert IsDigit(Digits(e.n)[0]);
    } else if e.Name? {
      StartOfPath(NamesOf(e.path));
    } else if e.Call? {
      StartOfPath(NamesOf(e.callee));
    } else if e.Binary? {
      if !NeedsParens(e, level) { StartOfWritten(ts, e.left, Level(e.op)); }
    }
  }

  /** The lexer finds the tokens in the text, whatever may follow. */
  lemma {:induction false} LexWritten(ts: seq<Token>, e: Expr, level: nat, rest: string)
    requires Printable(ts, e) && Follows(rest)
    ensures Lex(Written(ts, e, level) + rest) == InFront(Lean(ts, e, level), Lex(rest))
    decreases e, if NeedsParens(e, level) then 1 else 0, 1
  {
    hide Lex, Escape, Digits, PathTokens, Level;
    if e.Number? {
      LexNumber(e.n, rest);
    } else if e.Text? {
      LexText(e.s, rest);
    } else if e.Name? {
      LexPath(NamesOf(e.path), rest);
    } else if e.Call? {
      LexWrittenCall(ts, e, rest);
    } else if e.Unary? {
      LexWrittenUnary(ts, e, rest);
    } else if NeedsParens(e, level) {
      LexWrittenParens(ts, e, level, rest);
    } else {
      LexWrittenOperator(ts, e, rest);
      AnyLevelBelow(ts, e, level);
    }
  }

  lemma AnyLevelBelow(ts: seq<Token>, e: Expr, level: nat)
    requires Printable(ts, e) && e.Binary? && !NeedsParens(e, level)
    ensures Lean(ts, e, level) == Lean(ts, e, Level(e.op)) && Written(ts, e, level) == Written(ts, e, Level(e.op))
  {
  }

  lemma {:induction false} LexWrittenParens(ts: seq<Token>, e: Expr, level: nat, rest: string)
    requires Printable(ts, e) && e.Binary? && NeedsParens(e, level) && Follows(rest)
    ensures Lex(Written(ts, e, level) + rest) == InFront(Lean(ts, e, level), Lex(rest))
    decreases e, 1, 0
  {
    hide Lex;
    var inner, text := Lean(ts, e, 0), Written(ts, e, 0);
    LexParen(')', rest);
    LexWritten(ts, e, 0, ")" + rest);
    InFrontTwice(inner, [Sym(")")], Lex(rest));
    LexParen('(', text + (")" + rest));
    InFrontTwice([Sym("(")], inner + [Sym(")")], Lex(rest));
    assert "(" + (text + ")") + rest == "(" + (text + (")" + rest));
  }

  lemma {:induction false} LexWrittenOperator(ts: seq<Token>, e: Expr, rest: string)
    requires Printable(ts, e) && e.Binary? && Follows(rest)
    ensures Lex(Written(ts, e, Level(e.op)) + rest) == InFront(Lean(ts, e, Level(e.op)), Lex(rest))
    decreases e, 0, 0
  {
    hide Lex, IsOp;
    var level := Level(e.op);
    var tl, tr := Lean(ts, e.left, level), Lean(ts, e.right, level + 1);
    var l, r := Written(ts, e.left, level), Written(ts, e.right, level + 1);
    LexWritten(ts, e.right, level + 1, rest);
    LexOp(e.op, r + rest);
    InFrontTwice([Sym(e.op)], tr, Lex(rest));
    var op := e.op + (" " + (r + rest));
    LexBlank(op);
    LexWritten(ts, e.left, level, " " + op);
    InFrontTwice(tl, [Sym(e.op)] + tr, Lex(rest));
    assert l + (" " + (e.op + (" " + r))) + rest == l + (" " + op);
  }

  lemma {:induction false} LexWrittenUnary(ts: seq<Token>, e: Expr, rest: string)
    requires Printable(ts, e) && e.Unary? && Follows(rest)
    ensures Lex(Written(ts, e, OPERAND) + rest) == InFront(Lean(ts, e, OPERAND), Lex(rest))
    decreases e, 0, 0
  {
    hide Lex;
    var x := Written(ts, e.operand, OPERAND);
    LexWritten(ts, e.operand, OPERAND, rest);
    StartOfWritten(ts, e.operand, OPERAND);
    assert !Has(x + rest, 0, '=');
    assert e.op == [e.op[0]];
    LexParen(e.op[0], x + rest);
    InFrontTwice([Sym(e.op)], Lean(ts, e.operand, OPERAND), Lex(rest));
    assert e.op + x + rest == e.op + (x + rest);
  }

  lemma {:induction false} LexWrittenCall(ts: seq<Token>, e: Expr, rest: string)
    requires Printable(ts, e) && e.Call? && Follows(rest)
    ensures Lex(Written(ts, e, OPERAND) + rest) == InFront(Lean(ts, e, OPERAND), Lex(rest))
    decreases e, 0, 0
  {
    hide Lex, PathTokens, CallAccepted;
    var args, a := LeanArgs(ts, e.args), WrittenArgs(ts, e.args);
    LexParen(')', rest);
    LexWrittenArgs(ts, e.args, ")" + rest);
    InFrontTwice(args, [Sym(")")], Lex(rest));
    LexParen('(', a + (")" + rest));
    InFrontTwice([Sym("(")], args + [Sym(")")], Lex(rest));
    LexPath(NamesOf(e.callee), "(" + (a + (")" + rest)));
    InFrontTwice(PathTokens(NamesOf(e.callee)), [Sym("(")] + (args + [Sym(")")]), Lex(rest));
    assert e.callee + ("(" + (a + ")")) + rest == e.callee + ("(" + (a + (")" + rest)));
  }

  lemma {:induction false} LexWrittenArgs(ts: seq<Token>, args: seq<Expr>, rest: string)
    requires AllPrintable(ts, args) && Follows(rest)
    ensures Lex(WrittenArgs(ts, args) + rest) == InFront(LeanArgs(ts, args), Lex(rest))
    decreases args
  {
    hide Lex, Written, Lean, Printable;
    if args == [] {
      NothingInFront(Lex(rest));
      assert "" + rest == rest;
    } else if |args| == 1 {
      LexWritten(ts, args[0], 0, rest);
    } else {
      LexWrittenArgs(ts, args[1..], rest);
      var a, more := Written(ts, args[0], 0), WrittenArgs(ts, args[1..]);
      var tokens := LeanArgs(ts, args[1..]);
      LexBlank(more + rest);
      LexParen(',', " " + (more + rest));
      InFrontTwice([Sym(",")], tokens, Lex(rest));
      LexWritten(ts, args[0], 0, "," + (" " + (more + rest)));
      InFrontTwice(Lean(ts, args[0], 0), [Sym(",")] + tokens, Lex(rest));
      CommaBetween(a, more, rest);
    }
  }

  lemma CommaBetween(a: string, more: string, rest: string)
    ensures a + (", " + more) + rest == a + ("," + (" " + (more + rest)))
  {
  }

  /** Writing an expression with no more parentheses than it needs, lexing the text and parsing the tokens gives the
      expression back and uses all of the text; only one that nests too deeply is refused. */
  lemma LeanTextComesBack(e: Expr)
    requires Printable([EndOfFile], e)
    ensures var tokens := Lex(Written([EndOfFile], e, 0));
      && tokens.Some?
      && var ts := tokens.value + [EndOfFile];
         Terminated(ts) && ComesBack(ParseExpr(ts, 0, 0), e, |ts| - 1, 1 + Nest(e, 0) <= MAX_PARSE_DEPTH)
  {
    hide Lex, Lean, Written, Printable, ParseExpr, Nest;
    var text, tokens := Written([EndOfFile], e, 0), Lean([EndOfFile], e, 0);
    LexWritten([EndOfFile], e, 0, "");
    LexNothing();
    assert text + "" == text && tokens + [] == tokens;
    var ts := tokens + [EndOfFile];
    LeanIsPlain([EndOfFile], e, 0);
    DeclaredBehind(tokens, [EndOfFile], 0);
    SameLean([EndOfFile], ts, e, 0);
    SameTokens([EndOfFile], ts, e);
    assert ts[0..|tokens|] == tokens;
    assert EndsOperand(EndOfFile, 0);
    ParseLeanExpr(ts, e, 0, 0);
  }

  lemma {:induction false} LeanIsPlain(ts: seq<Token>, e: Expr, level: nat)
    requires Printable(ts, e)
    ensures Plain(Lean(ts, e, level))
    decreases e, if NeedsParens(e, level) then 1 else 0
  {
    hide Level;
    if e.Name? {
      PathIsPlain(NamesOf(e.path));
    } else if e.Call? {
      PathIsPlain(NamesOf(e.callee));
      LeanArgsArePlain(ts, e.args);
    } else if e.Unary? {
      LeanIsPlain(ts, e.operand, OPERAND);
    } else if e.Binary? {
      if NeedsParens(e, level) {
        LeanIsPlain(ts, e, 0);
      } else {
        LeanIsPlain(ts, e.left, Level(e.op));
        LeanIsPlain(ts, e.right, Level(e.op) + 1);
      }
    }
  }

  lemma {:induction false} LeanArgsArePlain(ts: seq<Token>, args: seq<Expr>)
    requires AllPrintable(ts, args)
    ensures Plain(LeanArgs(ts, args))
    decreases args
  {
    if args != [] {
      LeanIsPlain(ts, args[0], 0);
      LeanArgsArePlain(ts, args[1..]);
    }
  }

  lemma {:induction false} SameLean(ts: seq<Token>, ts1: seq<Token>, e: Expr, level: nat)
    requires Printable(ts, e) && DeclaredFrom(ts, 0) == DeclaredFrom(ts1, 0)
    ensures Printable(ts1, e) && Lean(ts1, e, level) == Lean(ts, e, level)
    decreases e, if NeedsParens(e, level) then 1 else 0
  {
    hide Level;
    SameTokens(ts, ts1, e);
    if e.Call? {
      SameLeanArgs(ts, ts1, e.args);
    } else if e.Unary? {
      SameLean(ts, ts1, e.operand, OPERAND);
    } else if e.Binary? {
      if NeedsParens(e, level) {
        SameLean(ts, ts1, e, 0);
      } else {
        SameLean(ts, ts1, e.left, Level(e.op));
        SameLean(ts, ts1, e.right, Level(e.op) + 1);
      }
    }
  }

  lemma {:induction false} SameLeanArgs(ts: seq<Token>, ts1: seq<Token>, args: seq<Expr>)
    requires AllPrintable(ts, args) && DeclaredFrom(ts, 0) == DeclaredFrom(ts1, 0)
    ensures AllPrintable(ts1, args) && LeanArgs(ts1, args) == LeanArgs(ts, args)
    decreases args
  {
    if args != [] {
      SameLean(ts, ts1, args[0], 0);
      SameLeanArgs(ts, ts1, args[1..]);
    }
  }
}
