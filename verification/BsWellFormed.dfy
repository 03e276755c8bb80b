/** The trees the code generator translates soundly, and the stack room their code needs. */
module BsWellFormed {
  import opened BsAst
  import opened BsBytecode

  /** Operators that leave exactly one value, and no statement or missing node as an operand. */
  predicate WfExpr(e: Node)
    decreases e, 1
  {
    match e
    case Literal(_) => true
    case Identifier(_) => true
    case Unary(_, operand) => WfExpr(operand)
    case Binary(op, left, right) => (op == AndAnd || op == OrOr || HasOpCode(op)) && WfExpr(left) && WfExpr(right)
    case Assign(_, value) => WfExpr(value)
    case Call(_, args) => WfArgs(args)
    case _ => false
  }

  predicate WfArgs(args: seq<Node>)
    decreases args, 0
  {
    args == [] || (WfExpr(args[0]) && WfArgs(args[1..]))
  }

  /** A declaration that is not inside a block of its own leaves a slot behind in a scope. */
  function Leak(n: Node, depth: nat): nat {
    if depth > 0 && n.VarDecl? then 1 else 0
  }

  /** live is the number of locals at the start.  An if without else needs it to be 0, and a branch
      or loop body must not declare a local of the surrounding scope. */
  predicate WfStmt(n: Node, live: nat, depth: nat)
    decreases n, 1
  {
    match n
    case VarDecl(_, _, init) => init.Nil? || WfExpr(init)
    case ExprStmt(e) => WfExpr(e)
    case Block(stmts) => WfStmts(stmts, live, depth + 1)
    case If(cond, thenBranch, elseBranch) =>
      && WfExpr(cond)
      && WfStmt(thenBranch, live, depth) && Leak(thenBranch, depth) == 0
      && WfStmt(elseBranch, live, depth) && Leak(elseBranch, depth) == 0
      && (elseBranch.Nil? ==> live == 0)
    case While(cond, body) => WfExpr(cond) && WfStmt(body, live, depth) && Leak(body, depth) == 0
    case Print(e, _, _) => e.Nil? || WfExpr(e)
    case Return(e) => e.Nil? || WfExpr(e)
    case CustomCall(_, args, _) => WfArgs(args)
    case _ => true
  }

  predicate WfStmts(stmts: seq<Node>, live: nat, depth: nat)
    decreases stmts, 0
  {
    stmts == [] || (WfStmt(stmts[0], live, depth) && WfStmts(stmts[1..], live + Leak(stmts[0], depth), depth))
  }

  predicate WfProgram(program: Node) {
    if program.Block? then WfStmts(program.stmts, 0, 0) else !program.Nil? && WfStmt(program, 0, 0)
  }

  function Max(a: nat, b: nat): nat { if a >= b then a else b }

  /** How far the stack rises above its height at the start. */
  function Need(e: Node): (r: nat)
    ensures WfExpr(e) ==> r >= 1
    decreases e, 1
  {
    match e
    case Literal(_) => 1
    case Identifier(_) => 1
    case Unary(_, operand) => Need(operand)
    case Binary(op, left, right) =>
      if op == AndAnd || op == OrOr then Max(Need(left), Need(right)) else Max(Need(left), 1 + Need(right))
    case Assign(_, value) => Need(value)
    case Call(_, args) => Max(NeedArgs(args), |args| + 1)
    case _ => 0
  }

  function NeedArgs(args: seq<Node>): nat
    decreases args, 0
  {
    if args == [] then 0 else Max(Need(args[0]), 1 + NeedArgs(args[1..]))
  }

  function NeedStmt(n: Node, depth: nat): nat
    decreases n, 1
  {
    match n
    case VarDecl(_, _, init) => if init.Nil? then 1 else Need(init)
    case ExprStmt(e) => Need(e)
    case Block(stmts) => NeedStmts(stmts, depth + 1)
    case If(cond, thenBranch, elseBranch) =>
      Max(Need(cond), Max(NeedStmt(thenBranch, depth), NeedStmt(elseBranch, depth)))
    case While(cond, body) => Max(Need(cond), NeedStmt(body, depth))
    case Print(e, _, _) => if e.Nil? then 1 else Need(e)
    case Return(e) => if e.Nil? then 1 else Need(e)
    case CustomCall(_, args, _) => Max(NeedArgs(args), 1)
    case _ => 0
  }

  function NeedStmts(stmts: seq<Node>, depth: nat): nat
    decreases stmts, 0
  {
    if stmts == [] then 0 else Max(NeedStmt(stmts[0], depth), Leak(stmts[0], depth) + NeedStmts(stmts[1..], depth))
  }

  function NeedProgram(program: Node): nat {
    if program.Block? then NeedStmts(program.stmts, 0) else NeedStmt(program, 0)
  }
}
