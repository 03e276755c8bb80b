/** Where the instructions of compiled code start and how high the stack stands there, read off
    the tree alone.  The number of live locals and temporaries at an instruction depends neither
    on the constant pool nor on what the program computes. */
module BsHeights {
  import opened BsAst
  import opened BsValue
  import opened BsBytecode
  import opened BsCodegen
  import opened BsWellFormed
  import opened BsSlots
  import opened BsLocals

  // ----- The size of compiled code -----

  predicate IsNative(cmds: Registry, name: string) { name in cmds && cmds[name].Native? }

  function Size(cmds: Registry, e: Node): nat
    decreases e, 1
  {
    match e
    case Literal(v) => if v.Null? || v.Bool? then 1 else 2
    case Identifier(_) => 2
    case Unary(op, operand) => Size(cmds, operand) + if op == Bang || op == Minus then 1 else 0
    case Binary(op, left, right) =>
      Size(cmds, left) + Size(cmds, right) +
        if op == AndAnd then 4 else if op == OrOr then 7 else if HasOpCode(op) then 1 else 0
    case Assign(_, value) => Size(cmds, value) + 2
    case Call(name, args) => SizeArgs(cmds, args) + if IsNative(cmds, name) then 3 else 4
    case _ => 0
  }

  function SizeArgs(cmds: Registry, args: seq<Node>): nat
    decreases args, 0
  {
    if args == [] then 0 else Size(cmds, args[0]) + SizeArgs(cmds, args[1..])
  }

  function SizeOptional(cmds: Registry, e: Node): nat { if e.Nil? then 1 else Size(cmds, e) }

  function SizeStmt(cmds: Registry, n: Node, depth: nat): nat
    decreases n, 1
  {
    match n
    case VarDecl(_, _, init) => SizeOptional(cmds, init) + if depth > 0 then 0 else 2
    case ExprStmt(e) => Size(cmds, e) + 1
    case Block(stmts) => SizeStmts(cmds, stmts, depth + 1) + |DeclaredIn(stmts, depth + 1)|
    case If(cond, thenBranch, elseBranch) =>
      Size(cmds, cond) + SizeStmt(cmds, thenBranch, depth)
        + if elseBranch.Nil? then 5 else SizeStmt(cmds, elseBranch, depth) + 8
    case While(cond, body) => Size(cmds, cond) + SizeStmt(cmds, body, depth) + 8
    case Print(e, _, _) => SizeOptional(cmds, e) + 1
    case Return(e) => SizeOptional(cmds, e) + 1
    case CustomCall(_, args, _) => SizeArgs(cmds, args) + 4
    case _ => 0
  }

  function SizeStmts(cmds: Registry, stmts: seq<Node>, depth: nat): nat
    decreases stmts, 0
  {
    if stmts == [] then 0 else SizeStmt(cmds, stmts[0], depth) + SizeStmts(cmds, stmts[1..], depth)
  }

  function SizeProgram(cmds: Registry, program: Node): nat {
    if program.Block? then SizeStmts(cmds, program.stmts, 0) else SizeStmt(cmds, program, 0)
  }

  // ----- Heights inside expressions -----

  /** The temporaries on the stack at offset k of the code of e, or -1 where no instruction starts.
      Offset Size(e), behind the code, counts as well: there the value of e is on the stack. */
  function Height(cmds: Registry, e: Node, k: nat): int
    decreases e, 1
  {
    match e
    case Unary(_, operand) =>
      if k <= Size(cmds, operand) then Height(cmds, operand, k) else Only(k, Size(cmds, e), 1)
    case Binary(op, left, right) =>
      var l := Size(cmds, left);
      if k <= l then Height(cmds, left, k)
      else if op == AndAnd then
        if k < l + 4 then Only(k, l + 3, 1) else Height(cmds, right, k - l - 4)
      else if op == OrOr then
        if k < l + 7 then (if k == l + 3 || k == l + 6 then 1 else -1) else Height(cmds, right, k - l - 7)
      else if k <= l + Size(cmds, right) then Above(1, Height(cmds, right, k - l))
      else Only(k, Size(cmds, e), 1)
    case Assign(_, value) =>
      if k <= Size(cmds, value) then Height(cmds, value, k) else Only(k, Size(cmds, e), 1)
    case Call(name, args) =>
      var a := SizeArgs(cmds, args);
      if k <= a then HeightArgs(cmds, args, k)
      else if k == a + 2 && !IsNative(cmds, name) then |args| + 1
      else Only(k, Size(cmds, e), 1)
    case _ => if k == 0 then 0 else Only(k, Size(cmds, e), 1)
  }

  function HeightArgs(cmds: Registry, args: seq<Node>, k: nat): int
    decreases args, 0
  {
    if args == [] then Only(k, 0, 0)
    else
      var first := Size(cmds, args[0]);
      if k <= first then Height(cmds, args[0], k) else Above(1, HeightArgs(cmds, args[1..], k - first))
  }

  function Only(k: nat, at: nat, h: nat): int { if k == at then h else -1 }
  function Above(d: nat, h: int): int { if h < 0 then -1 else d + h }

  lemma {:induction false} HeightEnds(cmds: Registry, e: Node)
    requires WfExpr(e)
    ensures Height(cmds, e, 0) == 0 && Height(cmds, e, Size(cmds, e)) == 1 && Size(cmds, e) > 0
    decreases e, 1
  {
    if e.Unary? {
      HeightEnds(cmds, e.operand);
    } else if e.Binary? {
      HeightEnds(cmds, e.left);
      HeightEnds(cmds, e.right);
    } else if e.Assign? {
      HeightEnds(cmds, e.expr);
    } else if e.Call? {
      HeightArgsEnds(cmds, e.args);
    }
  }

  lemma {:induction false} HeightArgsEnds(cmds: Registry, args: seq<Node>)
    requires WfArgs(args)
    ensures HeightArgs(cmds, args, 0) == 0 && HeightArgs(cmds, args, SizeArgs(cmds, args)) == |args|
    decreases args, 0
  {
    if args != [] {
      HeightEnds(cmds, args[0]);
      HeightArgsEnds(cmds, args[1..]);
    }
  }

  /** The heights of an operation from the end of its left operand on. */
  lemma AndHeights(cmds: Registry, e: Node)
    requires WfExpr(e) && e.Binary? && e.op == AndAnd
    ensures var l, r := Size(cmds, e.left), Size(cmds, e.right);
      && Size(cmds, e) == l + 4 + r
      && forall k: nat :: l <= k <= l + 4 + r ==>
           Height(cmds, e, k) == if k == l || k == l + 3 then 1 else if k < l + 4 then -1 else Height(cmds, e.right, k - l - 4)
  {
    HeightEnds(cmds, e.left);
  }

  lemma OrHeights(cmds: Registry, e: Node)
    requires WfExpr(e) && e.Binary? && e.op == OrOr
    ensures var l, r := Size(cmds, e.left), Size(cmds, e.right);
      && Size(cmds, e) == l + 7 + r
      && forall k: nat :: l <= k <= l + 7 + r ==>
           Height(cmds, e, k) == if k == l || k == l + 3 || k == l + 6 then 1 else if k < l + 7 then -1
                                 else Height(cmds, e.right, k - l - 7)
  {
    HeightEnds(cmds, e.left);
  }

  lemma OperatorHeights(cmds: Registry, e: Node)
    requires WfExpr(e) && e.Binary? && e.op != AndAnd && e.op != OrOr
    ensures var l, r := Size(cmds, e.left), Size(cmds, e.right);
      && Size(cmds, e) == l + r + 1
      && forall k: nat :: l <= k <= l + r + 1 ==>
           Height(cmds, e, k) == if k <= l + r then Above(1, Height(cmds, e.right, k - l)) else 1
  {
    HeightEnds(cmds, e.left);
    HeightEnds(cmds, e.right);
  }

  // ----- Heights inside statements -----

  /** A start of an instruction, with the locals and temporaries on the stack there.  "Loose" marks the
      last pop of an if without else, which on one of the two ways finds one value less. */
  datatype Point = NoStart | Start(height: nat, loose: bool)

  function PointAt(h: int): Point { if h < 0 then NoStart else Start(h, false) }
  function Raised(d: nat, p: Point): Point { if p.Start? then p.(height := d + p.height) else p }

  function OptionalHeight(cmds: Registry, e: Node, k: nat): int {
    if e.Nil? then (if k <= 1 then k else -1) else Height(cmds, e, k)
  }

  /** The locals are counted from the statement's beginning. */
  function StmtPoint(cmds: Registry, n: Node, depth: nat, k: nat): Point
    decreases n, 1
  {
    match n
    case VarDecl(_, _, init) =>
      var s := SizeOptional(cmds, init);
      PointAt(if k <= s then OptionalHeight(cmds, init, k) else Only(k, SizeStmt(cmds, n, depth), 0))
    case ExprStmt(e) =>
      PointAt(if k <= Size(cmds, e) then Height(cmds, e, k) else Only(k, SizeStmt(cmds, n, depth), 0))
    case Block(stmts) =>
      var s := SizeStmts(cmds, stmts, depth + 1);
      if k <= s then StmtsPoint(cmds, stmts, depth + 1, k)
      else PointAt(s + |DeclaredIn(stmts, depth + 1)| - k)
    case If(_, _, _) => IfPoint(cmds, n, depth, k)
    case While(_, _) => WhilePoint(cmds, n, depth, k)
    case Print(e, _, _) =>
      PointAt(if k <= SizeOptional(cmds, e) then OptionalHeight(cmds, e, k) else Only(k, SizeStmt(cmds, n, depth), 0))
    case Return(e) =>
      PointAt(if k <= SizeOptional(cmds, e) then OptionalHeight(cmds, e, k) else Only(k, SizeStmt(cmds, n, depth), 0))
    case CustomCall(_, args, _) =>
      var a := SizeArgs(cmds, args);
      PointAt(if k <= a then HeightArgs(cmds, args, k) else if k == a + 3 then 1 else Only(k, a + 4, 0))
    case _ => PointAt(Only(k, 0, 0))
  }

  function IfPoint(cmds: Registry, n: Node, depth: nat, k: nat): Point
    requires n.If?
    decreases n, 0
  {
    var c, t := Size(cmds, n.cond), SizeStmt(cmds, n.thenBranch, depth);
    if k <= c then PointAt(Height(cmds, n.cond, k))
    else if k < c + 4 then PointAt(Only(k, c + 3, 1))
    else if n.elseBranch.Nil? then
      if k < c + 4 + t then StmtPoint(cmds, n.thenBranch, depth, k - c - 4)
      else if k == c + 4 + t then Start(1, true)
      else PointAt(Only(k, c + 5 + t, 0))
    else if k <= c + 4 + t then StmtPoint(cmds, n.thenBranch, depth, k - c - 4)
    else if k < c + 8 + t then PointAt(Only(k, c + 7 + t, 1))
    else StmtPoint(cmds, n.elseBranch, depth, k - c - 8 - t)
  }

  function WhilePoint(cmds: Registry, n: Node, depth: nat, k: nat): Point
    requires n.While?
    decreases n, 0
  {
    var c, b := Size(cmds, n.cond), SizeStmt(cmds, n.body, depth);
    if k <= c then PointAt(Height(cmds, n.cond, k))
    else if k < c + 4 then PointAt(Only(k, c + 3, 1))
    else if k <= c + 4 + b then StmtPoint(cmds, n.body, depth, k - c - 4)
    else if k == c + 7 + b then Start(1, false)
    else PointAt(Only(k, c + 8 + b, 0))
  }

  function StmtsPoint(cmds: Registry, stmts: seq<Node>, depth: nat, k: nat): Point
    decreases stmts, 0
  {
    if stmts == [] then PointAt(Only(k, 0, 0))
    else
      var s := SizeStmt(cmds, stmts[0], depth);
      if k < s then StmtPoint(cmds, stmts[0], depth, k)
      else Raised(Leak(stmts[0], depth), StmtsPoint(cmds, stmts[1..], depth, k - s))
  }

  function ProgramPoint(cmds: Registry, program: Node, k: nat): Point {
    if program.Block? then StmtsPoint(cmds, program.stmts, 0, k) else StmtPoint(cmds, program, 0, k)
  }

  lemma OptionalEnds(cmds: Registry, e: Node)
    requires e.Nil? || WfExpr(e)
    ensures OptionalHeight(cmds, e, 0) == 0 && OptionalHeight(cmds, e, SizeOptional(cmds, e)) == 1
    ensures SizeOptional(cmds, e) > 0
  {
    if !e.Nil? { HeightEnds(cmds, e); }
  }

  /** A statement starts with its locals only and ends with one more if it is a declaration in a scope. */
  lemma {:induction false} PointEnds(cmds: Registry, n: Node, live: nat, depth: nat)
    requires WfStmt(n, live, depth)
    ensures StmtPoint(cmds, n, depth, 0) == Start(0, false)
    ensures StmtPoint(cmds, n, depth, SizeStmt(cmds, n, depth)) == Start(Leak(n, depth), false)
    decreases n, 1
  {
    hide Height, HeightArgs, Size, SizeArgs, SizeOptional, OptionalHeight, StmtsPoint, IfPoint, DeclaredIn, WfExpr, WfArgs, WfStmts;
    if n.VarDecl? || n.Print? || n.Return? || n.ExprStmt? {
      SimpleEnds(cmds, n, live, depth);
    } else if n.CustomCall? {
      HeightArgsEnds(cmds, n.args);
    } else if n.Block? {
      PointsEnds(cmds, n.stmts, live, depth + 1);
    } else if n.If? {
      IfEnds(cmds, n, live, depth);
    } else if n.While? {
      HeightEnds(cmds, n.cond);
    }
  }

  lemma SimpleEnds(cmds: Registry, n: Node, live: nat, depth: nat)
    requires (n.VarDecl? || n.Print? || n.Return? || n.ExprStmt?) && WfStmt(n, live, depth)
    ensures StmtPoint(cmds, n, depth, 0) == Start(0, false)
    ensures StmtPoint(cmds, n, depth, SizeStmt(cmds, n, depth)) == Start(Leak(n, depth), false)
  {
    hide Height, Size, SizeOptional, OptionalHeight, WfExpr;
    if n.ExprStmt? { HeightEnds(cmds, n.expr); } else { OptionalEnds(cmds, n.expr); }
  }

  lemma {:induction false} IfEnds(cmds: Registry, n: Node, live: nat, depth: nat)
    requires n.If? && WfStmt(n, live, depth)
    ensures IfPoint(cmds, n, depth, 0) == Start(0, false)
    ensures IfPoint(cmds, n, depth, SizeStmt(cmds, n, depth)) == Start(0, false)
    decreases n, 0
  {
    hide Height, HeightArgs, Size, StmtPoint;
    HeightEnds(cmds, n.cond);
    PointEnds(cmds, n.elseBranch, live, depth);
  }

  lemma {:induction false} PointsEnds(cmds: Registry, stmts: seq<Node>, live: nat, depth: nat)
    requires WfStmts(stmts, live, depth)
    ensures StmtsPoint(cmds, stmts, depth, 0) == Start(0, false)
    ensures StmtsPoint(cmds, stmts, depth, SizeStmts(cmds, stmts, depth)) == Start(|DeclaredIn(stmts, depth)|, false)
    decreases stmts, 0
  {
    hide StmtPoint, SizeStmt;
    if stmts != [] {
      PointEnds(cmds, stmts[0], live, depth);
      PointsEnds(cmds, stmts[1..], live + Leak(stmts[0], depth), depth);
      var s := SizeStmt(cmds, stmts[0], depth);
      assert StmtsPoint(cmds, stmts, depth, s + SizeStmts(cmds, stmts[1..], depth))
          == Raised(Leak(stmts[0], depth), StmtsPoint(cmds, stmts[1..], depth, SizeStmts(cmds, stmts[1..], depth)));
    }
  }

  // ----- The sizes are those of the emitted code -----

  lemma VariableSize(h: Host, locals: seq<Local>, pool: seq<Value>, x: string)
    ensures |GetVariable(h, locals, pool, x).code| == 2 && |SetVariable(h, locals, pool, x).code| == 2
  {
  }

  lemma {:induction false} SizeOfExpr(env: Env, locals: seq<Local>, pool: seq<Value>, e: Node)
    ensures var c := CompileExpr(env, locals, pool, e); c.Emitted? ==> |c.code| == Size(env.cmds, e)
    decreases e, 2
  {
    hide FindConstant, AddConstant, CompileArgs, CompileBinary, GetVariable, SetVariable;
    if e.Identifier? {
      VariableSize(env.h, locals, pool, e.name);
    } else if e.Unary? {
      SizeOfExpr(env, locals, pool, e.operand);
    } else if e.Binary? {
      SizeOfBinary(env, locals, pool, e);
    } else if e.Assign? {
      SizeOfExpr(env, locals, pool, e.expr);
      var c := CompileExpr(env, locals, pool, e.expr);
      if c.Emitted? { VariableSize(env.h, locals, c.pool, e.name); }
    } else if e.Call? {
      SizeOfArgs(env, locals, pool, e.args);
      var c := CompileArgs(env, locals, pool, e.args);
      if c.Emitted? { VariableSize(env.h, locals, c.pool, e.name); }
    }
  }

  lemma {:induction false} SizeOfBinary(env: Env, locals: seq<Local>, pool: seq<Value>, e: Node)
    requires e.Binary?
    ensures var c := CompileBinary(env, locals, pool, e); c.Emitted? ==> |c.code| == Size(env.cmds, e)
    decreases e, 1
  {
    hide CompileExpr;
    SizeOfExpr(env, locals, pool, e.left);
    var l := CompileExpr(env, locals, pool, e.left);
    if l.Emitted? { SizeOfExpr(env, locals, l.pool, e.right); }
  }

  lemma {:induction false} SizeOfArgs(env: Env, locals: seq<Local>, pool: seq<Value>, args: seq<Node>)
    ensures var c := CompileArgs(env, locals, pool, args); c.Emitted? ==> |c.code| == SizeArgs(env.cmds, args)
    decreases args, 0
  {
    hide CompileExpr;
    if args != [] {
      SizeOfExpr(env, locals, pool, args[0]);
      var c := CompileExpr(env, locals, pool, args[0]);
      if c.Emitted? { SizeOfArgs(env, locals, c.pool, args[1..]); }
    }
  }

  lemma SizeOfOptional(env: Env, locals: seq<Local>, pool: seq<Value>, e: Node)
    ensures var c := CompileOptional(env, locals, pool, e); c.Emitted? ==> |c.code| == SizeOptional(env.cmds, e)
  {
    hide CompileExpr;
    SizeOfExpr(env, locals, pool, e);
  }

  lemma {:induction false} PopsSize(n: nat)
    ensures |Pops(n)| == n
  {
    if n > 0 { PopsSize(n - 1); }
  }

  /** Exactness matters here: a refused local would not be popped. */
  lemma {:induction false} SizeOfStmt(env: Env, locals: seq<Local>, depth: nat, pool: seq<Value>, n: Node)
    requires WfStmt(n, |locals|, depth) && DepthsOrdered(locals, depth)
    ensures var c := CompileStmt(env, locals, depth, pool, n);
      c.Compiled? && c.exact ==> |c.code| == SizeStmt(env.cmds, n, depth)
    decreases n, 1
  {
    hide CompileOptional, CompileExpr, CompileArgs, CompileStmts, CompileIf, CompileWhile, KeepLocals, Pops, FindConstant, WfExpr;
    if n.VarDecl? || n.Print? || n.Return? {
      SizeOfOptional(env, locals, pool, n.expr);
    } else if n.ExprStmt? {
      SizeOfExpr(env, locals, pool, n.expr);
    } else if n.Block? {
      SizeOfBlock(env, locals, depth, pool, n);
    } else if n.If? {
      SizeOfIf(env, locals, depth, pool, n);
    } else if n.While? {
      SizeOfWhile(env, locals, depth, pool, n);
    } else if n.CustomCall? {
      SizeOfArgs(env, locals, pool, n.args);
    }
  }

  lemma {:induction false} SizeOfBlock(env: Env, locals: seq<Local>, depth: nat, pool: seq<Value>, n: Node)
    requires n.Block? && WfStmt(n, |locals|, depth) && DepthsOrdered(locals, depth)
    ensures var c := CompileStmt(env, locals, depth, pool, n);
      c.Compiled? && c.exact ==> |c.code| == SizeStmt(env.cmds, n, depth)
    decreases n, 0
  {
    hide CompileStmts, KeepLocals, Pops;
    var c := CompileStmts(env, locals, depth + 1, pool, n.stmts);
    SizeOfStmts(env, locals, depth + 1, pool, n.stmts);
    LocalsAfterAll(env, locals, depth + 1, pool, n.stmts);
    if c.Compiled? && c.exact {
      KeepLocalsPrefix(locals, DeclaredIn(n.stmts, depth + 1), depth);
      PopsSize(|DeclaredIn(n.stmts, depth + 1)|);
    }
  }

  lemma {:induction false} SizeOfIf(env: Env, locals: seq<Local>, depth: nat, pool: seq<Value>, n: Node)
    requires n.If? && WfStmt(n, |locals|, depth) && DepthsOrdered(locals, depth)
    ensures var c := CompileIf(env, locals, depth, pool, n);
      c.Compiled? && c.exact ==> |c.code| == SizeStmt(env.cmds, n, depth)
    decreases n, 0
  {
    hide CompileExpr, CompileStmt;
    SizeOfExpr(env, locals, pool, n.cond);
    var c := CompileExpr(env, locals, pool, n.cond);
    if c.Emitted? {
      SizeOfStmt(env, locals, depth, c.pool, n.thenBranch);
      LocalsAfter(env, locals, depth, c.pool, n.thenBranch);
      var t := CompileStmt(env, locals, depth, c.pool, n.thenBranch);
      if t.Compiled? && t.exact {
        assert t.locals == locals;
        SizeOfStmt(env, locals, depth, t.pool, n.elseBranch);
      }
      var b := CompileBranches(env, locals, depth, c.pool, n);
      assert b.Compiled? && b.exact && n.elseBranch.Nil? ==> |b.code| == |t.code| + 5;
    }
  }

  lemma {:induction false} SizeOfWhile(env: Env, locals: seq<Local>, depth: nat, pool: seq<Value>, n: Node)
    requires n.While? && WfStmt(n, |locals|, depth) && DepthsOrdered(locals, depth)
    ensures var c := CompileWhile(env, locals, depth, pool, n);
      c.Compiled? && c.exact ==> |c.code| == SizeStmt(env.cmds, n, depth)
    decreases n, 0
  {
    hide CompileExpr, CompileStmt;
    SizeOfExpr(env, locals, pool, n.cond);
    var c := CompileExpr(env, locals, pool, n.cond);
    if c.Emitted? { SizeOfStmt(env, locals, depth, c.pool, n.body); }
  }

  lemma {:induction false} SizeOfStmts(env: Env, locals: seq<Local>, depth: nat, pool: seq<Value>, stmts: seq<Node>)
    requires WfStmts(stmts, |locals|, depth) && DepthsOrdered(locals, depth)
    ensures var c := CompileStmts(env, locals, depth, pool, stmts);
      c.Compiled? && c.exact ==> |c.code| == SizeStmts(env.cmds, stmts, depth)
    decreases stmts, 0
  {
    hide CompileStmt, WfStmt;
    if stmts != [] {
      SizeOfStmt(env, locals, depth, pool, stmts[0]);
      LocalsAfter(env, locals, depth, pool, stmts[0]);
      var c := CompileStmt(env, locals, depth, pool, stmts[0]);
      if c.Compiled? && c.exact {
        OrderedWith(locals, NewLocals(stmts[0], depth), depth);
        SizeOfStmts(env, c.locals, depth, c.pool, stmts[1..]);
      }
    }
  }
}
