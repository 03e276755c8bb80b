/** Compiled statements and programs keep to the heights read off the tree in every reachable state
    of the machine, also where the operands have types no interpreter run would accept. */
module BsStackSafety {
  import opened BsAst
  import opened BsValue
  import opened BsScopes
  import opened BsBytecode
  import opened BsVm
  import opened BsCodegen
  import opened BsSlots
  import opened BsWellFormed
  import opened BsLocals
  import opened BsLayout
  import opened BsHeights
  import opened BsSimExpr
  import opened BsSimOperators
  import opened BsSimStmt
  import opened BsDiscipline
  import opened BsCorrectness

  /** A stack of that size, with base values below the statement's own; at a loose point it may be empty
      instead of holding one value. */
  predicate Fits(p: Point, base: nat, size: nat) {
    p.Start? && (size == base + p.height || (p.loose && size == 0 && base + p.height == 1))
  }

  predicate AtStmt(cmds: Registry, n: Node, depth: nat, at: nat, base: nat, vm: Vm) {
    at <= vm.ip <= at + SizeStmt(cmds, n, depth) && Fits(StmtPoint(cmds, n, depth, vm.ip - at), base, |vm.stack|)
  }

  predicate Loose(p: Point) { p.Start? && p.loose }

  ghost predicate StmtGoes(m: Image, n: Node, depth: nat, at: nat, base: nat, vm: Vm) {
    && at <= vm.ip
    && Disciplined(m, vm, Loose(StmtPoint(m.cmds, n, depth, vm.ip - at)))
    && !Step(m, vm).Unsafe?
    && (Step(m, vm).Running? ==> AtStmt(m.cmds, n, depth, at, base, Step(m, vm).vm))
  }

  /** The code stands in place and the stack has room for it. */
  ghost predicate StmtInPlace(m: Image, locals: seq<Local>, depth: nat, pool: seq<Value>, n: Node, at: nat) {
    && WfStmt(n, |locals|, depth) && DepthsOrdered(locals, depth)
    && PlacedStmt(m, CompileStmt(EnvOf(m), locals, depth, pool, n), at)
    && |locals| + NeedStmt(n, depth) <= MAX_STACK
  }

  lemma {:induction false} StmtStep(m: Image, locals: seq<Local>, depth: nat, pool: seq<Value>, n: Node, at: nat, vm: Vm)
    requires StmtInPlace(m, locals, depth, pool, n, at)
    requires AtStmt(m.cmds, n, depth, at, |locals|, vm) && vm.ip < at + SizeStmt(m.cmds, n, depth)
    ensures StmtGoes(m, n, depth, at, |locals|, vm)
    decreases n, 3
  {
    hide StmtPoint, StmtGoes, Step, WfStmt, NeedStmt, CompileIf, CompileWhile;
    if n.VarDecl? || n.ExprStmt? || n.Print? || n.Return? {
      SimpleStep(m, locals, depth, pool, n, at, vm);
    } else if n.CustomCall? {
      CommandStep(m, locals, depth, pool, n, at, vm);
    } else if n.Block? {
      BlockStep(m, locals, depth, pool, n, at, vm);
    } else if n.If? {
      IfStep(m, locals, depth, pool, n, at, vm);
    } else if n.While? {
      WhileStep(m, locals, depth, pool, n, at, vm);
    } else {
      assert false;
    }
  }

  // ----- Statements of one expression -----

  predicate AtOptional(cmds: Registry, e: Node, at: nat, base: nat, vm: Vm) {
    at <= vm.ip <= at + SizeOptional(cmds, e) && base <= |vm.stack|
    && OptionalHeight(cmds, e, vm.ip - at) == |vm.stack| - base
  }

  ghost predicate OptionalGoes(m: Image, e: Node, at: nat, base: nat, vm: Vm) {
    && Disciplined(m, vm, false)
    && !Step(m, vm).Unsafe?
    && (Step(m, vm).Running? ==> AtOptional(m.cmds, e, at, base, Step(m, vm).vm))
  }

  lemma OptionalStep(m: Image, locals: seq<Local>, pool: seq<Value>, e: Node, at: nat, base: nat, vm: Vm)
    requires e.Nil? || WfExpr(e)
    requires Placed(m, CompileOptional(EnvOf(m), locals, pool, e), at)
    requires |locals| <= base && base + (if e.Nil? then 1 else Need(e)) <= MAX_STACK
    requires AtOptional(m.cmds, e, at, base, vm) && vm.ip < at + SizeOptional(m.cmds, e)
    ensures OptionalGoes(m, e, at, base, vm)
  {
    hide Step, Disciplined, CodeAt, CompileExpr, WfExpr, Need, Height;
    if e.Nil? {
      NullStep(m, vm);
    } else {
      ExprStep(m, locals, pool, e, at, base, vm);
    }
  }

  lemma NullStep(m: Image, vm: Vm)
    requires CodeAt(m.code, vm.ip, Encode(PushNull)) && |vm.stack| < MAX_STACK
    ensures Disciplined(m, vm, false) && !Step(m, vm).Unsafe?
    ensures Step(m, vm).Running? ==> Step(m, vm).vm.ip == vm.ip + 1 && |Step(m, vm).vm.stack| == |vm.stack| + 1
  {
    hide Step, CodeAt;
    StepEffect(m, vm, PushNull);
  }

  /** The instruction a statement of one expression ends with. */
  function LastOf(n: Node): Instr
    requires n.ExprStmt? || n.Print? || n.Return?
  {
    if n.ExprStmt? then Pop else if n.Return? then ReturnTop else if n.isRaw then PrintRaw else PrintLine
  }

  lemma SimpleStep(m: Image, locals: seq<Local>, depth: nat, pool: seq<Value>, n: Node, at: nat, vm: Vm)
    requires (n.VarDecl? || n.ExprStmt? || n.Print? || n.Return?) && StmtInPlace(m, locals, depth, pool, n, at)
    requires AtStmt(m.cmds, n, depth, at, |locals|, vm) && vm.ip < at + SizeStmt(m.cmds, n, depth)
    ensures StmtGoes(m, n, depth, at, |locals|, vm)
  {
    if n.VarDecl? {
      DeclStep(m, locals, depth, pool, n, at, vm);
    } else if n.ExprStmt? {
      ExprStmtStep(m, locals, depth, pool, n, at, vm);
    } else {
      PrintStep(m, locals, depth, pool, n, at, vm);
    }
  }

  lemma ExprStmtStep(m: Image, locals: seq<Local>, depth: nat, pool: seq<Value>, n: Node, at: nat, vm: Vm)
    requires n.ExprStmt? && StmtInPlace(m, locals, depth, pool, n, at)
    requires AtStmt(m.cmds, n, depth, at, |locals|, vm) && vm.ip < at + SizeStmt(m.cmds, n, depth)
    ensures StmtGoes(m, n, depth, at, |locals|, vm)
  {
    hide Step, Disciplined, CodeAt, Encode, CompileExpr, WfExpr, Need, Height, Size;
    var c := CompileExpr(EnvOf(m), locals, pool, n.expr);
    SizeOfExpr(EnvOf(m), locals, pool, n.expr);
    CodeAtSplit(m.code, at, c.code, Encode(Pop));
    if vm.ip < at + |c.code| {
      ExprStep(m, locals, pool, n.expr, at, |locals|, vm);
    } else {
      HeightEnds(m.cmds, n.expr);
      OneStep(m, vm, Pop);
    }
  }

  lemma PrintStep(m: Image, locals: seq<Local>, depth: nat, pool: seq<Value>, n: Node, at: nat, vm: Vm)
    requires (n.Print? || n.Return?) && StmtInPlace(m, locals, depth, pool, n, at)
    requires AtStmt(m.cmds, n, depth, at, |locals|, vm) && vm.ip < at + SizeStmt(m.cmds, n, depth)
    ensures StmtGoes(m, n, depth, at, |locals|, vm)
  {
    hide Step, Disciplined, CodeAt, Encode, CompileOptional, WfExpr, Need, OptionalHeight, SizeOptional;
    var c := CompileOptional(EnvOf(m), locals, pool, n.expr);
    SizeOfOptional(EnvOf(m), locals, pool, n.expr);
    CodeAtSplit(m.code, at, c.code, Encode(LastOf(n)));
    if vm.ip < at + |c.code| {
      OptionalStep(m, locals, pool, n.expr, at, |locals|, vm);
    } else {
      OptionalEnds(m.cmds, n.expr);
      OneStep(m, vm, LastOf(n));
    }
  }

  lemma DeclStep(m: Image, locals: seq<Local>, depth: nat, pool: seq<Value>, n: Node, at: nat, vm: Vm)
    requires n.VarDecl? && StmtInPlace(m, locals, depth, pool, n, at)
    requires AtStmt(m.cmds, n, depth, at, |locals|, vm) && vm.ip < at + SizeStmt(m.cmds, n, depth)
    ensures StmtGoes(m, n, depth, at, |locals|, vm)
  {
    hide Step, Disciplined, CodeAt, Encode, CompileOptional, WfExpr, Need, OptionalHeight, SizeOptional, FindConstant, AddConstant;
    var c := CompileOptional(EnvOf(m), locals, pool, n.expr);
    SizeOfOptional(EnvOf(m), locals, pool, n.expr);
    OptionalEnds(m.cmds, n.expr);
    if depth > 0 {
      OptionalStep(m, locals, pool, n.expr, at, |locals|, vm);
    } else {
      AddConstantGrows(m.h, c.pool, Str(n.name));
      CodeAtSplit(m.code, at, c.code, Encode(DefineGlobal(PoolByte(m.h, c.pool, Str(n.name)))));
      if vm.ip < at + |c.code| {
        OptionalStep(m, locals, pool, n.expr, at, |locals|, vm);
      } else {
        DefineStep(m, c.pool, n.name, vm);
      }
    }
  }

  lemma DefineStep(m: Image, pool: seq<Value>, x: string, vm: Vm)
    requires CodeAt(m.code, vm.ip, Encode(DefineGlobal(PoolByte(m.h, pool, Str(x)))))
    requires AddConstant(m.h, pool, Str(x)) <= m.consts && FindConstant(m.h, pool, Str(x)) < MAX_CONSTANTS
    requires 0 < |vm.stack| <= MAX_STACK
    ensures Disciplined(m, vm, false) && !Step(m, vm).Unsafe?
    ensures Step(m, vm).Running? ==> Step(m, vm).vm.ip == vm.ip + 2 && |Step(m, vm).vm.stack| == |vm.stack| - 1
  {
    hide Step, CodeAt, FindConstant, AddConstant;
    InPool(m, pool, Str(x));
    StepEffect(m, vm, DefineGlobal(PoolByte(m.h, pool, Str(x))));
  }

  lemma CommandStep(m: Image, locals: seq<Local>, depth: nat, pool: seq<Value>, n: Node, at: nat, vm: Vm)
    requires n.CustomCall? && StmtInPlace(m, locals, depth, pool, n, at)
    requires AtStmt(m.cmds, n, depth, at, |locals|, vm) && vm.ip < at + SizeStmt(m.cmds, n, depth)
    ensures StmtGoes(m, n, depth, at, |locals|, vm)
  {
    hide Step, Disciplined, CodeAt, Encode, CompileArgs, WfArgs, NeedArgs, HeightArgs, SizeArgs, FindConstant, AddConstant;
    var c := PlacedCustomCall(m, locals, depth, pool, n, at);
    SizeOfArgs(EnvOf(m), locals, pool, n.args);
    HeightArgsEnds(m.cmds, n.args);
    var call := Invoke(m.h, c.pool, n.name, |n.args|);
    InvokeSize(m.h, c.pool, n.name, |n.args|);
    NeedOfArgs(n.args);
    if vm.ip < at + |c.code| {
      ArgsStep(m, locals, pool, n.args, at, |locals|, vm);
    } else if vm.ip == at + |c.code| {
      InvokeStep(m, c.pool, n.name, |n.args|, vm);
    } else {
      OneStep(m, vm, Pop);
    }
  }

  lemma InvokeSize(h: Host, pool: seq<Value>, name: string, argc: nat)
    ensures |Invoke(h, pool, name, argc).code| == 3
  {
  }

  lemma {:induction false} NeedOfArgs(args: seq<Node>)
    requires WfArgs(args)
    ensures NeedArgs(args) >= |args|
  {
    if args != [] { NeedOfArgs(args[1..]); }
  }

  // ----- Blocks -----

  predicate AtStmts(cmds: Registry, stmts: seq<Node>, depth: nat, at: nat, base: nat, vm: Vm) {
    at <= vm.ip <= at + SizeStmts(cmds, stmts, depth) && Fits(StmtsPoint(cmds, stmts, depth, vm.ip - at), base, |vm.stack|)
  }

  ghost predicate StmtsGo(m: Image, stmts: seq<Node>, depth: nat, at: nat, base: nat, vm: Vm) {
    && at <= vm.ip
    && Disciplined(m, vm, Loose(StmtsPoint(m.cmds, stmts, depth, vm.ip - at)))
    && !Step(m, vm).Unsafe?
    && (Step(m, vm).Running? ==> AtStmts(m.cmds, stmts, depth, at, base, Step(m, vm).vm))
  }

  lemma {:induction false} PopInside(code: seq<byte>, at: nat, n: nat, i: nat)
    requires CodeAt(code, at, Pops(n)) && i < n
    ensures CodeAt(code, at + i, Encode(Pop))
    decreases i
  {
    hide CodeAt;
    CodeAtSplit(code, at, Encode(Pop), Pops(n - 1));
    if i > 0 { PopInside(code, at + 1, n - 1, i - 1); }
  }

  lemma {:induction false} NeedOfDeclared(stmts: seq<Node>, depth: nat)
    ensures NeedStmts(stmts, depth) >= |DeclaredIn(stmts, depth)|
  {
    hide NeedStmt;
    if stmts != [] { NeedOfDeclared(stmts[1..], depth); }
  }

  lemma {:induction false} BlockStep(m: Image, locals: seq<Local>, depth: nat, pool: seq<Value>, n: Node, at: nat, vm: Vm)
    requires n.Block? && StmtInPlace(m, locals, depth, pool, n, at)
    requires AtStmt(m.cmds, n, depth, at, |locals|, vm) && vm.ip < at + SizeStmt(m.cmds, n, depth)
    ensures StmtGoes(m, n, depth, at, |locals|, vm)
    decreases n, 2
  {
    hide Step, Disciplined, CodeAt, Encode, CompileStmts, WfStmts, NeedStmts, StmtsPoint, SizeStmts, Pops, KeepLocals;
    var c, inner := PlacedBlock(m, locals, depth, pool, n, at);
    LocalsAfterAll(EnvOf(m), locals, depth + 1, pool, n.stmts);
    assert inner == c.locals[|locals|..] == DeclaredIn(n.stmts, depth + 1);
    NeedOfDeclared(n.stmts, depth + 1);
    SizeOfStmts(EnvOf(m), locals, depth + 1, pool, n.stmts);
    PointsEnds(m.cmds, n.stmts, |locals|, depth + 1);
    if vm.ip < at + |c.code| {
      StmtsStep(m, locals, depth + 1, pool, n.stmts, at, vm);
    } else {
      PopInside(m.code, at + |c.code|, |inner|, vm.ip - at - |c.code|);
      OneStep(m, vm, Pop);
    }
  }

  lemma {:induction false} StmtsStep(m: Image, locals: seq<Local>, depth: nat, pool: seq<Value>, stmts: seq<Node>, at: nat, vm: Vm)
    requires WfStmts(stmts, |locals|, depth) && DepthsOrdered(locals, depth)
    requires PlacedStmt(m, CompileStmts(EnvOf(m), locals, depth, pool, stmts), at)
    requires |locals| + NeedStmts(stmts, depth) <= MAX_STACK
    requires AtStmts(m.cmds, stmts, depth, at, |locals|, vm) && vm.ip < at + SizeStmts(m.cmds, stmts, depth)
    ensures StmtsGo(m, stmts, depth, at, |locals|, vm)
    decreases stmts, 0
  {
    hide Step, Disciplined, CodeAt, CompileStmt, WfStmt, NeedStmt, StmtPoint, SizeStmt;
    var c := CompileStmt(EnvOf(m), locals, depth, pool, stmts[0]);
    var d := CompileStmts(EnvOf(m), c.locals, depth, c.pool, stmts[1..]);
    StmtsPool(EnvOf(m), c.locals, depth, c.pool, stmts[1..]);
    CodeAtSplit(m.code, at, c.code, d.code);
    LocalsAfter(EnvOf(m), locals, depth, pool, stmts[0]);
    SizeOfStmt(EnvOf(m), locals, depth, pool, stmts[0]);
    PointEnds(m.cmds, stmts[0], |locals|, depth);
    PointsEnds(m.cmds, stmts[1..], |locals| + Leak(stmts[0], depth), depth);
    if vm.ip < at + |c.code| {
      StmtStep(m, locals, depth, pool, stmts[0], at, vm);
    } else {
      OrderedWith(locals, NewLocals(stmts[0], depth), depth);
      StmtsStep(m, c.locals, depth, c.pool, stmts[1..], at + |c.code|, vm);
    }
  }

  // ----- Branches and loops -----

  lemma IfPoints(cmds: Registry, n: Node, depth: nat)
    requires n.If?
    ensures forall k: nat :: StmtPoint(cmds, n, depth, k) == IfPoint(cmds, n, depth, k)
  {
    hide IfPoint;
  }

  lemma WhilePoints(cmds: Registry, n: Node, depth: nat)
    requires n.While?
    ensures forall k: nat :: StmtPoint(cmds, n, depth, k) == WhilePoint(cmds, n, depth, k)
  {
    hide WhilePoint;
  }

  lemma {:induction false} IfStep(m: Image, locals: seq<Local>, depth: nat, pool: seq<Value>, n: Node, at: nat, vm: Vm)
    requires n.If? && WfStmt(n, |locals|, depth) && DepthsOrdered(locals, depth)
    requires PlacedStmt(m, CompileIf(EnvOf(m), locals, depth, pool, n), at) && |locals| + NeedStmt(n, depth) <= MAX_STACK
    requires AtStmt(m.cmds, n, depth, at, |locals|, vm) && vm.ip < at + SizeStmt(m.cmds, n, depth)
    ensures StmtGoes(m, n, depth, at, |locals|, vm)
    decreases n, 2
  {
    hide Step, Disciplined, CodeAt, CompileExpr, CompileIf, CompileBranches, WfExpr, Need, Height, Size, StmtPoint;
    var c := PlacedIf(m, locals, depth, pool, n, at);
    IfPoints(m.cmds, n, depth);
    HeightEnds(m.cmds, n.cond);
    if vm.ip < at + |c.code| {
      ExprStep(m, locals, pool, n.cond, at, |locals|, vm);
    } else {
      BranchesStep(m, locals, depth, c.pool, n, at, vm);
    }
  }

  lemma PlacedIf(m: Image, locals: seq<Local>, depth: nat, pool: seq<Value>, n: Node, at: nat) returns (c: Emitted)
    requires n.If? && PlacedStmt(m, CompileIf(EnvOf(m), locals, depth, pool, n), at)
    ensures c == CompileExpr(EnvOf(m), locals, pool, n.cond) && Placed(m, c, at)
    ensures |c.code| == Size(m.cmds, n.cond)
    ensures PlacedStmt(m, CompileBranches(EnvOf(m), locals, depth, c.pool, n), at + |c.code|)
  {
    hide CodeAt, CompileExpr, CompileBranches, Size;
    c := CompileExpr(EnvOf(m), locals, pool, n.cond);
    var b := CompileBranches(EnvOf(m), locals, depth, c.pool, n);
    BranchesPool(m, locals, depth, c.pool, n);
    CodeAtSplit(m.code, at, c.code, b.code);
    SizeOfExpr(EnvOf(m), locals, pool, n.cond);
  }

  lemma BranchesPool(m: Image, locals: seq<Local>, depth: nat, pool: seq<Value>, n: Node)
    requires n.If?
    ensures var b := CompileBranches(EnvOf(m), locals, depth, pool, n); b.Compiled? ==> pool <= b.pool
  {
    hide CompileStmt, NoDuplicates, IfCode, IfElseCode;
    var t := CompileStmt(EnvOf(m), locals, depth, pool, n.thenBranch);
    StmtPool(EnvOf(m), locals, depth, pool, n.thenBranch);
    if t.Compiled? { StmtPool(EnvOf(m), t.locals, depth, t.pool, n.elseBranch); }
  }

  lemma {:induction false} BranchesStep(m: Image, locals: seq<Local>, depth: nat, pool: seq<Value>, n: Node, at: nat, vm: Vm)
    requires n.If? && WfStmt(n, |locals|, depth) && DepthsOrdered(locals, depth)
    requires PlacedStmt(m, CompileBranches(EnvOf(m), locals, depth, pool, n), at + Size(m.cmds, n.cond))
    requires |locals| + NeedStmt(n, depth) <= MAX_STACK
    requires AtStmt(m.cmds, n, depth, at, |locals|, vm)
    requires at + Size(m.cmds, n.cond) <= vm.ip < at + SizeStmt(m.cmds, n, depth)
    ensures StmtGoes(m, n, depth, at, |locals|, vm)
    decreases n, 1
  {
    hide Step, Disciplined, CodeAt, Encode, CompileStmt;
    if n.elseBranch.Nil? {
      ThenStep(m, locals, depth, pool, n, at, vm);
    } else {
      ThenElseStep(m, locals, depth, pool, n, at, vm);
    }
  }

  lemma {:induction false} ThenStep(m: Image, locals: seq<Local>, depth: nat, pool: seq<Value>, n: Node, at: nat, vm: Vm)
    requires n.If? && n.elseBranch.Nil? && WfStmt(n, |locals|, depth) && DepthsOrdered(locals, depth)
    requires PlacedStmt(m, CompileBranches(EnvOf(m), locals, depth, pool, n), at + Size(m.cmds, n.cond))
    requires |locals| + NeedStmt(n, depth) <= MAX_STACK
    requires AtStmt(m.cmds, n, depth, at, |locals|, vm)
    requires at + Size(m.cmds, n.cond) <= vm.ip < at + SizeStmt(m.cmds, n, depth)
    ensures StmtGoes(m, n, depth, at, |locals|, vm)
    decreases n, 0
  {
    hide Step, Disciplined, CodeAt, Encode, CompileStmt, IfCode, WfExpr, Need, Height, Size, StmtPoint;
    IfPoints(m.cmds, n, depth);
    var base := at + Size(m.cmds, n.cond);
    var t := CompileStmt(EnvOf(m), locals, depth, pool, n.thenBranch);
    IfLayout(m.code, base, t.code);
    SizeOfStmt(EnvOf(m), locals, depth, pool, n.thenBranch);
    HeightEnds(m.cmds, n.cond);
    PointEnds(m.cmds, n.thenBranch, |locals|, depth);
    var k := vm.ip - base;
    if k == 0 { BranchStep(m, vm, 1 + |t.code|); }
    else if k == 3 { OneStep(m, vm, Pop); }
    else if k < 4 + |t.code| { StmtStep(m, locals, depth, pool, n.thenBranch, base + 4, vm); }
    else { LoosePop(m, vm); }
  }

  /** The last pop of an if without else: with nothing on the stack it changes nothing. */
  lemma LoosePop(m: Image, vm: Vm)
    requires CodeAt(m.code, vm.ip, Encode(Pop)) && |vm.stack| <= 1
    ensures Disciplined(m, vm, true) && !Step(m, vm).Unsafe?
    ensures Step(m, vm) == Running(vm.(ip := vm.ip + 1, stack := []))
  {
    FetchEncode(m.code, vm.ip, Pop);
  }

  lemma {:induction false} ThenElseStep(m: Image, locals: seq<Local>, depth: nat, pool: seq<Value>, n: Node, at: nat, vm: Vm)
    requires n.If? && !n.elseBranch.Nil? && WfStmt(n, |locals|, depth) && DepthsOrdered(locals, depth)
    requires PlacedStmt(m, CompileBranches(EnvOf(m), locals, depth, pool, n), at + Size(m.cmds, n.cond))
    requires |locals| + NeedStmt(n, depth) <= MAX_STACK
    requires AtStmt(m.cmds, n, depth, at, |locals|, vm)
    requires at + Size(m.cmds, n.cond) <= vm.ip < at + SizeStmt(m.cmds, n, depth)
    ensures StmtGoes(m, n, depth, at, |locals|, vm)
    decreases n, 0
  {
    hide Step, Disciplined, CodeAt, Encode, CompileStmt, IfElseCode, WfExpr, Need, Height, Size, StmtPoint;
    IfPoints(m.cmds, n, depth);
    var base := at + Size(m.cmds, n.cond);
    var t := CompileStmt(EnvOf(m), locals, depth, pool, n.thenBranch);
    LocalsAfter(EnvOf(m), locals, depth, pool, n.thenBranch);
    assert t.locals == locals;
    var e := CompileStmt(EnvOf(m), locals, depth, t.pool, n.elseBranch);
    StmtPool(EnvOf(m), locals, depth, t.pool, n.elseBranch);
    IfElseLayout(m.code, base, t.code, e.code);
    SizeOfStmt(EnvOf(m), locals, depth, pool, n.thenBranch);
    SizeOfStmt(EnvOf(m), locals, depth, t.pool, n.elseBranch);
    HeightEnds(m.cmds, n.cond);
    PointEnds(m.cmds, n.thenBranch, |locals|, depth);
    PointEnds(m.cmds, n.elseBranch, |locals|, depth);
    var k := vm.ip - base;
    if k == 0 { BranchStep(m, vm, |t.code| + 4); }
    else if k == 3 { OneStep(m, vm, Pop); }
    else if k < 4 + |t.code| { StmtStep(m, locals, depth, pool, n.thenBranch, base + 4, vm); }
    else if k == 4 + |t.code| { JumpStep(m, vm, 1 + |e.code|); }
    else if k == 7 + |t.code| { OneStep(m, vm, Pop); }
    else { StmtStep(m, locals, depth, t.pool, n.elseBranch, base + 8 + |t.code|, vm); }
  }

  lemma {:induction false} WhileStep(m: Image, locals: seq<Local>, depth: nat, pool: seq<Value>, n: Node, at: nat, vm: Vm)
    requires n.While? && WfStmt(n, |locals|, depth) && DepthsOrdered(locals, depth)
    requires PlacedStmt(m, CompileWhile(EnvOf(m), locals, depth, pool, n), at) && |locals| + NeedStmt(n, depth) <= MAX_STACK
    requires AtStmt(m.cmds, n, depth, at, |locals|, vm) && vm.ip < at + SizeStmt(m.cmds, n, depth)
    ensures StmtGoes(m, n, depth, at, |locals|, vm)
    decreases n, 2
  {
    hide Step, Disciplined, CodeAt, Encode, CompileExpr, CompileStmt, WhileCode, WfExpr, Need, Height, Size, StmtPoint;
    WhilePoints(m.cmds, n, depth);
    var c := CompileExpr(EnvOf(m), locals, pool, n.cond);
    var b := CompileStmt(EnvOf(m), locals, depth, c.pool, n.body);
    StmtPool(EnvOf(m), locals, depth, c.pool, n.body);
    WhileLayout(m.code, at, c.code, b.code);
    SizeOfExpr(EnvOf(m), locals, pool, n.cond);
    SizeOfStmt(EnvOf(m), locals, depth, c.pool, n.body);
    HeightEnds(m.cmds, n.cond);
    PointEnds(m.cmds, n.body, |locals|, depth);
    var k := vm.ip - at;
    if k < |c.code| { ExprStep(m, locals, pool, n.cond, at, |locals|, vm); }
    else if k == |c.code| { BranchStep(m, vm, |b.code| + 4); }
    else if k == |c.code| + 3 { OneStep(m, vm, Pop); }
    else if k < |c.code| + 4 + |b.code| { StmtStep(m, locals, depth, c.pool, n.body, at + |c.code| + 4, vm); }
    else if k == |c.code| + 4 + |b.code| { LoopStep(m, vm, |c.code| + |b.code| + 7); }
    else { OneStep(m, vm, Pop); }
  }
}
