/** Where the two engines part: the constructs outside the common language, each with the exact
    condition under which it is harmless, and a program on which the machine leaves its stack. */
module BsLimits {
  import opened BsAst
  import opened BsValue
  import opened BsScopes
  import opened BsInterpreter
  import opened BsScopeDiscipline
  import opened BsBytecode
  import opened BsVm
  import opened BsCodegen
  import opened BsSlots
  import opened BsWellFormed
  import opened BsLocals
  import opened BsLayout
  import opened BsSimExpr
  import opened BsSimOperators
  import opened BsSimStmt
  import opened BsCorrectness

  /** An if without else whose condition holds and whose branch ends normally: the machine arrives behind the
      code with the top local popped as well, so the slots still agree with the names exactly when no local
      is live. */
  lemma ElselessIf(m: Image, locals: seq<Local>, depth: nat, pool: seq<Value>, n: Node, fuel: nat,
                   s: State, vm: Vm, slots: seq<Value>) returns (vm1: Vm, slots1: seq<Value>)
    requires n.If? && n.elseBranch.Nil? && WfExpr(n.cond)
    requires WfStmt(n.thenBranch, |locals|, depth) && Leak(n.thenBranch, depth) == 0
    requires ReadyStmt(m, locals, depth, CompileIf(EnvOf(m), locals, depth, pool, n), s, vm, slots, NeedStmt(n, depth))
    requires EvalStmt(m.h, fuel, n, s).st.clean && EvalStmt(m.h, fuel, n, s).status.Ok?
    requires var c := EvalExpr(m.h, fuel, n.cond, s); c.status.Ok? && Truthy(m.h, c.value)
    ensures Reaches(m, vm, Running(vm1))
    ensures vm1.ip == vm.ip + |CompileIf(EnvOf(m), locals, depth, pool, n).code|
    ensures vm1.stack == Rest(slots1)
    ensures Sync(m, locals, depth, EvalStmt(m.h, fuel, n, s).st, vm1.(stack := slots1), slots1, [])
    ensures (exists kept :: Sync(m, locals, depth, EvalStmt(m.h, fuel, n, s).st, vm1, kept, [])) <==> locals == []
  {
    hide Sync, Stopped, Reaches, Runs, CodeAt, EvalExpr, CompileExpr, CompileStmt, IfCode, Encode, Truthy, WfExpr, Need,
         WfStmt;
    var c := CompileExpr(EnvOf(m), locals, pool, n.cond);
    var t := CompileStmt(EnvOf(m), locals, depth, c.pool, n.thenBranch);
    StmtPool(EnvOf(m), locals, depth, c.pool, n.thenBranch);
    OrderOf(m, locals, depth, s, vm, slots, []);
    LocalsAfter(EnvOf(m), locals, depth, c.pool, n.thenBranch);
    assert t.locals == locals;
    CodeAtSplit(m.code, vm.ip, c.code, IfCode(t.code));
    IfLayout(m.code, vm.ip + |c.code|, t.code);
    var x := EvalExpr(m.h, fuel, n.cond, s);
    StmtStaysClean(m.h, fuel, n.thenBranch, x.st);
    var mid, slots0 := SimExpr(m, locals, depth, pool, n.cond, fuel, s, vm, slots, []);
    HeightAfter(m, locals, depth, s, vm, slots, [], x.st, mid, slots0, [] + [x.value]);
    var at := TakeBranch(m, locals, depth, x.st, mid, slots0, x.value, 1 + |t.code|);
    ReachesTrans(m, vm, mid, Running(at));
    var end;
    end, slots1 := SimStmt(m, locals, depth, c.pool, n.thenBranch, fuel, x.st, at, slots0);
    ReachesTrans(m, vm, at, Running(end));
    DoPop(m, end);
    vm1 := end.(ip := end.ip + 1, stack := Rest(end.stack));
    ReachesTrans(m, vm, end, Running(vm1));
    OnePopped(m, locals, depth, EvalStmt(m.h, fuel, n, s).st, end, vm1, slots1);
  }

  lemma OnePopped(m: Image, locals: seq<Local>, depth: nat, s: State, end: Vm, vm1: Vm, slots: seq<Value>)
    requires Sync(m, locals, depth, s, end, slots, [])
    requires vm1 == end.(ip := vm1.ip, stack := Rest(end.stack))
    ensures vm1.stack == Rest(slots) && Sync(m, locals, depth, s, vm1.(stack := slots), slots, [])
    ensures (exists kept :: Sync(m, locals, depth, s, vm1, kept, [])) <==> locals == []
  {
    SyncHeight(m, locals, depth, s, end, slots, []);
    assert end.stack == slots;
    if locals == [] {
      assert Sync(m, locals, depth, s, vm1, slots, []);
    } else {
      forall kept ensures !Sync(m, locals, depth, s, vm1, kept, []) {
        if Sync(m, locals, depth, s, vm1, kept, []) { SyncHeight(m, locals, depth, s, vm1, kept, []); }
      }
    }
  }

  /** An assignment at top level, where the chain is the global scope alone: what the interpreter and OP_SET_GLOBAL
      make of it agree exactly when the name exists and the machine does not hold it as a constant.  An interpreter
      constant is no obstacle there: the assignment defines the name anew.  Inside blocks the condition is another
      one; BsAssignments.AssignmentExactly states it for every depth. */
  lemma GlobalAssignment(interp: Scope, machine: Scope, x: string, v: Value)
    requires GlobalsAgree(interp, machine)
    ensures var a := AssignTo([interp], x, v);
      var after := if a.Some? then a.value else Define([interp], x, v, false);
      |after| == 1
      && (GlobalsAgree(after[0], SetGlobalTo(machine, x, v)) <==>
            x in interp && !machine[x].isConst)
  {
    var a := AssignTo([interp], x, v);
    var after := if a.Some? then a.value else Define([interp], x, v, false);
    assert x !in interp ==> AssignTo([interp][1..], x, v) == None;
    assert a.Some? ==> a.value == [interp[x := Binding(v, false)]];
    assert after[0] == interp[x := Binding(v, false)];
    if x in interp && machine[x].isConst {
      assert SetGlobalTo(machine, x, v)[x].isConst && !after[0][x].isConst;
    }
  }

  // ----- A program of the source language that takes the machine off its stack -----

  /** if (true) { } */
  function EmptyIf(): Node { If(Literal(Bool(true)), Block([]), Nil) }

  function PrintX(): Node { Print(Identifier("x"), false, true) }

  /** { var x = true; if (true) { } print x; } */
  function Escaping(): Node {
    Block([Block(Body())])
  }

  const X: seq<Local> := [Local("x", 1)]

  function Declaration(): Node { VarDecl("x", false, Literal(Bool(true))) }

  function Body(): (r: seq<Node>)
    ensures |r| == 3 && r[0] == Declaration()
    ensures r[1..] == [EmptyIf(), PrintX()] && r[1..][1..] == [PrintX()] && r[1..][1..][1..] == []
  {
    [Declaration(), EmptyIf(), PrintX()]
  }

  lemma EmptyBlockCode(env: Env)
    ensures CompileStmt(env, X, 1, [], Block([])) == Compiled([], [], true, X)
  {
    var none: seq<Node> := [];
    assert CompileStmts(env, X, 2, [], none) == Compiled([], [], true, X);
    assert KeepLocals(X, 1) == X && Pops(0) == [];
  }

  lemma EmptyIfCode(env: Env)
    ensures CompileStmt(env, X, 1, [], EmptyIf()) == Compiled([3, 25, 0, 1, 5, 5], [], true, X)
  {
    EmptyBlockCode(env);
    assert IfCode([]) == [25, 0, 1, 5, 5];
    hide IfCode;
    assert CompileBranches(env, X, 1, [], EmptyIf()) == Compiled([25, 0, 1, 5, 5], [], true, X);
    var cond := CompileExpr(env, X, [], Literal(Bool(true)));
    assert cond == Emitted([3], [], true);
    assert CompileIf(env, X, 1, [], EmptyIf()) == Compiled([3] + [25, 0, 1, 5, 5], [], true, X);
  }

  lemma PrintCode(env: Env)
    ensures CompileStmt(env, X, 1, [], PrintX()) == Compiled([22, 0, 29], [], true, X)
  {
    assert Resolve(X, "x") == 0;
    assert GetVariable(env.h, X, [], "x") == Emitted([22, 0], [], true);
    assert CompileExpr(env, X, [], Identifier("x")) == Emitted([22, 0], [], true);
    assert [22, 0] + Encode(PrintLine) == [22, 0, 29];
  }

  lemma DeclarationCode(env: Env)
    ensures CompileStmt(env, [], 1, [], Declaration()) == Compiled([3], [], true, X)
  {
    assert CompileExpr(env, [], [], Literal(Bool(true))) == Emitted([3], [], true);
  }

  lemma BodyCode(env: Env)
    ensures CompileStmts(env, [], 1, [], Body()) == Compiled([3, 3, 25, 0, 1, 5, 5, 22, 0, 29], [], true, X)
  {
    hide CompileStmt;
    DeclarationCode(env);
    EmptyIfCode(env);
    PrintCode(env);
    var none: seq<Node> := [];
    assert CompileStmts(env, X, 1, [], none) == Compiled([], [], true, X);
    assert CompileStmts(env, X, 1, [], Body()[1..][1..]) == Compiled([22, 0, 29], [], true, X);
    assert CompileStmts(env, X, 1, [], Body()[1..]) == Compiled([3, 25, 0, 1, 5, 5, 22, 0, 29], [], true, X);
  }

  lemma BlockCode(env: Env)
    ensures CompileStmt(env, [], 0, [], Block(Body())) == Compiled([3, 3, 25, 0, 1, 5, 5, 22, 0, 29, 5], [], true, [])
  {
    hide CompileStmt, CompileStmts, Body;
    BodyCode(env);
    BlockUnfold(env, Body());
    assert KeepLocals(X, 0) == [];
    assert Pops(1) == [5];
  }

  lemma BlockUnfold(env: Env, stmts: seq<Node>)
    ensures var c := CompileStmts(env, [], 1, [], stmts);
      c.Compiled? ==>
        var kept := KeepLocals(c.locals, 0);
        CompileStmt(env, [], 0, [], Block(stmts)) == Compiled(c.code + Pops(|c.locals| - |kept|), c.pool, c.exact, kept)
  {
    hide CompileStmts, KeepLocals, Pops;
  }

  lemma EscapingCode(env: Env)
    ensures CompileProgram(env, Escaping()) == Compiled([3, 3, 25, 0, 1, 5, 5, 22, 0, 29, 5, 0], [], true, [])
  {
    BlockCode(env);
    hide CompileStmt;
    var top := [Block(Body())];
    assert top[1..] == [] && CompileStmts(env, [], 0, [], top[1..]) == Compiled([], [], true, []);
    assert CompileStmts(env, [], 0, [], top) == Compiled([3, 3, 25, 0, 1, 5, 5, 22, 0, 29, 5], [], true, []);
  }

  function ImageWith(h: Host): (m: Image)
    ensures m.code == [3, 3, 25, 0, 1, 5, 5, 22, 0, 29, 5, 0]
  {
    EscapingCode(Env(h, map[]));
    ImageOf(Env(h, map[]), Escaping())
  }

  lemma EscapingInstructions(code: seq<byte>)
    requires code == [3, 3, 25, 0, 1, 5, 5, 22, 0, 29, 5, 0]
    ensures Fetch(code, 0) == Fetched(PushTrue, 1) && Fetch(code, 1) == Fetched(PushTrue, 2)
    ensures Fetch(code, 2) == Fetched(JumpIfFalse(1), 5) && Fetch(code, 5) == Fetched(Pop, 6)
    ensures Fetch(code, 6) == Fetched(Pop, 7) && Fetch(code, 7) == Fetched(GetLocal(0), 9)
  {
  }

  lemma StepOf(m: Image, vm: Vm, i: Instr, next: nat)
    requires Fetch(m.code, vm.ip) == Fetched(i, next)
    ensures Step(m, vm) == Exec(m, i, vm.(ip := next))
  {
  }

  lemma PushSteps(m: Image, vm: Vm)
    requires m.code == [3, 3, 25, 0, 1, 5, 5, 22, 0, 29, 5, 0]
    ensures var t := Bool(true);
      && Step(m, vm.(ip := 0, stack := [])) == Running(vm.(ip := 1, stack := [t]))
      && Step(m, vm.(ip := 1, stack := [t])) == Running(vm.(ip := 2, stack := [t, t]))
      && Step(m, vm.(ip := 2, stack := [t, t])) == Running(vm.(ip := 5, stack := [t, t]))
  {
    hide Step, Fetch;
    var t := Bool(true);
    EscapingInstructions(m.code);
    StepOf(m, vm.(ip := 0, stack := []), PushTrue, 1);
    StepOf(m, vm.(ip := 1, stack := [t]), PushTrue, 2);
    StepOf(m, vm.(ip := 2, stack := [t, t]), JumpIfFalse(1), 5);
  }

  lemma PopSteps(m: Image, vm: Vm)
    requires m.code == [3, 3, 25, 0, 1, 5, 5, 22, 0, 29, 5, 0]
    ensures var t := Bool(true);
      && Step(m, vm.(ip := 5, stack := [t, t])) == Running(vm.(ip := 6, stack := [t]))
      && Step(m, vm.(ip := 6, stack := [t])) == Running(vm.(ip := 7, stack := []))
      && Step(m, vm.(ip := 7, stack := [])) == Unsafe
  {
    hide Step, Fetch;
    var t := Bool(true);
    EscapingInstructions(m.code);
    StepOf(m, vm.(ip := 5, stack := [t, t]), Pop, 6);
    StepOf(m, vm.(ip := 6, stack := [t]), Pop, 7);
    StepOf(m, vm.(ip := 7, stack := []), GetLocal(0), 9);
    assert [t, t][..1] == [t] && [t][..0] == [];
  }

  /** The compiler accepts it exactly and the interpreter prints its variable, but the machine reads a slot
      above the top of its stack: the last pop of the if has taken the local away. */
  lemma EscapesTheStack(h: Host, globals: Scope)
    ensures StepN(ImageWith(h), 6, StartVm(globals)) == Unsafe
    ensures !WfProgram(Escaping())
  {
    var m := ImageWith(h);
    var t := Bool(true);
    var vm := StartVm(globals);
    PushSteps(m, vm);
    PopSteps(m, vm);
    hide Step, ImageWith;
    assert StepN(m, 1, vm.(ip := 7, stack := [])) == Unsafe;
    assert StepN(m, 2, vm.(ip := 6, stack := [t])) == Unsafe;
    assert StepN(m, 3, vm.(ip := 5, stack := [t, t])) == Unsafe;
    assert StepN(m, 4, vm.(ip := 2, stack := [t, t])) == Unsafe;
    assert StepN(m, 5, vm.(ip := 1, stack := [t])) == Unsafe;
    NotWellFormed();
  }

  lemma NotWellFormed()
    ensures !WfProgram(Escaping())
  {
    assert Body()[1..][0] == EmptyIf() && !WfStmt(EmptyIf(), 1, 1);
    assert !WfStmts(Body()[1..], 1, 1);
    assert !WfStmts(Body(), 0, 1);
    assert !WfStmt(Block(Body()), 0, 0);
  }

  lemma IfRuns(h: Host, s: State)
    requires s.scopes != [] && s.clean
    ensures EvalStmt(h, 0, EmptyIf(), s) == Done(s)
  {
    var none: seq<Node> := [];
    assert EvalStmts(h, 0, none, s.Push()) == Done(s.Push());
    assert s.Push().Pop() == s;
    assert EvalStmt(h, 0, Block(none), s) == Done(s);
    assert EvalExpr(h, 0, Literal(Bool(true)), s) == Result(Ok, Bool(true), s);
  }

  lemma DeclarationRuns(h: Host, globals: Scope)
    ensures EvalStmt(h, 0, Declaration(), StartState(map[], globals).Push()) ==
      Done(State([map["x" := Binding(Bool(true), false)], globals], map[], "", true))
  {
    var s := StartState(map[], globals).Push();
    assert EvalExpr(h, 0, Literal(Bool(true)), s) == Result(Ok, Bool(true), s);
    assert s.scopes == [map[], globals];
    assert Define([map[], globals], "x", Bool(true), false) == [map["x" := Binding(Bool(true), false)], globals];
  }

  lemma PrintRuns(h: Host, globals: Scope)
    ensures var s := State([map["x" := Binding(Bool(true), false)], globals], map[], "", true);
      EvalStmt(h, 0, PrintX(), s) == Done(s.(out := "true\n"))
  {
    var s := State([map["x" := Binding(Bool(true), false)], globals], map[], "", true);
    assert Lookup(s.scopes, "x") == Some(Binding(Bool(true), false));
    assert EvalExpr(h, 0, Identifier("x"), s) == Result(Ok, Bool(true), s);
    assert "" + "true" + "\n" == "true\n";
  }

  lemma BodyRuns(h: Host, globals: Scope)
    ensures var s := StartState(map[], globals);
      EvalStmts(h, 0, Body(), s.Push()) ==
        Done(State([map["x" := Binding(Bool(true), false)], globals], map[], "true\n", true))
  {
    var s := StartState(map[], globals);
    var inner: Scope := map["x" := Binding(Bool(true), false)];
    var s1 := State([inner, globals], map[], "", true);
    DeclarationRuns(h, globals);
    IfRuns(h, s1);
    var s2 := s1.(out := "true\n");
    PrintRuns(h, globals);
    hide EvalStmt;
    assert EvalStmts(h, 0, Body()[1..][1..], s1) == Done(s2);
    assert EvalStmts(h, 0, Body()[1..], s1) == Done(s2);
  }

  lemma InterpreterPrints(h: Host, globals: Scope)
    requires "main" !in globals
    ensures EvalProgram(h, 0, Escaping(), StartState(map[], globals)) == Done(State([globals], map[], "true\n", true))
  {
    hide EvalExpr;
    var s := StartState(map[], globals);
    BodyRuns(h, globals);
    var end := State([globals], map[], "true\n", true);
    assert EvalStmt(h, 0, Block(Body()), s) == Done(end);
    assert EvalTop(h, 0, [Block(Body())], s) == Done(end);
    assert [globals][1..] == [];
    assert Lookup([globals][1..], "main") == None;
  }
}
