/** Assignment in the two engines.  The interpreter assigns to the innermost binding of a name; where there is none, or
    where it is a constant, it defines the name in the current scope instead.  The machine overwrites a slot or an
    existing global, and forgets which names were constants.  Here is the exact condition, at every depth, under which
    both do the same, and a program on which they do not. */
module BsAssignments {
  import opened BsAst
  import opened BsValue
  import opened BsScopes
  import opened BsInterpreter
  import opened BsScopeDiscipline
  import opened BsBytecode
  import opened BsVm
  import opened BsCodegen
  import opened BsSlots
  import opened BsWellFormed
  import opened BsHeights
  import opened BsSimExpr
  import opened BsSimOperators
  import opened BsCorrectness

  /** The scope chain behind an assignment. */
  function Assigned(scopes: seq<Scope>, x: string, v: Value): seq<Scope> {
    match AssignTo(scopes, x, v)
    case Some(after) => after
    case None => Define(scopes, x, v, false)
  }

  /** The innermost binding of x is no constant. */
  predicate Permitted(scopes: seq<Scope>, x: string) {
    var b := Lookup(scopes, x);
    b.Some? && !b.value.isConst
  }

  /** When assigning to x means the same in both engines.  A name with a slot: if the assignment is permitted, or the
      constant belongs to the current block, where the interpreter overwrites it too.  A global: at top level if it exists
      and the machine does not hold it as a constant; in a block if the assignment is permitted. */
  predicate SameAssignment(locals: seq<Local>, depth: nat, scopes: seq<Scope>, machine: Scope, x: string)
    requires |scopes| == depth + 1
  {
    var i := Resolve(locals, x);
    if i >= 0 then Permitted(scopes, x) || locals[i].depth == depth
    else if depth == 0 then x in scopes[0] && x in machine && !machine[x].isConst
    else Permitted(scopes, x)
  }

  lemma {:induction false} PermittedIsAssigned(scopes: seq<Scope>, x: string, v: Value)
    ensures AssignTo(scopes, x, v).Some? <==> Permitted(scopes, x)
  {
    if scopes != [] && x !in scopes[0] { PermittedIsAssigned(scopes[1..], x, v); }
  }

  /** Slots, names and globals agree. */
  ghost predicate InStep(locals: seq<Local>, depth: nat, slots: seq<Value>, scopes: seq<Scope>, machine: Scope) {
    Agree(locals, depth, slots, scopes) && GlobalsAgree(scopes[depth], machine)
  }

  /** What the machine makes of an assignment. */
  function SlotsAfter(locals: seq<Local>, slots: seq<Value>, x: string, v: Value): seq<Value>
    requires |slots| == |locals|
  {
    var i := Resolve(locals, x);
    if i >= 0 then slots[i := v] else slots
  }

  function GlobalsAfter(locals: seq<Local>, machine: Scope, x: string, v: Value): Scope {
    if Resolve(locals, x) >= 0 then machine else SetGlobalTo(machine, x, v)
  }

  /** At every depth: after an assignment the engines are in step if and only if it is one that means the same in both;
      if it is not, no slots whatever would match the interpreter's chain and the machine's globals. */
  lemma AssignmentExactly(locals: seq<Local>, depth: nat, slots: seq<Value>, scopes: seq<Scope>, machine: Scope, x: string,
                          v: Value)
    requires InStep(locals, depth, slots, scopes, machine)
    ensures var after := Assigned(scopes, x, v);
      var globals := GlobalsAfter(locals, machine, x, v);
      var same := SameAssignment(locals, depth, scopes, machine, x);
      && (InStep(locals, depth, SlotsAfter(locals, slots, x, v), after, globals) <==> same)
      && ((exists kept :: InStep(locals, depth, kept, after, globals)) <==> same)
  {
    hide InStep;
    var after := Assigned(scopes, x, v);
    var globals := GlobalsAfter(locals, machine, x, v);
    PermittedIsAssigned(scopes, x, v);
    if Permitted(scopes, x) {
      PermittedAgrees(locals, depth, slots, scopes, machine, x, v);
    } else if depth == 0 {
      TopLevelAgrees(locals, slots, scopes, machine, x, v);
    } else {
      RedefinedAgrees(locals, depth, slots, scopes, machine, x, v);
    }
  }

  lemma PermittedAgrees(locals: seq<Local>, depth: nat, slots: seq<Value>, scopes: seq<Scope>, machine: Scope, x: string,
                        v: Value)
    requires InStep(locals, depth, slots, scopes, machine) && Permitted(scopes, x)
    ensures SameAssignment(locals, depth, scopes, machine, x)
    ensures InStep(locals, depth, SlotsAfter(locals, slots, x, v), Assigned(scopes, x, v), GlobalsAfter(locals, machine, x, v))
  {
    hide Agree;
    PermittedIsAssigned(scopes, x, v);
    AssignAgrees(locals, depth, slots, scopes, x, v);
    assert |scopes| == depth + 1 by { Sizes(locals, depth, slots, scopes); }
  }

  lemma Sizes(locals: seq<Local>, depth: nat, slots: seq<Value>, scopes: seq<Scope>)
    requires Agree(locals, depth, slots, scopes)
    ensures |scopes| == depth + 1 && |slots| == |locals| && DepthsOrdered(locals, depth)
  {
  }

  lemma LocalsNeedScope(locals: seq<Local>, depth: nat)
    requires DepthsOrdered(locals, depth) && locals != []
    ensures depth >= 1
  {
    assert locals[0].depth >= 1;
  }

  /** In the global scope the interpreter has defined the name anew; the machine holds it too if it was there and is no
      constant of the machine. */
  lemma TopLevelAgrees(locals: seq<Local>, slots: seq<Value>, scopes: seq<Scope>, machine: Scope, x: string, v: Value)
    requires InStep(locals, 0, slots, scopes, machine) && !Permitted(scopes, x)
    ensures var after := Assigned(scopes, x, v);
      var globals := GlobalsAfter(locals, machine, x, v);
      var same := SameAssignment(locals, 0, scopes, machine, x);
      && (same ==> InStep(locals, 0, SlotsAfter(locals, slots, x, v), after, globals))
      && (forall kept :: InStep(locals, 0, kept, after, globals) ==> same)
  {
    Sizes(locals, 0, slots, scopes);
    if locals != [] { LocalsNeedScope(locals, 0); }
    PermittedIsAssigned(scopes, x, v);
    var after := Assigned(scopes, x, v);
    assert after == [scopes[0][x := Binding(v, false)]];
    assert Agree(locals, 0, slots, after);
    if x in machine && machine[x].isConst {
      assert SetGlobalTo(machine, x, v)[x].isConst && !after[0][x].isConst;
    }
  }

  /** In a block the interpreter has defined the name there; that is what the slot of a constant of the same block holds,
      and no slot holds it otherwise. */
  lemma RedefinedAgrees(locals: seq<Local>, depth: nat, slots: seq<Value>, scopes: seq<Scope>, machine: Scope, x: string,
                        v: Value)
    requires InStep(locals, depth, slots, scopes, machine) && !Permitted(scopes, x) && depth >= 1
    ensures var after := Assigned(scopes, x, v);
      var globals := GlobalsAfter(locals, machine, x, v);
      var same := SameAssignment(locals, depth, scopes, machine, x);
      && (same ==> InStep(locals, depth, SlotsAfter(locals, slots, x, v), after, globals))
      && (forall kept :: InStep(locals, depth, kept, after, globals) ==> same)
  {
    hide Lookup, GlobalsAgree;
    Sizes(locals, depth, slots, scopes);
    PermittedIsAssigned(scopes, x, v);
    ResolvedScope(locals, depth, slots, scopes, x);
    var i := Resolve(locals, x);
    var after := Assigned(scopes, x, v);
    assert after == scopes[0 := scopes[0][x := Binding(v, false)]];
    if i >= 0 && locals[i].depth == depth {
      var slots1 := slots[i := v];
      forall level, y | 1 <= level <= depth ensures SlotHolds(locals, slots1, Level(after, level), y, level) {
        assert SlotHolds(locals, slots, Level(scopes, level), y, level);
      }
    } else {
      assert LastAt(locals, x, depth) < 0;
      forall kept ensures !InStep(locals, depth, kept, after, GlobalsAfter(locals, machine, x, v)) {
        if |kept| == |locals| { assert !SlotHolds(locals, kept, Level(after, depth), x, depth); }
      }
    }
  }

  // ----- On the machine's code -----

  /** The code of an assignment whose value ends normally, run from matching states: the machine arrives behind it, and
      matches the interpreter there if and only if the assignment is one that means the same in both engines. */
  lemma AssignmentInStep(m: Image, locals: seq<Local>, depth: nat, pool: seq<Value>, e: Node, fuel: nat, s: State, vm: Vm,
                         slots: seq<Value>)
    returns (before: Vm, vm1: Vm)
    requires e.Assign? && WfExpr(e)
    requires Ready(m, locals, depth, CompileExpr(EnvOf(m), locals, pool, e), s, vm, slots, [], Need(e))
    requires var r := EvalExpr(m.h, fuel, e.expr, s); r.st.clean && r.status.Ok?
    ensures var r := EvalExpr(m.h, fuel, e.expr, s);
      var t := EvalExpr(m.h, fuel, e, s);
      && Reaches(m, vm, Running(before)) && Reaches(m, vm, Running(vm1))
      && vm1.ip == vm.ip + |CompileExpr(EnvOf(m), locals, pool, e).code|
      && t.status.Ok? && t.value == r.value && |r.st.scopes| == depth + 1
      && ((exists kept :: Sync(m, locals, depth, t.st, vm1, kept, [] + [t.value])) <==>
            SameAssignment(locals, depth, r.st.scopes, before.globals, e.name))
  {
    hide Sync, Stopped, Reaches, CodeAt, EvalBinary, EvalCall, CompileBinary, CompileCall, Lookup,
         SetVariable, AssignTo, Define, FindConstant, AddConstant, Encode, SameAssignment;
    var c := CompileExpr(EnvOf(m), locals, pool, e.expr);
    var store := SetVariable(m.h, locals, c.pool, e.name);
    VariablePool(EnvOf(m), locals, c.pool, e.name);
    var r := EvalExpr(m.h, fuel, e.expr, s);
    CodeAtSplit(m.code, vm.ip, c.code, store.code);
    var slots0;
    before, slots0 := SimExpr(m, locals, depth, pool, e.expr, fuel, s, vm, slots, []);
    vm1 := StoreRuns(m, locals, depth, c.pool, e.name, r.value, r.st, before, slots0);
    ReachesTrans(m, vm, before, Running(vm1));
    StoreInStep(m, locals, depth, e.name, r.value, r.st, EvalExpr(m.h, fuel, e, s).st, before, slots0, vm1);
  }

  /** One instruction, which writes a slot or a global. */
  lemma StoreRuns(m: Image, locals: seq<Local>, depth: nat, pool: seq<Value>, x: string, v: Value, s: State, vm: Vm,
                  slots: seq<Value>)
    returns (vm1: Vm)
    requires Placed(m, SetVariable(m.h, locals, pool, x), vm.ip)
    requires Sync(m, locals, depth, s, vm, slots, [] + [v])
    ensures |slots| == |locals| && Reaches(m, vm, Running(vm1))
    ensures vm1.ip == vm.ip + |SetVariable(m.h, locals, pool, x).code|
    ensures vm1 == vm.(ip := vm1.ip, stack := SlotsAfter(locals, slots, x, v) + [v],
                       globals := GlobalsAfter(locals, vm.globals, x, v))
  {
    hide Sync, Reaches, CodeAt, Top, SetVariable, SetGlobalTo, Agree;
    TopOf(m, locals, depth, s, vm, slots, [], v);
    StackOf(m, locals, depth, s, vm, slots, v);
    VariableSize(m.h, locals, pool, x);
    var i := Resolve(locals, x);
    vm1 := vm.(ip := vm.ip + 2, stack := SlotsAfter(locals, slots, x, v) + [v],
               globals := GlobalsAfter(locals, vm.globals, x, v));
    if i >= 0 {
      StoreCode(m, locals, pool, x, vm.ip);
      assert vm.stack[i := v] == slots[i := v] + [v];
      DoSetLocal(m, vm, i);
    } else {
      StoreCode(m, locals, pool, x, vm.ip);
      DoSetGlobal(m, vm, PoolByte(m.h, pool, Str(x)));
    }
  }

  lemma StackOf(m: Image, locals: seq<Local>, depth: nat, s: State, vm: Vm, slots: seq<Value>, v: Value)
    requires Sync(m, locals, depth, s, vm, slots, [] + [v])
    ensures |slots| == |locals| && vm.stack == slots + [v]
  {
    Sizes(locals, depth, slots, s.scopes);
    hide Agree, GlobalsAgree;
    assert [] + [v] == [v];
  }

  lemma StoreCode(m: Image, locals: seq<Local>, pool: seq<Value>, x: string, ip: nat)
    requires Placed(m, SetVariable(m.h, locals, pool, x), ip)
    ensures var i := Resolve(locals, x);
      && (i >= 0 ==> i < 256 && CodeAt(m.code, ip, Encode(SetLocal(i))))
      && (i < 0 ==>
            var k := PoolByte(m.h, pool, Str(x));
            k < |m.consts| && m.consts[k] == Str(x) && CodeAt(m.code, ip, Encode(SetGlobal(k))))
  {
    hide CodeAt, Encode;
    if Resolve(locals, x) < 0 { ConstantAt(m, pool, Str(x)); }
  }

  lemma StoreInStep(m: Image, locals: seq<Local>, depth: nat, x: string, v: Value, s: State, t: State, vm: Vm,
                    slots: seq<Value>, vm1: Vm)
    requires Sync(m, locals, depth, s, vm, slots, [] + [v]) && |slots| == |locals|
    requires t == s.(scopes := Assigned(s.scopes, x, v), clean := t.clean)
    requires vm1 == vm.(ip := vm1.ip, stack := SlotsAfter(locals, slots, x, v) + [v],
                        globals := GlobalsAfter(locals, vm.globals, x, v))
    ensures |s.scopes| == depth + 1
    ensures (exists kept :: Sync(m, locals, depth, t, vm1, kept, [] + [v])) <==>
            SameAssignment(locals, depth, s.scopes, vm.globals, x)
  {
    hide Agree, GlobalsAgree, SameAssignment;
    Sizes(locals, depth, slots, s.scopes);
    AssignmentExactly(locals, depth, slots, s.scopes, vm.globals, x, v);
    var slots1 := SlotsAfter(locals, slots, x, v);
    assert [] + [v] == [v];
    if SameAssignment(locals, depth, s.scopes, vm.globals, x) {
      assert Sync(m, locals, depth, t, vm1, slots1, [] + [v]);
    } else {
      forall kept ensures !Sync(m, locals, depth, t, vm1, kept, [] + [v]) {
        assert !InStep(locals, depth, kept, t.scopes, vm1.globals);
      }
    }
  }

  // ----- A program on which assignment parts the engines -----

  /** const x = true; { x = false; } print x; */
  function Shadowing(): Node {
    Block(TopLevel())
  }

  function TopLevel(): (r: seq<Node>)
    ensures |r| == 3 && r[0] == ConstantX() && r[1..][0] == Inner() && r[1..][1..][0] == PrintX() && r[1..][1..][1..] == []
  {
    [ConstantX(), Inner(), PrintX()]
  }

  function ConstantX(): Node { VarDecl("x", true, Literal(Bool(true))) }
  function AssignX(): Node { Assign("x", Literal(Bool(false))) }
  function Inner(): Node { Block([ExprStmt(AssignX())]) }
  function PrintX(): Node { Print(Identifier("x"), false, true) }

  const POOL: seq<Value> := [Str("x")]

  lemma PoolIndex(h: Host)
    ensures FindConstant(h, [], Str("x")) == 0 && FindConstant(h, POOL, Str("x")) == 0
    ensures AddConstant(h, [], Str("x")) == POOL && AddConstant(h, POOL, Str("x")) == POOL
  {
    assert [] + [Str("x")] == POOL;
  }

  lemma ConstantCode(env: Env)
    ensures CompileStmt(env, [], 0, [], ConstantX()) == Compiled([3, 19, 0], POOL, true, [])
  {
    PoolIndex(env.h);
    hide FindConstant, AddConstant;
    assert CompileExpr(env, [], [], Literal(Bool(true))) == Emitted([3], [], true);
    assert [3] + [19, 0] == [3, 19, 0];
  }

  lemma AssignCode(env: Env)
    ensures CompileStmt(env, [], 1, POOL, ExprStmt(AssignX())) == Compiled([4, 21, 0, 5], POOL, true, [])
  {
    PoolIndex(env.h);
    hide FindConstant, AddConstant;
    assert CompileExpr(env, [], POOL, Literal(Bool(false))) == Emitted([4], POOL, true);
    assert SetVariable(env.h, [], POOL, "x") == Emitted([21, 0], POOL, true);
    assert CompileExpr(env, [], POOL, AssignX()) == Emitted([4] + [21, 0], POOL, true);
    assert [4] + [21, 0] + [5] == [4, 21, 0, 5];
  }

  lemma InnerCode(env: Env)
    ensures CompileStmt(env, [], 0, POOL, Inner()) == Compiled([4, 21, 0, 5], POOL, true, [])
  {
    AssignCode(env);
    hide CompileStmt;
    var none: seq<Node> := [];
    var stmts := [ExprStmt(AssignX())];
    assert CompileStmts(env, [], 1, POOL, none) == Compiled([], POOL, true, []);
    assert stmts[1..] == none && CompileStmts(env, [], 1, POOL, stmts) == Compiled([4, 21, 0, 5], POOL, true, []);
    InnerUnfold(env, stmts);
  }

  lemma InnerUnfold(env: Env, stmts: seq<Node>)
    requires CompileStmts(env, [], 1, POOL, stmts) == Compiled([4, 21, 0, 5], POOL, true, [])
    ensures CompileStmt(env, [], 0, POOL, Block(stmts)) == Compiled([4, 21, 0, 5], POOL, true, [])
  {
    hide CompileStmts;
    assert Pops(0) == [];
  }

  lemma PrintCode(env: Env)
    ensures CompileStmt(env, [], 0, POOL, PrintX()) == Compiled([20, 0, 29], POOL, true, [])
  {
    PoolIndex(env.h);
    hide FindConstant, AddConstant;
    assert GetVariable(env.h, [], POOL, "x") == Emitted([20, 0], POOL, true);
    assert CompileExpr(env, [], POOL, Identifier("x")) == Emitted([20, 0], POOL, true);
    assert [20, 0] + [29] == [20, 0, 29];
  }

  lemma ShadowingCode(env: Env)
    ensures CompileProgram(env, Shadowing()) == Compiled([3, 19, 0, 4, 21, 0, 5, 20, 0, 29, 0], POOL, true, [])
  {
    ConstantCode(env);
    InnerCode(env);
    PrintCode(env);
    hide CompileStmt;
    var rest := TopLevel()[1..];
    assert CompileStmts(env, [], 0, POOL, rest[1..][1..]) == Compiled([], POOL, true, []);
    assert CompileStmts(env, [], 0, POOL, rest[1..]) == Compiled([20, 0, 29], POOL, true, []);
    assert CompileStmts(env, [], 0, POOL, rest) == Compiled([4, 21, 0, 5, 20, 0, 29], POOL, true, []);
    assert CompileStmts(env, [], 0, [], TopLevel()) == Compiled([3, 19, 0, 4, 21, 0, 5, 20, 0, 29], POOL, true, []);
  }

  lemma ShadowingInstructions(code: seq<byte>)
    requires code == [3, 19, 0, 4, 21, 0, 5, 20, 0, 29, 0]
    ensures Fetch(code, 0) == Fetched(PushTrue, 1) && Fetch(code, 1) == Fetched(DefineGlobal(0), 3)
    ensures Fetch(code, 3) == Fetched(PushFalse, 4) && Fetch(code, 4) == Fetched(SetGlobal(0), 6)
    ensures Fetch(code, 6) == Fetched(Pop, 7) && Fetch(code, 7) == Fetched(GetGlobal(0), 9)
    ensures Fetch(code, 9) == Fetched(PrintLine, 10) && Fetch(code, 10) == Fetched(Halt, 11)
  {
  }

  lemma StepThrough(m: Image, n: nat, vm: Vm, i: Instr, next: nat)
    requires Fetch(m.code, vm.ip) == Fetched(i, next) && n > 0
    requires Exec(m, i, vm.(ip := next)).Running?
    ensures StepN(m, n, vm) == StepN(m, n - 1, Exec(m, i, vm.(ip := next)).vm)
  {
    hide Exec, Fetch;
  }

  /** The first half: the machine's x is true, then false. */
  lemma MachineStores(m: Image, machine: Scope)
    requires m.code == [3, 19, 0, 4, 21, 0, 5, 20, 0, 29, 0] && m.consts == POOL
    ensures StepN(m, 8, StartVm(machine)) == StepN(m, 3, Vm(7, [], machine["x" := Binding(Bool(false), false)], ""))
  {
    ShadowingInstructions(m.code);
    hide Fetch, StepN, Exec;
    var g := machine["x" := Binding(Bool(true), false)];
    var g1 := machine["x" := Binding(Bool(false), false)];
    StoreEffects(m, machine);
    StepThrough(m, 8, StartVm(machine), PushTrue, 1);
    StepThrough(m, 7, Vm(1, [Bool(true)], machine, ""), DefineGlobal(0), 3);
    StepThrough(m, 6, Vm(3, [], g, ""), PushFalse, 4);
    StepThrough(m, 5, Vm(4, [Bool(false)], g, ""), SetGlobal(0), 6);
    StepThrough(m, 4, Vm(6, [Bool(false)], g1, ""), Pop, 7);
  }

  lemma StoreEffects(m: Image, machine: Scope)
    requires m.consts == POOL
    ensures var g := machine["x" := Binding(Bool(true), false)];
      var g1 := machine["x" := Binding(Bool(false), false)];
      && Exec(m, PushTrue, Vm(1, [], machine, "")) == Running(Vm(1, [Bool(true)], machine, ""))
      && Exec(m, DefineGlobal(0), Vm(3, [Bool(true)], machine, "")) == Running(Vm(3, [], g, ""))
      && Exec(m, PushFalse, Vm(4, [], g, "")) == Running(Vm(4, [Bool(false)], g, ""))
      && Exec(m, SetGlobal(0), Vm(6, [Bool(false)], g, "")) == Running(Vm(6, [Bool(false)], g1, ""))
      && Exec(m, Pop, Vm(7, [Bool(false)], g1, "")) == Running(Vm(7, [], g1, ""))
  {
    OneValue(Bool(true));
    OneValue(Bool(false));
    Overwritten(machine);
    hide Push, Top, Rest, SetGlobalTo;
  }

  lemma OneValue(v: Value)
    ensures Push([], v) == [v] && Top([v]) == v && Rest([v]) == []
  {
  }

  lemma Overwritten(machine: Scope)
    ensures SetGlobalTo(machine["x" := Binding(Bool(true), false)], "x", Bool(false))
         == machine["x" := Binding(Bool(false), false)]
  {
  }

  lemma MachineReads(m: Image, globals: Scope)
    requires m.code == [3, 19, 0, 4, 21, 0, 5, 20, 0, 29, 0] && m.consts == POOL
    requires "x" in globals && globals["x"].value == Bool(false)
    ensures StepN(m, 3, Vm(7, [], globals, "")) == Halted(Vm(11, [], globals, "false\n"))
  {
    ShadowingInstructions(m.code);
    StepThrough(m, 3, Vm(7, [], globals, ""), GetGlobal(0), 9);
    StepThrough(m, 2, Vm(9, [Bool(false)], globals, ""), PrintLine, 10);
    hide Fetch;
    assert "" + "false" + "\n" == "false\n";
    assert StepN(m, 1, Vm(10, [], globals, "false\n")) == Halted(Vm(11, [], globals, "false\n"));
  }

  lemma ShadowingCompiles(env: Env)
    ensures Compilable(env, Shadowing())
  {
    ShadowingCode(env);
    hide CompileProgram, WfStmt, NeedStmt;
    EachWellFormed();
    var rest := TopLevel()[1..];
    assert WfStmts(rest[1..], 0, 0) && NeedStmts(rest[1..], 0) <= 1;
    assert WfStmts(rest, 0, 0) && NeedStmts(rest, 0) <= 1;
    assert WfStmts(TopLevel(), 0, 0) && NeedStmts(TopLevel(), 0) <= 1;
  }

  lemma EachWellFormed()
    ensures forall n :: n == ConstantX() || n == Inner() || n == PrintX() ==> WfStmt(n, 0, 0) && NeedStmt(n, 0) <= 1
  {
    var stmts := [ExprStmt(AssignX())];
    var none: seq<Node> := [];
    assert stmts[1..] == none;
    assert WfStmt(stmts[0], 0, 1) && NeedStmt(stmts[0], 1) == 1;
    hide WfExpr, Need;
    assert WfStmts(stmts, 0, 1) && NeedStmts(stmts, 1) <= 1;
  }

  lemma AssignRuns(h: Host, outer: Scope)
    requires "x" in outer && outer["x"].isConst
    ensures var s := State([map[], outer], map[], "", true);
      var inner: Scope := map["x" := Binding(Bool(false), false)];
      EvalStmt(h, 0, ExprStmt(AssignX()), s) == Done(State([inner, outer], map[], "", false))
  {
    var s := State([map[], outer], map[], "", true);
    assert EvalExpr(h, 0, Literal(Bool(false)), s) == Result(Ok, Bool(false), s);
    assert s.scopes[1..] == [outer] && AssignTo([outer], "x", Bool(false)) == None;
    assert AssignTo(s.scopes, "x", Bool(false)) == None;
    var inner: Scope := map["x" := Binding(Bool(false), false)];
    assert Define(s.scopes, "x", Bool(false), false) == [inner, outer];
  }

  lemma InnerRuns(h: Host, outer: Scope)
    requires "x" in outer && outer["x"].isConst
    ensures EvalStmt(h, 0, Inner(), State([outer], map[], "", true)) == Done(State([outer], map[], "", false))
  {
    AssignRuns(h, outer);
    var s := State([outer], map[], "", true);
    var inner: Scope := map["x" := Binding(Bool(false), false)];
    assert s.Push() == State([map[], outer], map[], "", true);
    var t := State([inner, outer], map[], "", false);
    assert EvalStmts(h, 0, [ExprStmt(AssignX())], s.Push()) == Done(t);
    assert t.Pop().scopes == [outer];
  }

  lemma PrintRuns(h: Host, outer: Scope)
    requires "x" in outer && outer["x"].value == Bool(true)
    ensures EvalStmt(h, 0, PrintX(), State([outer], map[], "", false)) == Done(State([outer], map[], "true\n", false))
  {
    var s := State([outer], map[], "", false);
    assert Lookup(s.scopes, "x") == Some(outer["x"]);
    assert EvalExpr(h, 0, Identifier("x"), s) == Result(Ok, Bool(true), s);
    assert "" + "true" + "\n" == "true\n";
  }

  lemma InterpreterKeeps(h: Host, globals: Scope)
    requires "main" !in globals
    ensures var outer := globals["x" := Binding(Bool(true), true)];
      EvalProgram(h, 0, Shadowing(), StartState(map[], globals)) == Done(State([outer], map[], "true\n", false))
  {
    var s := StartState(map[], globals);
    var outer := globals["x" := Binding(Bool(true), true)];
    assert EvalExpr(h, 0, Literal(Bool(true)), s) == Result(Ok, Bool(true), s);
    assert EvalStmt(h, 0, ConstantX(), s) == Done(State([outer], map[], "", true));
    InnerRuns(h, outer);
    PrintRuns(h, outer);
    hide EvalStmt;
    var end := State([outer], map[], "true\n", false);
    var rest := TopLevel()[1..];
    assert EvalTop(h, 0, rest[1..], State([outer], map[], "", false)) == Done(end);
    assert EvalTop(h, 0, rest, State([outer], map[], "", true)) == Done(end);
    assert EvalTop(h, 0, TopLevel(), s) == Done(end);
    assert [outer][1..] == [] && Lookup([outer][1..], "main") == None;
  }

  /** It compiles, both engines end normally, and they print different values: the interpreter has defined x in the block
      and its constant is kept, the machine has overwritten the only x it knows. */
  lemma AssignmentParts(h: Host, globals: Scope, machine: Scope)
    requires "main" !in globals
    ensures var env := Env(h, map[]);
      var r := EvalProgram(h, 0, Shadowing(), StartState(map[], globals));
      var x: Scope := machine["x" := Binding(Bool(false), false)];
      && Compilable(env, Shadowing())
      && r == Done(State([globals["x" := Binding(Bool(true), true)]], map[], "true\n", false))
      && StepN(ImageOf(env, Shadowing()), 8, StartVm(machine)) == Halted(Vm(11, [], x, "false\n"))
  {
    hide CompileProgram, StepN, EvalProgram, Compilable;
    var env := Env(h, map[]);
    ShadowingCode(env);
    ShadowingCompiles(env);
    InterpreterKeeps(h, globals);
    MachineStores(ImageOf(env, Shadowing()), machine);
    MachineReads(ImageOf(env, Shadowing()), machine["x" := Binding(Bool(false), false)]);
  }
}
