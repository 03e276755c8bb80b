/** Compiled statements simulate the interpreter, by induction on the interpreter's run. */
module BsSimStmt {
  import opened BsAst
  import opened BsValue
  import opened BsScopes
  import opened BsInterpreter
  import opened BsScopeDiscipline
  import opened BsBytecode
  import opened BsVm
  import opened BsCodegen
  import opened BsSlots
  import opened BsWellFormed
  import opened BsLayout
  import opened BsLocals
  import opened BsSimExpr
  import opened BsSimOperators

  ghost predicate PlacedStmt(m: Image, c: Compiled, ip: nat) {
    c.Compiled? && c.exact && c.pool <= m.consts && CodeAt(m.code, ip, c.code)
  }

  /** Both engines stand before the code of a statement: nothing but locals is on the stack. */
  ghost predicate ReadyStmt(m: Image, locals: seq<Local>, depth: nat, c: Compiled, s: State, vm: Vm,
                            slots: seq<Value>, need: nat) {
    && PlacedStmt(m, c, vm.ip)
    && Sync(m, locals, depth, s, vm, slots, [])
    && |vm.stack| + need <= MAX_STACK
  }

  /** A statement that ends normally leaves the machine behind its code, with the locals it declared;
      one that fails makes the machine fault; one that uses up its fuel keeps the machine running for
      at least as many steps. */
  ghost predicate StmtSim(m: Image, locals1: seq<Local>, depth: nat, fuel: nat, r: Result, vm: Vm, len: nat,
                          vm1: Vm, slots1: seq<Value>) {
    match r.status
    case Ok =>
      && Reaches(m, vm, Running(vm1))
      && vm1.ip == vm.ip + len
      && Sync(m, locals1, depth, r.st, vm1, slots1, [])
    case Error => Reaches(m, vm, Faulted(vm1)) && Stopped(depth, r.st, vm1)
    case Timeout => Runs(m, fuel, vm)
    case _ => false
  }

  /** A statement reached after some other code. */
  lemma StmtAfter(m: Image, locals1: seq<Local>, depth: nat, fuel: nat, r: Result, vm: Vm, mid: Vm, len0: nat, len1: nat,
                  vm1: Vm, slots1: seq<Value>)
    requires Reaches(m, vm, Running(mid)) && mid.ip == vm.ip + len0
    requires StmtSim(m, locals1, depth, fuel, r, mid, len1, vm1, slots1)
    ensures StmtSim(m, locals1, depth, fuel, r, vm, len0 + len1, vm1, slots1)
  {
    hide Reaches, Sync, Stopped, Runs;
    if r.status.Ok? {
      ReachesTrans(m, vm, mid, Running(vm1));
    } else if r.status.Error? {
      ReachesTrans(m, vm, mid, Faulted(vm1));
    } else {
      RunsAfter(m, vm, mid, fuel);
    }
  }

  /** A condition or operand that fails ends the whole statement. */
  lemma ExprFailsStmt(m: Image, locals: seq<Local>, locals1: seq<Local>, depth: nat, fuel: nat, r: Result, r1: Result, vm: Vm,
                      len: nat, len1: nat, temps: seq<Value>, vm1: Vm, slots1: seq<Value>)
    requires ExprSim(m, locals, depth, r, vm, len, temps, vm1, slots1) && !r.status.Ok?
    requires r1.status == r.status && r1.st == r.st
    ensures StmtSim(m, locals1, depth, fuel, r1, vm, len1, vm1, slots1)
  {
    hide Reaches, Sync, Stopped, Runs;
  }

  /** An initializer or printed expression that may be missing. */
  lemma SimOptional(m: Image, locals: seq<Local>, depth: nat, pool: seq<Value>, e: Node, fuel: nat,
                    s: State, vm: Vm, slots: seq<Value>) returns (vm1: Vm, slots1: seq<Value>)
    requires e.Nil? || WfExpr(e)
    requires Ready(m, locals, depth, CompileOptional(EnvOf(m), locals, pool, e), s, vm, slots, [],
                   if e.Nil? then 1 else Need(e))
    requires !e.Nil? ==> EvalExpr(m.h, fuel, e, s).st.clean
    ensures ExprSim(m, locals, depth, if e.Nil? then Done(s) else EvalExpr(m.h, fuel, e, s), vm,
                    |CompileOptional(EnvOf(m), locals, pool, e).code|, [], vm1, slots1)
  {
    hide EvalExpr, CompileExpr, Reaches, Sync, CodeAt, Step, Stopped;
    if e.Nil? {
      ReachesStep(m, vm, PushNull);
      vm1 := PushSync(m, locals, depth, s, vm, slots, [], vm.ip + 1, Null);
      slots1 := slots;
    } else {
      vm1, slots1 := SimExpr(m, locals, depth, pool, e, fuel, s, vm, slots, []);
    }
  }

  /** The value of an initializer stays on the stack and becomes the newest slot. */
  lemma SlotOfTop(m: Image, locals: seq<Local>, depth: nat, s: State, vm: Vm, slots: seq<Value>, v: Value,
                  x: string, isConst: bool)
    requires Sync(m, locals, depth, s, vm, slots, [] + [v]) && depth > 0
    ensures Sync(m, locals + [Local(x, depth)], depth, s.(scopes := Define(s.scopes, x, v, isConst)), vm, slots + [v], [])
  {
    DeclareAgrees(locals, depth, slots, s.scopes, x, v, isConst);
    hide Agree;
    assert slots + ([] + [v]) == (slots + [v]) + [];
    assert Define(s.scopes, x, v, isConst)[depth] == s.scopes[depth];
  }

  /** At top level the machine defines the global, and forgets whether it is const. */
  lemma GlobalOfTop(m: Image, locals: seq<Local>, s: State, vm: Vm, slots: seq<Value>, v: Value, x: string,
                    isConst: bool, ip: nat) returns (vm1: Vm)
    requires Sync(m, locals, 0, s, vm, slots, [] + [v])
    ensures vm1 == vm.(ip := ip, stack := Rest(vm.stack), globals := vm.globals[x := Binding(Top(vm.stack), false)])
    ensures Sync(m, locals, 0, s.(scopes := Define(s.scopes, x, v, isConst)), vm1, slots, [])
  {
    TopOf(m, locals, 0, s, vm, slots, [], v);
    vm1 := vm.(ip := ip, stack := Rest(vm.stack), globals := vm.globals[x := Binding(Top(vm.stack), false)]);
  }

  lemma SimDecl(m: Image, locals: seq<Local>, depth: nat, pool: seq<Value>, n: Node, fuel: nat,
                s: State, vm: Vm, slots: seq<Value>) returns (vm1: Vm, slots1: seq<Value>)
    requires n.VarDecl? && WfStmt(n, |locals|, depth)
    requires ReadyStmt(m, locals, depth, CompileStmt(EnvOf(m), locals, depth, pool, n), s, vm, slots, NeedStmt(n, depth))
    requires EvalStmt(m.h, fuel, n, s).st.clean
    ensures var c := CompileStmt(EnvOf(m), locals, depth, pool, n);
      StmtSim(m, c.locals, depth, fuel, EvalStmt(m.h, fuel, n, s), vm, |c.code|, vm1, slots1)
  {
    hide EvalExpr, CompileOptional, Reaches, Sync, CodeAt, Step, Stopped, Define, FindConstant, AddConstant, Encode,
         Top, Rest;
    var c := CompileOptional(EnvOf(m), locals, pool, n.expr);
    var r := if n.expr.Nil? then Done(s) else EvalExpr(m.h, fuel, n.expr, s);
    if depth > 0 {
      vm1, slots1 := SimOptional(m, locals, depth, pool, n.expr, fuel, s, vm, slots);
      if r.status.Ok? {
        SlotOfTop(m, locals, depth, r.st, vm1, slots1, r.value, n.name, n.isConst);
        slots1 := slots1 + [r.value];
      }
    } else {
      var k := PoolByte(m.h, c.pool, Str(n.name));
      var def := Referring(m.h, c.pool, Str(n.name), DefineGlobal(k));
      AddConstantGrows(m.h, c.pool, Str(n.name));
      CodeAtSplit(m.code, vm.ip, c.code, def.code);
      var mid;
      mid, slots1 := SimOptional(m, locals, depth, pool, n.expr, fuel, s, vm, slots);
      if r.status.Ok? {
        ConstantAt(m, c.pool, Str(n.name));
        DoDefineGlobal(m, mid, k);
        TwoBytes(k);
        vm1 := GlobalOfTop(m, locals, r.st, mid, slots1, r.value, n.name, n.isConst, mid.ip + 2);
        ReachesTrans(m, vm, mid, Running(vm1));
      } else {
        vm1 := mid;
      }
    }
  }

  lemma TwoBytes(k: byte)
    ensures |Encode(DefineGlobal(k))| == 2
  {
  }

  /** An expression evaluated for its effect. */
  lemma SimExprStmt(m: Image, locals: seq<Local>, depth: nat, pool: seq<Value>, n: Node, fuel: nat,
                    s: State, vm: Vm, slots: seq<Value>) returns (vm1: Vm, slots1: seq<Value>)
    requires n.ExprStmt? && WfStmt(n, |locals|, depth)
    requires ReadyStmt(m, locals, depth, CompileStmt(EnvOf(m), locals, depth, pool, n), s, vm, slots, NeedStmt(n, depth))
    requires EvalStmt(m.h, fuel, n, s).st.clean
    ensures var c := CompileStmt(EnvOf(m), locals, depth, pool, n);
      StmtSim(m, c.locals, depth, fuel, EvalStmt(m.h, fuel, n, s), vm, |c.code|, vm1, slots1)
  {
    hide EvalExpr, CompileExpr, Reaches, Sync, CodeAt, Step, Stopped, Encode, Top, Rest;
    Sizes(0, Plus);
    var c := CompileExpr(EnvOf(m), locals, pool, n.expr);
    var r := EvalExpr(m.h, fuel, n.expr, s);
    CodeAtSplit(m.code, vm.ip, c.code, Encode(Pop));
    var mid;
    mid, slots1 := SimExpr(m, locals, depth, pool, n.expr, fuel, s, vm, slots, []);
    if r.status.Ok? {
      DoPop(m, mid);
      vm1 := PopSync(m, locals, depth, r.st, mid, slots1, [], r.value, mid.ip + 1);
      ReachesTrans(m, vm, mid, Running(vm1));
    } else {
      vm1 := mid;
    }
  }

  lemma SimPrint(m: Image, locals: seq<Local>, depth: nat, pool: seq<Value>, n: Node, fuel: nat,
                 s: State, vm: Vm, slots: seq<Value>) returns (vm1: Vm, slots1: seq<Value>)
    requires n.Print? && WfStmt(n, |locals|, depth)
    requires ReadyStmt(m, locals, depth, CompileStmt(EnvOf(m), locals, depth, pool, n), s, vm, slots, NeedStmt(n, depth))
    requires EvalStmt(m.h, fuel, n, s).st.clean
    ensures var c := CompileStmt(EnvOf(m), locals, depth, pool, n);
      StmtSim(m, c.locals, depth, fuel, EvalStmt(m.h, fuel, n, s), vm, |c.code|, vm1, slots1)
  {
    hide EvalExpr, CompileExpr, Reaches, Sync, CodeAt, Step, Stopped, Encode, Top, Rest, PrintText;
    var c := CompileExpr(EnvOf(m), locals, pool, n.expr);
    var op := if n.isRaw then PrintRaw else PrintLine;
    assert |Encode(op)| == 1 by { OneByte(n.isRaw); }
    var r := EvalExpr(m.h, fuel, n.expr, s);
    CodeAtSplit(m.code, vm.ip, c.code, Encode(op));
    var mid;
    mid, slots1 := SimExpr(m, locals, depth, pool, n.expr, fuel, s, vm, slots, []);
    if r.status.Ok? {
      DoPrint(m, mid, n.isRaw);
      vm1 := PrintSync(m, locals, depth, r.st, mid, slots1, r.value, n.isRaw, n.addNewline);
      ReachesTrans(m, vm, mid, Running(vm1));
    } else {
      vm1 := mid;
    }
  }

  lemma OneByte(raw: bool)
    ensures |Encode(if raw then PrintRaw else PrintLine)| == 1
  {
  }

  lemma PrintSync(m: Image, locals: seq<Local>, depth: nat, s: State, vm: Vm, slots: seq<Value>, v: Value,
                  raw: bool, newline: bool) returns (vm1: Vm)
    requires Sync(m, locals, depth, s, vm, slots, [] + [v]) && raw != newline
    ensures vm1 == vm.(ip := vm.ip + 1, stack := Rest(vm.stack),
      out := if raw then vm.out + PrintText(m.h, Top(vm.stack)) else vm.out + PrintText(m.h, Top(vm.stack)) + "\n")
    ensures Sync(m, locals, depth, s.Check(raw != newline).Emit(PrintText(m.h, v)).Emit(if newline then "\n" else ""),
                 vm1, slots, [])
  {
    hide Agree, GlobalsAgree, PrintText;
    TopOf(m, locals, depth, s, vm, slots, [], v);
    var text := PrintText(m.h, v);
    vm1 := vm.(ip := vm.ip + 1, stack := Rest(vm.stack), out := if raw then vm.out + text else vm.out + text + "\n");
    if raw { assert vm1.out + "" == vm1.out; }
  }

  lemma CustomCallNeeds(n: Node, live: nat, depth: nat)
    requires n.CustomCall? && WfStmt(n, live, depth)
    ensures WfArgs(n.args) && NeedArgs(n.args) <= NeedStmt(n, depth) && 1 <= NeedStmt(n, depth)
  {
  }

  lemma SimCustomCall(m: Image, locals: seq<Local>, depth: nat, pool: seq<Value>, n: Node, fuel: nat,
                      s: State, vm: Vm, slots: seq<Value>) returns (vm1: Vm, slots1: seq<Value>)
    requires n.CustomCall? && WfStmt(n, |locals|, depth)
    requires ReadyStmt(m, locals, depth, CompileStmt(EnvOf(m), locals, depth, pool, n), s, vm, slots, NeedStmt(n, depth))
    requires EvalStmt(m.h, fuel, n, s).st.clean
    ensures var c := CompileStmt(EnvOf(m), locals, depth, pool, n);
      StmtSim(m, c.locals, depth, fuel, EvalStmt(m.h, fuel, n, s), vm, |c.code|, vm1, slots1)
  {
    hide EvalArgs, EvalStmt, CompileArgs, CompileStmt, Reaches, Runs, Sync, CodeAt, Stopped, Encode, Invoke, PlacedStmt,
         WfStmt, WfArgs, NeedStmt, NeedArgs;
    CustomCallResult(m.h, fuel, n, s);
    CmdsOf(m, locals, depth, s, vm, slots, []);
    var c := PlacedCustomCall(m, locals, depth, pool, n, vm.ip);
    CustomCallNeeds(n, |locals|, depth);
    var a := EvalArgs(m.h, fuel, n.args, s);
    vm1, slots1 := SimArgs(m, locals, depth, pool, n.args, fuel, s, vm, slots, []);
    if a.status.Ok? {
      vm1 := InvokeAndPop(m, locals, depth, c.pool, n.name, |n.args|, s, vm, slots, a, vm1, slots1);
    }
  }

  /** The command's result is dropped. */
  lemma InvokeAndPop(m: Image, locals: seq<Local>, depth: nat, pool: seq<Value>, name: string, argc: nat,
                     s: State, vm: Vm, slots: seq<Value>, a: ArgsResult, mid: Vm, slots1: seq<Value>) returns (vm1: Vm)
    requires Sync(m, locals, depth, s, vm, slots, []) && |vm.stack| + 1 <= MAX_STACK
    requires Reaches(m, vm, Running(mid)) && Sync(m, locals, depth, a.st, mid, slots1, [] + a.values)
    requires a.status.Ok? && |a.values| == argc && name in m.cmds && m.cmds[name].Native?
    requires var call := Invoke(m.h, pool, name, argc);
      Placed(m, call, mid.ip) && CodeAt(m.code, mid.ip + |call.code|, Encode(Pop))
    ensures Reaches(m, vm, Running(vm1)) && vm1.ip == mid.ip + |Invoke(m.h, pool, name, argc).code| + 1
    ensures Sync(m, locals, depth, a.st.Emit(m.h.natives(name, a.values).1), vm1, slots1, [])
  {
    hide Reaches, Sync, CodeAt, Encode, Invoke, Placed;
    var two := InvokeAfter(m, locals, depth, pool, name, argc, s, vm, slots, [], a, mid, slots1);
    var r := m.h.natives(name, a.values);
    DoPop(m, two);
    vm1 := PopSync(m, locals, depth, a.st.Emit(r.1), two, slots1, [], r.0, two.ip + 1);
    ReachesTrans(m, vm, two, Running(vm1));
  }

  /** The arguments, the call, and the pop of its result. */
  lemma PlacedCustomCall(m: Image, locals: seq<Local>, depth: nat, pool: seq<Value>, n: Node, ip: nat) returns (c: Emitted)
    requires n.CustomCall? && PlacedStmt(m, CompileStmt(EnvOf(m), locals, depth, pool, n), ip)
    ensures c == CompileArgs(EnvOf(m), locals, pool, n.args) && Placed(m, c, ip)
    ensures var call := Invoke(m.h, c.pool, n.name, |n.args|);
      && Placed(m, call, ip + |c.code|)
      && CodeAt(m.code, ip + |c.code| + |call.code|, Encode(Pop))
      && CompileStmt(EnvOf(m), locals, depth, pool, n).locals == locals
      && |CompileStmt(EnvOf(m), locals, depth, pool, n).code| == |c.code| + |call.code| + 1
  {
    hide CompileArgs, Invoke, CodeAt;
    c := CompileArgs(EnvOf(m), locals, pool, n.args);
    var call := Invoke(m.h, c.pool, n.name, |n.args|);
    InvokePool(m.h, c.pool, n.name, |n.args|);
    CodeAtSplit(m.code, ip, c.code, call.code + Encode(Pop));
    CodeAtSplit(m.code, ip + |c.code|, call.code, Encode(Pop));
  }

  /** A clean custom call is a native command on its arguments. */
  lemma CustomCallResult(h: Host, fuel: nat, n: Node, s: State)
    requires n.CustomCall? && EvalStmt(h, fuel, n, s).st.clean
    ensures n.name in s.cmds
    ensures var a := EvalArgs(h, fuel, n.args, s);
      && a.st.clean
      && (a.status.Ok? ==> s.cmds[n.name].Native?)
      && EvalStmt(h, fuel, n, s) ==
           if a.status.Ok? then Done(a.st.Emit(h.natives(n.name, a.values).1)) else Result(a.status, Null, a.st)
  {
    CleanCustomCall(h, fuel, n, s);
    hide EvalArgs, CallBody;
    assert s.Check(n.body.Nil?) == s;
  }

  // ----- Blocks -----

  lemma {:induction false} PopsSize(n: nat)
    ensures |Pops(n)| == n
  {
    if n > 0 { PopsSize(n - 1); }
  }

  lemma {:induction false} RunPops(m: Image, vm: Vm, n: nat)
    requires CodeAt(m.code, vm.ip, Pops(n)) && n <= |vm.stack|
    ensures Reaches(m, vm, Running(vm.(ip := vm.ip + n, stack := vm.stack[..|vm.stack| - n])))
    decreases n
  {
    hide CodeAt, Reaches;
    if n == 0 {
      ReachesRefl(m, vm);
      assert vm.stack[..|vm.stack|] == vm.stack;
    } else {
      CodeAtSplit(m.code, vm.ip, Encode(Pop), Pops(n - 1));
      DoPop(m, vm);
      var vm1 := vm.(ip := vm.ip + 1, stack := Rest(vm.stack));
      RunPops(m, vm1, n - 1);
      assert vm1.stack[..|vm1.stack| - (n - 1)] == vm.stack[..|vm.stack| - n];
      ReachesTrans(m, vm, vm1, Running(vm.(ip := vm.ip + n, stack := vm.stack[..|vm.stack| - n])));
    }
  }

  lemma EnterBlock(m: Image, locals: seq<Local>, depth: nat, s: State, vm: Vm, slots: seq<Value>)
    requires Sync(m, locals, depth, s, vm, slots, [])
    ensures Sync(m, locals, depth + 1, s.Push(), vm, slots, [])
  {
    PushAgrees(locals, depth, slots, s.scopes);
  }

  lemma LeaveBlock(m: Image, locals: seq<Local>, inner: seq<Local>, depth: nat, s: State, vm: Vm, slots: seq<Value>,
                   ip: nat) returns (vm1: Vm)
    requires Sync(m, locals + inner, depth + 1, s, vm, slots, [])
    requires DepthsOrdered(locals, depth)
    requires forall i :: 0 <= i < |inner| ==> inner[i].depth == depth + 1
    ensures |locals| <= |slots|
    ensures |inner| <= |vm.stack| && vm1 == vm.(ip := ip, stack := vm.stack[..|vm.stack| - |inner|])
    ensures Sync(m, locals, depth, s.Pop(), vm1, slots[..|locals|], [])
  {
    PopAgrees(locals, inner, depth, slots, s.scopes);
    hide Agree;
    assert |slots| == |locals| + |inner|;
    vm1 := vm.(ip := ip, stack := vm.stack[..|vm.stack| - |inner|]);
  }

  lemma StoppedBlock(depth: nat, s: State, vm: Vm)
    requires Stopped(depth + 1, s, vm)
    ensures Stopped(depth, s.Pop(), vm)
  {
  }

  lemma OrderOf(m: Image, locals: seq<Local>, depth: nat, s: State, vm: Vm, slots: seq<Value>, temps: seq<Value>)
    requires Sync(m, locals, depth, s, vm, slots, temps)
    ensures DepthsOrdered(locals, depth)
  {
  }

  // ----- Branches and loops -----

  /** The machine after a conditional jump and the pop that follows on either way. */
  lemma TakeBranch(m: Image, locals: seq<Local>, depth: nat, s: State, vm: Vm, slots: seq<Value>, v: Value, d: short)
    returns (vm1: Vm)
    requires CodeAt(m.code, vm.ip, Encode(JumpIfFalse(d)))
    requires CodeAt(m.code, vm.ip + 3, Encode(Pop)) && CodeAt(m.code, vm.ip + 3 + d, Encode(Pop))
    requires Sync(m, locals, depth, s, vm, slots, [] + [v])
    ensures Reaches(m, vm, Running(vm1)) && vm1.ip == vm.ip + 4 + (if Truthy(m.h, v) then 0 else d)
    ensures Sync(m, locals, depth, s, vm1, slots, []) && |vm1.stack| + 1 == |vm.stack|
  {
    hide Sync, Reaches, CodeAt, Encode, Truthy;
    TopOf(m, locals, depth, s, vm, slots, [], v);
    DoJumpIfFalse(m, vm, d);
    var at := vm.(ip := vm.ip + 3 + if Truthy(m.h, v) then 0 else d);
    SyncAt(m, locals, depth, s, vm, slots, [] + [v], at.ip);
    DoPop(m, at);
    vm1 := PopSync(m, locals, depth, s, at, slots, [], v, at.ip + 1);
    ReachesTrans(m, vm, at, Running(vm1));
    HeightAfter(m, locals, depth, s, vm, slots, [] + [v], s, vm1, slots, []);
  }

  lemma {:induction false} SimStmt(m: Image, locals: seq<Local>, depth: nat, pool: seq<Value>, n: Node, fuel: nat,
                                   s: State, vm: Vm, slots: seq<Value>) returns (vm1: Vm, slots1: seq<Value>)
    requires WfStmt(n, |locals|, depth)
    requires ReadyStmt(m, locals, depth, CompileStmt(EnvOf(m), locals, depth, pool, n), s, vm, slots, NeedStmt(n, depth))
    requires EvalStmt(m.h, fuel, n, s).st.clean
    ensures var c := CompileStmt(EnvOf(m), locals, depth, pool, n);
      StmtSim(m, c.locals, depth, fuel, EvalStmt(m.h, fuel, n, s), vm, |c.code|, vm1, slots1)
    decreases fuel, n, 2
  {
    if n.VarDecl? {
      vm1, slots1 := SimDecl(m, locals, depth, pool, n, fuel, s, vm, slots);
    } else if n.ExprStmt? {
      vm1, slots1 := SimExprStmt(m, locals, depth, pool, n, fuel, s, vm, slots);
    } else if n.Block? {
      vm1, slots1 := SimBlock(m, locals, depth, pool, n, fuel, s, vm, slots);
    } else if n.If? && n.elseBranch.Nil? {
      hide CompileIf, Sync, Reaches, CodeAt, EvalExpr;
      vm1, slots1 := SimIf(m, locals, depth, pool, n, fuel, s, vm, slots);
    } else if n.If? {
      hide CompileIf, Sync, Reaches, CodeAt, EvalExpr;
      vm1, slots1 := SimIfElse(m, locals, depth, pool, n, fuel, s, vm, slots);
    } else if n.While? {
      hide CompileWhile, Sync, Reaches, CodeAt, EvalLoop;
      vm1, slots1 := SimWhile(m, locals, depth, pool, n, fuel, s, vm, slots);
    } else if n.Print? {
      vm1, slots1 := SimPrint(m, locals, depth, pool, n, fuel, s, vm, slots);
    } else if n.CustomCall? {
      vm1, slots1 := SimCustomCall(m, locals, depth, pool, n, fuel, s, vm, slots);
    } else {
      vm1, slots1 := SimSilent(m, locals, depth, pool, n, fuel, s, vm, slots);
    }
  }

  /** Statements for which the code generator emits nothing, and which a clean run ignores too. */
  lemma SimSilent(m: Image, locals: seq<Local>, depth: nat, pool: seq<Value>, n: Node, fuel: nat,
                  s: State, vm: Vm, slots: seq<Value>) returns (vm1: Vm, slots1: seq<Value>)
    requires !n.VarDecl? && !n.ExprStmt? && !n.Block? && !n.If? && !n.While? && !n.Print? && !n.CustomCall?
    requires Sync(m, locals, depth, s, vm, slots, [])
    requires EvalStmt(m.h, fuel, n, s).st.clean
    ensures var c := CompileStmt(EnvOf(m), locals, depth, pool, n);
      c.Compiled? ==> StmtSim(m, c.locals, depth, fuel, EvalStmt(m.h, fuel, n, s), vm, |c.code|, vm1, slots1)
  {
    hide Sync, Reaches, EvalExpr, EvalFor, CompileOptional;
    vm1, slots1 := vm, slots;
    ReachesRefl(m, vm);
    if n.Return? {
      ExprStaysClean(m.h, fuel, n.expr, s.Check(false));
    } else if n.For? {
      CleanHasNoFor(m.h, fuel, n, s);
    }
  }

  lemma {:induction false} SimStmts(m: Image, locals: seq<Local>, depth: nat, pool: seq<Value>, stmts: seq<Node>,
                                    fuel: nat, s: State, vm: Vm, slots: seq<Value>)
    returns (vm1: Vm, slots1: seq<Value>)
    requires WfStmts(stmts, |locals|, depth)
    requires ReadyStmt(m, locals, depth, CompileStmts(EnvOf(m), locals, depth, pool, stmts), s, vm, slots,
                       NeedStmts(stmts, depth))
    requires EvalStmts(m.h, fuel, stmts, s).st.clean
    ensures var c := CompileStmts(EnvOf(m), locals, depth, pool, stmts);
      StmtSim(m, c.locals, depth, fuel, EvalStmts(m.h, fuel, stmts, s), vm, |c.code|, vm1, slots1)
    decreases fuel, stmts, 1
  {
    hide Sync, Stopped, Reaches, Runs, CodeAt, EvalStmt, CompileStmt, WfStmt, NeedStmt;
    if stmts == [] {
      vm1, slots1 := vm, slots;
      ReachesRefl(m, vm);
    } else {
      var c := CompileStmt(EnvOf(m), locals, depth, pool, stmts[0]);
      var d := CompileStmts(EnvOf(m), c.locals, depth, c.pool, stmts[1..]);
      StmtsPool(EnvOf(m), c.locals, depth, c.pool, stmts[1..]);
      CodeAtSplit(m.code, vm.ip, c.code, d.code);
      OrderOf(m, locals, depth, s, vm, slots, []);
      LocalsAfter(EnvOf(m), locals, depth, pool, stmts[0]);
      var r := EvalStmt(m.h, fuel, stmts[0], s);
      if r.status.Ok? && |stmts| > 1 { StmtsStayClean(m.h, fuel, stmts[1..], r.st); }
      var mid, slots0 := SimStmt(m, locals, depth, pool, stmts[0], fuel, s, vm, slots);
      vm1, slots1 := mid, slots0;
      if r.status.Ok? {
        HeightOf(m, locals, depth, s, vm, slots, c.locals, r.st, mid, slots0);
        if |stmts| == 1 {
          assert stmts[1..] == [];
        } else {
          vm1, slots1 := SimStmts(m, c.locals, depth, c.pool, stmts[1..], fuel, r.st, mid, slots0);
          StmtAfter(m, d.locals, depth, fuel, EvalStmts(m.h, fuel, stmts[1..], r.st), vm, mid, |c.code|, |d.code|, vm1, slots1);
        }
      }
    }
  }

  lemma HeightOf(m: Image, locals: seq<Local>, depth: nat, s: State, vm: Vm, slots: seq<Value>,
                 locals1: seq<Local>, s1: State, vm1: Vm, slots1: seq<Value>)
    requires Sync(m, locals, depth, s, vm, slots, [])
    requires Sync(m, locals1, depth, s1, vm1, slots1, [])
    ensures |vm1.stack| == |vm.stack| - |locals| + |locals1|
  {
    SyncHeight(m, locals, depth, s, vm, slots, []);
    SyncHeight(m, locals1, depth, s1, vm1, slots1, []);
  }

  lemma {:induction false} SimBlock(m: Image, locals: seq<Local>, depth: nat, pool: seq<Value>, n: Node, fuel: nat,
                                    s: State, vm: Vm, slots: seq<Value>) returns (vm1: Vm, slots1: seq<Value>)
    requires n.Block? && WfStmt(n, |locals|, depth)
    requires ReadyStmt(m, locals, depth, CompileStmt(EnvOf(m), locals, depth, pool, n), s, vm, slots, NeedStmt(n, depth))
    requires EvalStmt(m.h, fuel, n, s).st.clean
    ensures var c := CompileStmt(EnvOf(m), locals, depth, pool, n);
      StmtSim(m, c.locals, depth, fuel, EvalStmt(m.h, fuel, n, s), vm, |c.code|, vm1, slots1)
    decreases fuel, n, 1
  {
    OrderOf(m, locals, depth, s, vm, slots, []);
    var c, inner := PlacedBlock(m, locals, depth, pool, n, vm.ip);
    hide Sync, Stopped, Reaches, Runs, CodeAt, EvalStmts, CompileStmts, CompileStmt, WfStmts, NeedStmts, Pops;
    EnterBlock(m, locals, depth, s, vm, slots);
    var r := EvalStmts(m.h, fuel, n.stmts, s.Push());
    var mid, slots0 := SimStmts(m, locals, depth + 1, pool, n.stmts, fuel, s.Push(), vm, slots);
    vm1, slots1 := EndBlock(m, locals, inner, depth, fuel, r, vm, |c.code|, mid, slots0);
  }

  /** The statements of a block and one pop for each of its locals. */
  lemma PlacedBlock(m: Image, locals: seq<Local>, depth: nat, pool: seq<Value>, n: Node, ip: nat)
    returns (c: Compiled, inner: seq<Local>)
    requires n.Block? && WfStmt(n, |locals|, depth) && DepthsOrdered(locals, depth)
    requires PlacedStmt(m, CompileStmt(EnvOf(m), locals, depth, pool, n), ip)
    ensures c == CompileStmts(EnvOf(m), locals, depth + 1, pool, n.stmts) && PlacedStmt(m, c, ip)
    ensures c.locals == locals + inner && forall i :: 0 <= i < |inner| ==> inner[i].depth == depth + 1
    ensures CodeAt(m.code, ip + |c.code|, Pops(|inner|))
    ensures CompileStmt(EnvOf(m), locals, depth, pool, n).locals == locals
    ensures |CompileStmt(EnvOf(m), locals, depth, pool, n).code| == |c.code| + |inner|
  {
    hide CompileStmts, CodeAt, Pops, KeepLocals, WfStmts;
    c := CompileStmts(EnvOf(m), locals, depth + 1, pool, n.stmts);
    inner := DeclaredIn(n.stmts, depth + 1);
    LocalsAfterAll(EnvOf(m), locals, depth + 1, pool, n.stmts);
    KeepLocalsPrefix(locals, inner, depth);
    PopsSize(|inner|);
    CodeAtSplit(m.code, ip, c.code, Pops(|inner|));
  }

  lemma EndBlock(m: Image, locals: seq<Local>, inner: seq<Local>, depth: nat, fuel: nat, r: Result, vm: Vm, len: nat,
                 mid: Vm, slots: seq<Value>) returns (vm1: Vm, slots1: seq<Value>)
    requires StmtSim(m, locals + inner, depth + 1, fuel, r, vm, len, mid, slots)
    requires CodeAt(m.code, vm.ip + len, Pops(|inner|))
    requires DepthsOrdered(locals, depth)
    requires forall i :: 0 <= i < |inner| ==> inner[i].depth == depth + 1
    ensures StmtSim(m, locals, depth, fuel, r.(st := r.st.Pop()), vm, len + |inner|, vm1, slots1)
  {
    hide Sync, Stopped, Reaches, Runs, CodeAt, Pops, PopScope;
    vm1, slots1 := mid, slots;
    if r.status.Ok? {
      vm1 := LeaveBlock(m, locals, inner, depth, r.st, mid, slots, mid.ip + |inner|);
      slots1 := slots[..|locals|];
      RunPops(m, mid, |inner|);
      ReachesTrans(m, vm, mid, Running(vm1));
    } else if r.status.Error? {
      StoppedBlock(depth, r.st, mid);
    }
  }

  lemma {:induction false} SimIfElse(m: Image, locals: seq<Local>, depth: nat, pool: seq<Value>, n: Node, fuel: nat,
                                     s: State, vm: Vm, slots: seq<Value>) returns (vm1: Vm, slots1: seq<Value>)
    requires n.If? && !n.elseBranch.Nil? && WfStmt(n, |locals|, depth)
    requires ReadyStmt(m, locals, depth, CompileIf(EnvOf(m), locals, depth, pool, n), s, vm, slots, NeedStmt(n, depth))
    requires EvalStmt(m.h, fuel, n, s).st.clean
    ensures var c := CompileIf(EnvOf(m), locals, depth, pool, n);
      StmtSim(m, c.locals, depth, fuel, EvalStmt(m.h, fuel, n, s), vm, |c.code|, vm1, slots1)
    decreases fuel, n, 1
  {
    hide Sync, Stopped, Reaches, Runs, CodeAt, EvalExpr, CompileExpr, CompileStmt, IfElseCode, Encode, Truthy, WfExpr, Need;
    var c := CompileExpr(EnvOf(m), locals, pool, n.cond);
    var t := CompileStmt(EnvOf(m), locals, depth, c.pool, n.thenBranch);
    var e := CompileStmt(EnvOf(m), t.locals, depth, t.pool, n.elseBranch);
    StmtPool(EnvOf(m), locals, depth, c.pool, n.thenBranch);
    StmtPool(EnvOf(m), t.locals, depth, t.pool, n.elseBranch);
    OrderOf(m, locals, depth, s, vm, slots, []);
    LocalsAfter(EnvOf(m), locals, depth, c.pool, n.thenBranch);
    assert t.locals == locals;
    LocalsAfter(EnvOf(m), locals, depth, t.pool, n.elseBranch);
    assert e.locals == locals;
    CodeAtSplit(m.code, vm.ip, c.code, IfElseCode(t.code, e.code));
    IfElseLayout(m.code, vm.ip + |c.code|, t.code, e.code);
    var x := EvalExpr(m.h, fuel, n.cond, s);
    var branch := if Truthy(m.h, x.value) then n.thenBranch else n.elseBranch;
    var all := EvalStmt(m.h, fuel, n, s);
    StmtStaysClean(m.h, fuel, branch, x.st);
    var mid, slots0 := SimExpr(m, locals, depth, pool, n.cond, fuel, s, vm, slots, []);
    if !x.status.Ok? {
      vm1, slots1 := mid, slots0;
      ExprFailsStmt(m, locals, e.locals, depth, fuel, x, all, vm, |c.code|, |c.code| + |IfElseCode(t.code, e.code)|,
                    [], vm1, slots1);
    } else {
      HeightAfter(m, locals, depth, s, vm, slots, [], x.st, mid, slots0, [] + [x.value]);
      var at := TakeBranch(m, locals, depth, x.st, mid, slots0, x.value, |t.code| + 4);
      ReachesTrans(m, vm, mid, Running(at));
      if Truthy(m.h, x.value) {
        var end;
        end, slots1 := SimStmt(m, locals, depth, c.pool, n.thenBranch, fuel, x.st, at, slots0);
        vm1 := SkipElse(m, locals, depth, fuel, all, at, end, slots1, |t.code|, 1 + |e.code|);
        StmtAfter(m, locals, depth, fuel, all, vm, at, |c.code| + 4, |t.code| + 4 + |e.code|, vm1, slots1);
      } else {
        vm1, slots1 := SimStmt(m, locals, depth, t.pool, n.elseBranch, fuel, x.st, at, slots0);
        StmtAfter(m, locals, depth, fuel, all, vm, at, |c.code| + 8 + |t.code|, |e.code|, vm1, slots1);
      }
    }
  }

  /** After a branch, a jump over what the other way would run. */
  lemma SkipElse(m: Image, locals: seq<Local>, depth: nat, fuel: nat, r: Result, vm: Vm, end: Vm, slots: seq<Value>,
                 len: nat, d: short) returns (vm1: Vm)
    requires StmtSim(m, locals, depth, fuel, r, vm, len, end, slots)
    requires CodeAt(m.code, vm.ip + len, Encode(Jump(d)))
    ensures StmtSim(m, locals, depth, fuel, r, vm, len + 3 + d, vm1, slots)
  {
    hide Sync, Stopped, Reaches, Runs, CodeAt, Encode;
    vm1 := end;
    if r.status.Ok? {
      DoJump(m, end, d);
      vm1 := end.(ip := end.ip + 3 + d);
      SyncAt(m, locals, depth, r.st, end, slots, [], vm1.ip);
      ReachesTrans(m, vm, end, Running(vm1));
    }
  }

  lemma {:induction false} SimIf(m: Image, locals: seq<Local>, depth: nat, pool: seq<Value>, n: Node, fuel: nat,
                                 s: State, vm: Vm, slots: seq<Value>) returns (vm1: Vm, slots1: seq<Value>)
    requires n.If? && n.elseBranch.Nil? && WfStmt(n, |locals|, depth)
    requires ReadyStmt(m, locals, depth, CompileIf(EnvOf(m), locals, depth, pool, n), s, vm, slots, NeedStmt(n, depth))
    requires EvalStmt(m.h, fuel, n, s).st.clean
    ensures var c := CompileIf(EnvOf(m), locals, depth, pool, n);
      StmtSim(m, c.locals, depth, fuel, EvalStmt(m.h, fuel, n, s), vm, |c.code|, vm1, slots1)
    decreases fuel, n, 1
  {
    hide Sync, Stopped, Reaches, Runs, CodeAt, EvalExpr, CompileExpr, CompileStmt, IfCode, Encode, Truthy, WfExpr, Need;
    var c := CompileExpr(EnvOf(m), locals, pool, n.cond);
    var t := CompileStmt(EnvOf(m), locals, depth, c.pool, n.thenBranch);
    StmtPool(EnvOf(m), locals, depth, c.pool, n.thenBranch);
    OrderOf(m, locals, depth, s, vm, slots, []);
    LocalsAfter(EnvOf(m), locals, depth, c.pool, n.thenBranch);
    assert t.locals == locals == [];
    CodeAtSplit(m.code, vm.ip, c.code, IfCode(t.code));
    IfLayout(m.code, vm.ip + |c.code|, t.code);
    var x := EvalExpr(m.h, fuel, n.cond, s);
    var all := EvalStmt(m.h, fuel, n, s);
    if x.status.Ok? && Truthy(m.h, x.value) { StmtStaysClean(m.h, fuel, n.thenBranch, x.st); }
    var mid, slots0 := SimExpr(m, locals, depth, pool, n.cond, fuel, s, vm, slots, []);
    if !x.status.Ok? {
      vm1, slots1 := mid, slots0;
      ExprFailsStmt(m, locals, t.locals, depth, fuel, x, all, vm, |c.code|, |c.code| + |IfCode(t.code)|, [], vm1, slots1);
    } else {
      HeightAfter(m, locals, depth, s, vm, slots, [], x.st, mid, slots0, [] + [x.value]);
      var at := TakeBranch(m, locals, depth, x.st, mid, slots0, x.value, 1 + |t.code|);
      ReachesTrans(m, vm, mid, Running(at));
      if Truthy(m.h, x.value) {
        var end;
        end, slots1 := SimStmt(m, locals, depth, c.pool, n.thenBranch, fuel, x.st, at, slots0);
        vm1 := PopNothing(m, depth, fuel, all, at, end, slots1, |t.code|);
        StmtAfter(m, locals, depth, fuel, all, vm, at, |c.code| + 4, |t.code| + 1, vm1, slots1);
      } else {
        vm1, slots1 := at, slots0;
      }
    }
  }

  /** With no local live, the pop after the branch of an if without else finds an empty stack. */
  lemma PopNothing(m: Image, depth: nat, fuel: nat, r: Result, vm: Vm, end: Vm, slots: seq<Value>, len: nat) returns (vm1: Vm)
    requires StmtSim(m, [], depth, fuel, r, vm, len, end, slots)
    requires CodeAt(m.code, vm.ip + len, Encode(Pop))
    ensures StmtSim(m, [], depth, fuel, r, vm, len + 1, vm1, slots)
  {
    hide Stopped, Reaches, CodeAt, Encode;
    vm1 := end;
    if r.status.Ok? {
      SyncHeight(m, [], depth, r.st, end, slots, []);
      hide Sync;
      DoPop(m, end);
      vm1 := end.(ip := end.ip + 1);
      SyncAt(m, [], depth, r.st, end, slots, [], vm1.ip);
      ReachesTrans(m, vm, end, Running(vm1));
    }
  }

  lemma {:induction false} SimWhile(m: Image, locals: seq<Local>, depth: nat, pool: seq<Value>, n: Node, fuel: nat,
                                    s: State, vm: Vm, slots: seq<Value>) returns (vm1: Vm, slots1: seq<Value>)
    requires n.While? && WfStmt(n, |locals|, depth)
    requires ReadyStmt(m, locals, depth, CompileWhile(EnvOf(m), locals, depth, pool, n), s, vm, slots, NeedStmt(n, depth))
    requires EvalLoop(m.h, fuel, n, n.cond, Nil, n.body, s).st.clean
    ensures var c := CompileWhile(EnvOf(m), locals, depth, pool, n);
      StmtSim(m, c.locals, depth, fuel, EvalLoop(m.h, fuel, n, n.cond, Nil, n.body, s), vm, |c.code|, vm1, slots1)
    decreases fuel, n, 1
  {
    hide Sync, Stopped, Reaches, Runs, CodeAt, EvalExpr, CompileExpr, EvalStmt, EvalLoop, CompileStmt, WhileCode,
         Encode, Truthy, WfExpr, Need;
    var c := CompileExpr(EnvOf(m), locals, pool, n.cond);
    var b := CompileStmt(EnvOf(m), locals, depth, c.pool, n.body);
    StmtPool(EnvOf(m), locals, depth, c.pool, n.body);
    OrderOf(m, locals, depth, s, vm, slots, []);
    LocalsAfter(EnvOf(m), locals, depth, c.pool, n.body);
    assert b.locals == locals;
    WhileLayout(m.code, vm.ip, c.code, b.code);
    var len := |WhileCode(c.code, b.code)|;
    var x := EvalExpr(m.h, fuel, n.cond, s);
    var all := EvalLoop(m.h, fuel, n, n.cond, Nil, n.body, s);
    LoopParts(m.h, fuel, n, s);
    var mid, slots0 := SimExpr(m, locals, depth, pool, n.cond, fuel, s, vm, slots, []);
    if !x.status.Ok? {
      vm1, slots1 := mid, slots0;
      ExprFailsStmt(m, locals, locals, depth, fuel, x, all, vm, |c.code|, len, [], vm1, slots1);
    } else {
      HeightAfter(m, locals, depth, s, vm, slots, [], x.st, mid, slots0, [] + [x.value]);
      var at := TakeBranch(m, locals, depth, x.st, mid, slots0, x.value, |b.code| + 4);
      ReachesTrans(m, vm, mid, Running(at));
      if !Truthy(m.h, x.value) {
        vm1, slots1 := at, slots0;
      } else {
        var y := EvalStmt(m.h, fuel, n.body, x.st);
        var end;
        end, slots1 := SimStmt(m, locals, depth, c.pool, n.body, fuel, x.st, at, slots0);
        if !y.status.Ok? || fuel == 0 {
          vm1 := end;
          StmtAfter(m, locals, depth, fuel, y, vm, at, |c.code| + 4, |b.code|, vm1, slots1);
          if y.status.Ok? { RunsNone(m, vm); }
        } else {
          DoLoop(m, end, |c.code| + |b.code| + 7);
          var again := end.(ip := vm.ip);
          SyncAt(m, locals, depth, y.st, end, slots1, [], again.ip);
          ReachesTrans(m, at, end, Running(again));
          ReachesTrans(m, vm, at, Running(again));
          HeightOf(m, locals, depth, s, vm, slots, locals, y.st, again, slots1);
          vm1, slots1 := SimWhile(m, locals, depth, pool, n, fuel - 1, y.st, again, slots1);
          NextRound(m, locals, depth, fuel, all, vm, end, again, len, vm1, slots1) by {
            ReachesTrans(m, vm, at, Running(end));
          }
        }
      }
    }
  }

  lemma RunsNone(m: Image, vm: Vm)
    ensures Runs(m, 0, vm)
  {
  }

  /** The jump back is a step of its own, so each round of a loop costs the machine at least one. */
  lemma NextRound(m: Image, locals: seq<Local>, depth: nat, fuel: nat, r: Result, vm: Vm, end: Vm, again: Vm, len: nat,
                  vm1: Vm, slots1: seq<Value>)
    requires fuel > 0 && again.ip == vm.ip
    requires Reaches(m, vm, Running(end)) && Reaches(m, vm, Running(again))
    requires Step(m, end) == Running(again)
    requires StmtSim(m, locals, depth, fuel - 1, r, again, len, vm1, slots1)
    ensures StmtSim(m, locals, depth, fuel, r, vm, len, vm1, slots1)
  {
    hide Reaches, Sync, Stopped, Runs, Step;
    if r.status.Timeout? {
      RunsStep(m, end, again, fuel - 1);
      RunsAfter(m, vm, end, fuel);
    } else {
      StmtAfter(m, locals, depth, fuel - 1, r, vm, again, 0, len, vm1, slots1);
    }
  }

  /** One round of a clean while loop. */
  lemma LoopParts(h: Host, fuel: nat, n: Node, s: State)
    requires n.While? && EvalLoop(h, fuel, n, n.cond, Nil, n.body, s).st.clean
    ensures var x := EvalExpr(h, fuel, n.cond, s);
      var y := EvalStmt(h, fuel, n.body, x.st);
      var all := EvalLoop(h, fuel, n, n.cond, Nil, n.body, s);
      && x.st.clean
      && (!x.status.Ok? ==> all == x)
      && (x.status.Ok? && !Truthy(h, x.value) ==> all == Done(x.st))
      && (x.status.Ok? && Truthy(h, x.value) ==>
            && y.st.clean
            && (y.status.Error? || y.status.Timeout? ==> all == y)
            && (y.status.Ok? && fuel == 0 ==> all == Result(Timeout, Null, y.st))
            && (y.status.Ok? && fuel > 0 ==> all == EvalLoop(h, fuel - 1, n, n.cond, Nil, n.body, y.st)))
  {
    hide EvalExpr, EvalStmt, Truthy;
    var x := EvalExpr(h, fuel, n.cond, s);
    assert EvalCond(h, fuel, n, n.cond, s) == x;
    var round := EvalRound(h, fuel, n, n.cond, Nil, n.body, s);
    var rest := EvalBody(h, fuel, n, Nil, n.body, x.st);
    if x.status.Ok? && Truthy(h, x.value) {
      var y := EvalStmt(h, fuel, n.body, x.st);
      StmtStaysClean(h, fuel, n.body, x.st);
      if fuel > 0 { LoopStaysClean(h, fuel - 1, n, n.cond, Nil, n.body, y.st); }
    }
  }
}
