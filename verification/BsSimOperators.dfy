/** Compiled expressions simulate the interpreter, by induction on the expression. */
module BsSimOperators {
  import opened BsAst
  import opened BsValue
  import opened BsScopes
  import opened BsInterpreter
  import opened BsScopeDiscipline
  import opened BsBytecode
  import opened BsVm
  import opened BsCodegen
  import opened BsSlots
  import opened BsWellFormed
  import opened BsLayout
  import opened BsSimExpr

  /** Both engines stand before the code of an expression that needs "need" stack slots. */
  ghost predicate Ready(m: Image, locals: seq<Local>, depth: nat, code: Emitted, s: State, vm: Vm,
                        slots: seq<Value>, temps: seq<Value>, need: nat) {
    && Placed(m, code, vm.ip)
    && Sync(m, locals, depth, s, vm, slots, temps)
    && |vm.stack| + need <= MAX_STACK
  }

  lemma HeightAfter(m: Image, locals: seq<Local>, depth: nat, s: State, vm: Vm, slots: seq<Value>, temps: seq<Value>,
                    s1: State, vm1: Vm, slots1: seq<Value>, temps1: seq<Value>)
    requires Sync(m, locals, depth, s, vm, slots, temps)
    requires Sync(m, locals, depth, s1, vm1, slots1, temps1)
    ensures |vm1.stack| == |vm.stack| - |temps| + |temps1|
  {
    SyncHeight(m, locals, depth, s, vm, slots, temps);
    SyncHeight(m, locals, depth, s1, vm1, slots1, temps1);
  }

  /** The simulation of expressions. */
  lemma {:induction false} SimExpr(m: Image, locals: seq<Local>, depth: nat, pool: seq<Value>, e: Node, fuel: nat,
                                   s: State, vm: Vm, slots: seq<Value>, temps: seq<Value>)
    returns (vm1: Vm, slots1: seq<Value>)
    requires WfExpr(e)
    requires Ready(m, locals, depth, CompileExpr(EnvOf(m), locals, pool, e), s, vm, slots, temps, Need(e))
    requires EvalExpr(m.h, fuel, e, s).st.clean
    ensures ExprSim(m, locals, depth, EvalExpr(m.h, fuel, e, s), vm,
                    |CompileExpr(EnvOf(m), locals, pool, e).code|, temps, vm1, slots1)
    decreases e, 3
  {
    hide Sync, Stopped, Reaches, CodeAt, EvalBinary, EvalCall, CompileBinary, CompileCall, Lookup, LeftOver,
         GetVariable, SetVariable, AssignTo, Define, EvalUnary, UnaryCode, FindConstant, AddConstant, Encode;
    if e.Literal? {
      vm1 := SimLiteral(m, locals, depth, pool, e, fuel, s, vm, slots, temps);
      slots1 := slots;
    } else if e.Identifier? {
      vm1 := SimRead(m, locals, depth, pool, e.name, s, vm, slots, temps);
      slots1 := slots;
    } else if e.Unary? {
      vm1, slots1 := SimUnary(m, locals, depth, pool, e, fuel, s, vm, slots, temps);
    } else if e.Binary? {
      if e.op == AndAnd || e.op == OrOr {
        LogicAgrees(m.h, fuel, e, s);
        vm1, slots1 := SimLogic(m, locals, depth, pool, e, fuel, s, vm, slots, temps);
      } else {
        vm1, slots1 := SimBinary(m, locals, depth, pool, e, fuel, s, vm, slots, temps);
      }
    } else if e.Assign? {
      vm1, slots1 := SimAssign(m, locals, depth, pool, e, fuel, s, vm, slots, temps);
    } else {
      assert e.Call?;
      vm1, slots1 := SimCall(m, locals, depth, pool, e, fuel, s, vm, slots, temps);
    }
  }

  lemma {:induction false} SimUnary(m: Image, locals: seq<Local>, depth: nat, pool: seq<Value>, e: Node, fuel: nat,
                                    s: State, vm: Vm, slots: seq<Value>, temps: seq<Value>)
    returns (vm1: Vm, slots1: seq<Value>)
    requires e.Unary? && WfExpr(e)
    requires Ready(m, locals, depth, CompileExpr(EnvOf(m), locals, pool, e), s, vm, slots, temps, Need(e))
    requires EvalExpr(m.h, fuel, e, s).st.clean
    ensures ExprSim(m, locals, depth, EvalExpr(m.h, fuel, e, s), vm,
                    |CompileExpr(EnvOf(m), locals, pool, e).code|, temps, vm1, slots1)
    decreases e, 2
  {
    hide Sync, Stopped, Reaches, CodeAt, EvalBinary, EvalCall, CompileBinary, CompileCall, Lookup,
         GetVariable, SetVariable, AssignTo, Define, UnaryCode, FindConstant, AddConstant, Encode;
    var c := CompileExpr(EnvOf(m), locals, pool, e.operand);
    var r := EvalExpr(m.h, fuel, e.operand, s);
    CodeAtSplit(m.code, vm.ip, c.code, UnaryCode(e.op));
    var mid;
    mid, slots1 := SimExpr(m, locals, depth, pool, e.operand, fuel, s, vm, slots, temps);
    if r.status.Ok? {
      HeightAfter(m, locals, depth, s, vm, slots, temps, r.st, mid, slots1, temps + [r.value]);
      vm1 := SimUnaryOp(m, locals, depth, e.op, r, mid, slots1, temps);
      SimAfter(m, locals, depth, EvalExpr(m.h, fuel, e, s), vm, mid, |c.code|, |UnaryCode(e.op)|, temps, vm1, slots1);
    } else {
      vm1 := mid;
      SimFailed(m, locals, depth, r, EvalExpr(m.h, fuel, e, s), vm, |c.code|, |c.code| + |UnaryCode(e.op)|,
                temps, temps, vm1, slots1);
    }
  }

  lemma {:induction false} SimAssign(m: Image, locals: seq<Local>, depth: nat, pool: seq<Value>, e: Node, fuel: nat,
                                     s: State, vm: Vm, slots: seq<Value>, temps: seq<Value>)
    returns (vm1: Vm, slots1: seq<Value>)
    requires e.Assign? && WfExpr(e)
    requires Ready(m, locals, depth, CompileExpr(EnvOf(m), locals, pool, e), s, vm, slots, temps, Need(e))
    requires EvalExpr(m.h, fuel, e, s).st.clean
    ensures ExprSim(m, locals, depth, EvalExpr(m.h, fuel, e, s), vm,
                    |CompileExpr(EnvOf(m), locals, pool, e).code|, temps, vm1, slots1)
    decreases e, 2
  {
    hide Sync, Stopped, Reaches, CodeAt, EvalBinary, EvalCall, CompileBinary, CompileCall, Lookup,
         SetVariable, AssignTo, Define, FindConstant, AddConstant, Encode;
    var c := CompileExpr(EnvOf(m), locals, pool, e.expr);
    var store := SetVariable(m.h, locals, c.pool, e.name);
    VariablePool(EnvOf(m), locals, c.pool, e.name);
    var r := EvalExpr(m.h, fuel, e.expr, s);
    CodeAtSplit(m.code, vm.ip, c.code, store.code);
    var mid, slots0 := SimExpr(m, locals, depth, pool, e.expr, fuel, s, vm, slots, temps);
    if r.status.Ok? {
      vm1, slots1 := SimWrite(m, locals, depth, c.pool, e.name, r.value, r.st, mid, slots0, temps);
      SimAfter(m, locals, depth, EvalExpr(m.h, fuel, e, s), vm, mid, |c.code|, |store.code|, temps, vm1, slots1);
    } else {
      vm1, slots1 := mid, slots0;
      SimFailed(m, locals, depth, r, EvalExpr(m.h, fuel, e, s), vm, |c.code|, |c.code| + |store.code|,
                temps, temps, vm1, slots1);
    }
  }

  /** What the machine makes of && and ||: it leaves the operand that decided, whatever its type. */
  function LeftOver(h: Host, fuel: nat, e: Node, s: State): Result
    requires e.Binary?
  {
    var x := EvalExpr(h, fuel, e.left, s);
    if !x.status.Ok? || Truthy(h, x.value) == (e.op == OrOr) then x else EvalExpr(h, fuel, e.right, x.st)
  }

  /** The interpreter turns that operand into a boolean, so the two agree exactly on booleans. */
  lemma LogicAgreement(h: Host, fuel: nat, e: Node, s: State)
    requires e.Binary? && (e.op == AndAnd || e.op == OrOr)
    ensures var left := LeftOver(h, fuel, e, s); var all := EvalBinary(h, fuel, e, s);
      && all.status == left.status
      && all.st == (if left.status.Ok? then left.st.Check(left.value.Bool?) else left.st)
      && (left.status.Ok? ==> (all.value == left.value <==> left.value.Bool?))
  {
    hide EvalExpr;
  }

  lemma LogicAgrees(h: Host, fuel: nat, e: Node, s: State)
    requires e.Binary? && (e.op == AndAnd || e.op == OrOr) && EvalBinary(h, fuel, e, s).st.clean
    ensures EvalBinary(h, fuel, e, s) == LeftOver(h, fuel, e, s)
  {
    hide EvalExpr;
  }

  lemma {:induction false} SimLogic(m: Image, locals: seq<Local>, depth: nat, pool: seq<Value>, e: Node, fuel: nat,
                                    s: State, vm: Vm, slots: seq<Value>, temps: seq<Value>)
    returns (vm1: Vm, slots1: seq<Value>)
    requires e.Binary? && (e.op == AndAnd || e.op == OrOr) && WfExpr(e)
    requires Ready(m, locals, depth, CompileBinary(EnvOf(m), locals, pool, e), s, vm, slots, temps, Need(e))
    requires LeftOver(m.h, fuel, e, s).st.clean
    ensures ExprSim(m, locals, depth, LeftOver(m.h, fuel, e, s), vm,
                    |CompileBinary(EnvOf(m), locals, pool, e).code|, temps, vm1, slots1)
    decreases e, 2
  {
    hide Sync, Stopped, Reaches, CodeAt, EvalExpr, CompileBinary, CompileExpr, BinaryCode, Encode;
    var l, r := PlacedBinary(m, locals, pool, e, vm.ip);
    if e.op == AndAnd { AndLayout(m.code, vm.ip, l.code, r.code); } else { OrLayout(m.code, vm.ip, l.code, r.code); }
    var x := EvalExpr(m.h, fuel, e.left, s);
    ExprStaysClean(m.h, fuel, e.right, x.st);
    var mid, slots0 := SimExpr(m, locals, depth, pool, e.left, fuel, s, vm, slots, temps);
    var len := |BinaryCode(e.op, l.code, r.code)|;
    if !x.status.Ok? {
      vm1, slots1 := mid, slots0;
      SimFailed(m, locals, depth, x, x, vm, |l.code|, len, temps, temps, vm1, slots1);
    } else {
      TopOf(m, locals, depth, x.st, mid, slots0, temps, x.value);
      HeightAfter(m, locals, depth, s, vm, slots, temps, x.st, mid, slots0, temps + [x.value]);
      var at, decided := DecideLogic(m, e, l.code, r.code, vm.ip, mid);
      SyncAt(m, locals, depth, x.st, mid, slots0, temps + [x.value], at.ip);
      ReachesTrans(m, vm, mid, Running(at));
      if decided {
        vm1, slots1 := at, slots0;
      } else {
        vm1, slots1 := SimSecond(m, locals, depth, l.pool, e, fuel, x, vm, at, slots0, temps, len);
      }
    }
  }

  /** The jumps behind the left operand: behind the whole code if it decides, else to the pop before the right one. */
  lemma DecideLogic(m: Image, e: Node, lcode: seq<byte>, rcode: seq<byte>, ip: nat, mid: Vm) returns (at: Vm, decided: bool)
    requires e.Binary? && (e.op == AndAnd || e.op == OrOr) && CodeAt(m.code, ip, BinaryCode(e.op, lcode, rcode))
    requires 1 + |rcode| <= MAX_JUMP && mid.ip == ip + |lcode| && mid.stack != []
    ensures decided == (Truthy(m.h, Top(mid.stack)) == (e.op == OrOr))
    ensures Reaches(m, mid, Running(at)) && at == mid.(ip := at.ip)
    ensures decided ==> at.ip == ip + |BinaryCode(e.op, lcode, rcode)|
    ensures !decided ==> at.ip + 1 + |rcode| == ip + |BinaryCode(e.op, lcode, rcode)|
    ensures !decided ==> CodeAt(m.code, at.ip, Encode(Pop)) && CodeAt(m.code, at.ip + 1, rcode)
  {
    hide Reaches, CodeAt, BinaryCode, Encode, Truthy, Top;
    decided := Truthy(m.h, Top(mid.stack)) == (e.op == OrOr);
    if e.op == AndAnd {
      AndLayout(m.code, ip, lcode, rcode);
      DoJumpIfFalse(m, mid, 1 + |rcode|);
      at := mid.(ip := mid.ip + 3 + if decided then 1 + |rcode| else 0);
    } else {
      OrLayout(m.code, ip, lcode, rcode);
      DoJumpIfFalse(m, mid, 3);
      if decided {
        var at3 := mid.(ip := mid.ip + 3);
        DoJump(m, at3, 1 + |rcode|);
        at := mid.(ip := mid.ip + 7 + |rcode|);
        ReachesTrans(m, mid, at3, Running(at));
      } else {
        at := mid.(ip := mid.ip + 6);
      }
    }
  }

  /** The right operand of && or ||, once the left one has been popped. */
  lemma {:induction false} SimSecond(m: Image, locals: seq<Local>, depth: nat, pool: seq<Value>, e: Node, fuel: nat,
                                     x: Result, vm: Vm, at: Vm, slots: seq<Value>, temps: seq<Value>, len: nat)
    returns (vm1: Vm, slots1: seq<Value>)
    requires e.Binary? && WfExpr(e.right)
    requires Sync(m, locals, depth, x.st, at, slots, temps + [x.value]) && Reaches(m, vm, Running(at))
    requires CodeAt(m.code, at.ip, Encode(Pop))
    requires var r := CompileExpr(EnvOf(m), locals, pool, e.right);
      Placed(m, r, at.ip + 1) && at.ip + 1 + |r.code| == vm.ip + len
    requires |at.stack| - 1 + Need(e.right) <= MAX_STACK
    requires EvalExpr(m.h, fuel, e.right, x.st).st.clean
    ensures ExprSim(m, locals, depth, EvalExpr(m.h, fuel, e.right, x.st), vm, len, temps, vm1, slots1)
    decreases e, 1
  {
    hide Sync, Stopped, Reaches, CodeAt, EvalExpr, CompileExpr, Encode;
    var r := CompileExpr(EnvOf(m), locals, pool, e.right);
    var y := EvalExpr(m.h, fuel, e.right, x.st);
    TopOf(m, locals, depth, x.st, at, slots, temps, x.value);
    DoPop(m, at);
    var popped := PopSync(m, locals, depth, x.st, at, slots, temps, x.value, at.ip + 1);
    HeightAfter(m, locals, depth, x.st, at, slots, temps + [x.value], x.st, popped, slots, temps);
    ReachesTrans(m, vm, at, Running(popped));
    vm1, slots1 := SimExpr(m, locals, depth, pool, e.right, fuel, x.st, popped, slots, temps);
    ReachesTrans(m, vm, popped, if y.status.Ok? then Running(vm1) else Faulted(vm1));
  }

  /** Both operands, then the operator. */
  lemma {:induction false} SimBinary(m: Image, locals: seq<Local>, depth: nat, pool: seq<Value>, e: Node, fuel: nat,
                                     s: State, vm: Vm, slots: seq<Value>, temps: seq<Value>)
    returns (vm1: Vm, slots1: seq<Value>)
    requires e.Binary? && HasOpCode(e.op) && WfExpr(e)
    requires Ready(m, locals, depth, CompileBinary(EnvOf(m), locals, pool, e), s, vm, slots, temps, Need(e))
    requires EvalBinary(m.h, fuel, e, s).st.clean
    ensures ExprSim(m, locals, depth, EvalBinary(m.h, fuel, e, s), vm,
                    |CompileBinary(EnvOf(m), locals, pool, e).code|, temps, vm1, slots1)
    decreases e, 2
  {
    hide Sync, Stopped, Reaches, CodeAt, EvalExpr, CompileBinary, CompileExpr, BinaryCode, Encode, EnginesAgree,
         InterpBinary;
    var l, r := PlacedBinary(m, locals, pool, e, vm.ip);
    OperatorLayout(m.code, vm.ip, e.op, l.code, r.code);
    var x := EvalExpr(m.h, fuel, e.left, s);
    var y := EvalExpr(m.h, fuel, e.right, x.st);
    var all := EvalBinary(m.h, fuel, e, s);
    ExprStaysClean(m.h, fuel, e.right, x.st);
    var len := |BinaryCode(e.op, l.code, r.code)|;
    var mid, slots0 := SimExpr(m, locals, depth, pool, e.left, fuel, s, vm, slots, temps);
    if !x.status.Ok? {
      vm1, slots1 := mid, slots0;
      SimFailed(m, locals, depth, x, all, vm, |l.code|, len, temps, temps, vm1, slots1);
    } else {
      HeightAfter(m, locals, depth, s, vm, slots, temps, x.st, mid, slots0, temps + [x.value]);
      var two, slots2 := SimExpr(m, locals, depth, l.pool, e.right, fuel, x.st, mid, slots0, temps + [x.value]);
      if !y.status.Ok? {
        vm1, slots1 := two, slots2;
        SimFailed(m, locals, depth, y, all, mid, |r.code|, |r.code| + 1, temps + [x.value], temps, vm1, slots1);
        SimAfter(m, locals, depth, all, vm, mid, |l.code|, |r.code| + 1, temps, vm1, slots1);
      } else {
        HeightAfter(m, locals, depth, x.st, mid, slots0, temps + [x.value],
                    y.st, two, slots2, temps + [x.value] + [y.value]);
        slots1 := slots2;
        vm1 := SimOperator(m, locals, depth, e.op, x.value, y.value, y.st, two, slots2, temps);
        ReachesTrans(m, mid, two, Running(vm1));
        ReachesTrans(m, vm, mid, Running(vm1));
      }
    }
  }

  lemma SimOperator(m: Image, locals: seq<Local>, depth: nat, op: Op, a: Value, b: Value, s: State, vm: Vm,
                    slots: seq<Value>, temps: seq<Value>) returns (vm1: Vm)
    requires HasOpCode(op) && CodeAt(m.code, vm.ip, Encode(BinaryOp(op)))
    requires Sync(m, locals, depth, s, vm, slots, temps + [a] + [b]) && |vm.stack| <= MAX_STACK
    requires EnginesAgree(m.h, op, a, b)
    ensures Reaches(m, vm, Running(vm1)) && vm1.ip == vm.ip + 1
    ensures Sync(m, locals, depth, s.Check(EnginesAgree(m.h, op, a, b)), vm1, slots,
                 temps + [InterpBinary(m.h, op, a, b)])
  {
    hide Sync, Reaches, CodeAt, Encode, EnginesAgree, InterpBinary, VmBinary;
    var v := InterpBinary(m.h, op, a, b);
    DoBinary(m, vm, op);
    OperatorsAgree(m.h, op, a, b);
    TopOf(m, locals, depth, s, vm, slots, temps + [a], b);
    var one := PopSync(m, locals, depth, s, vm, slots, temps + [a], b, vm.ip);
    TopOf(m, locals, depth, s, one, slots, temps, a);
    vm1 := ReplaceTop(m, locals, depth, s, one, slots, temps, a, vm.ip + 1, v);
    SyncCheck(m, locals, depth, s, vm1, slots, temps + [v], EnginesAgree(m.h, op, a, b));
  }

  lemma OperatorsAgree(h: Host, op: Op, a: Value, b: Value)
    requires EnginesAgree(h, op, a, b)
    ensures VmBinary(h, op, a, b) == Some(InterpBinary(h, op, a, b))
  {
  }

  /** The arguments end up on the stack in order. */
  ghost predicate ArgsSim(m: Image, locals: seq<Local>, depth: nat, r: ArgsResult, vm: Vm, len: nat,
                          temps: seq<Value>, vm1: Vm, slots1: seq<Value>) {
    if r.status.Ok? then
      && Reaches(m, vm, Running(vm1))
      && vm1.ip == vm.ip + len
      && Sync(m, locals, depth, r.st, vm1, slots1, temps + r.values)
    else
      r.status.Error? && Reaches(m, vm, Faulted(vm1)) && Stopped(depth, r.st, vm1)
  }

  lemma {:induction false} SimArgs(m: Image, locals: seq<Local>, depth: nat, pool: seq<Value>, args: seq<Node>, fuel: nat,
                                   s: State, vm: Vm, slots: seq<Value>, temps: seq<Value>)
    returns (vm1: Vm, slots1: seq<Value>)
    requires WfArgs(args)
    requires Ready(m, locals, depth, CompileArgs(EnvOf(m), locals, pool, args), s, vm, slots, temps, NeedArgs(args))
    requires EvalArgs(m.h, fuel, args, s).st.clean
    ensures ArgsSim(m, locals, depth, EvalArgs(m.h, fuel, args, s), vm,
                    |CompileArgs(EnvOf(m), locals, pool, args).code|, temps, vm1, slots1)
    decreases args, 1
  {
    hide Sync, Stopped, Reaches, CodeAt, EvalExpr, CompileExpr;
    if args == [] {
      vm1, slots1 := vm, slots;
      ReachesRefl(m, vm);
      assert temps + [] == temps;
    } else {
      var c := CompileExpr(EnvOf(m), locals, pool, args[0]);
      var d := CompileArgs(EnvOf(m), locals, c.pool, args[1..]);
      ArgsPool(EnvOf(m), locals, c.pool, args[1..]);
      CodeAtSplit(m.code, vm.ip, c.code, d.code);
      var x := EvalExpr(m.h, fuel, args[0], s);
      ArgsStayClean(m.h, fuel, args[1..], x.st);
      var mid, slots0 := SimExpr(m, locals, depth, pool, args[0], fuel, s, vm, slots, temps);
      if !x.status.Ok? {
        vm1, slots1 := mid, slots0;
      } else {
        var rest := EvalArgs(m.h, fuel, args[1..], x.st);
        HeightAfter(m, locals, depth, s, vm, slots, temps, x.st, mid, slots0, temps + [x.value]);
        vm1, slots1 := SimArgs(m, locals, depth, c.pool, args[1..], fuel, x.st, mid, slots0, temps + [x.value]);
        ReachesTrans(m, vm, mid, if rest.status.Ok? then Running(vm1) else Faulted(vm1));
        assert temps + [x.value] + rest.values == temps + ([x.value] + rest.values);
      }
    }
  }

  /** A native command: its arguments, then the call. */
  lemma SimInvoke(m: Image, locals: seq<Local>, depth: nat, pool: seq<Value>, name: string, argc: nat, a: ArgsResult,
                  vm: Vm, slots: seq<Value>, temps: seq<Value>) returns (vm1: Vm)
    requires Placed(m, Invoke(m.h, pool, name, argc), vm.ip)
    requires a.status.Ok? && |a.values| == argc
    requires Sync(m, locals, depth, a.st, vm, slots, temps + a.values)
    requires name in m.cmds && m.cmds[name].Native?
    requires |vm.stack| + 1 <= MAX_STACK + argc
    ensures Reaches(m, vm, Running(vm1)) && vm1.ip == vm.ip + |Invoke(m.h, pool, name, argc).code|
    ensures var n := m.h.natives(name, a.values);
      Sync(m, locals, depth, a.st.Emit(n.1), vm1, slots, temps + [n.0])
  {
    var k := PoolByte(m.h, pool, Str(name));
    ConstantAt(m, pool, Str(name));
    hide Reaches, CodeAt, Agree, GlobalsAgree, AddConstant, FindConstant;
    var below := slots + temps;
    assert vm.stack == below + a.values;
    DoNativeCommand(m, vm, k, below, a.values);
    var n := m.h.natives(name, a.values);
    vm1 := vm.(ip := vm.ip + 3, stack := Push(below, n.0), out := vm.out + n.1);
    assert vm1.stack == slots + (temps + [n.0]);
  }

  /** A clean call is one of a native command. */
  lemma CallResult(h: Host, fuel: nat, e: Node, s: State)
    requires e.Call? && EvalCall(h, fuel, e, s).st.clean
    ensures e.name in s.cmds
    ensures var a := EvalArgs(h, fuel, e.args, s);
      && a.st.clean
      && (a.status.Ok? ==> s.cmds[e.name].Native?)
      && EvalCall(h, fuel, e, s) ==
           if a.status.Ok? then Result(Ok, h.natives(e.name, a.values).0, a.st.Emit(h.natives(e.name, a.values).1))
           else Result(a.status, Null, a.st)
  {
    CleanCall(h, fuel, e, s);
    hide EvalArgs, CallBody;
  }

  lemma CallNeeds(e: Node)
    requires e.Call? && WfExpr(e)
    ensures WfArgs(e.args) && NeedArgs(e.args) <= Need(e) && 1 <= Need(e)
  {
  }

  lemma {:induction false} SimCall(m: Image, locals: seq<Local>, depth: nat, pool: seq<Value>, e: Node, fuel: nat,
                                   s: State, vm: Vm, slots: seq<Value>, temps: seq<Value>)
    returns (vm1: Vm, slots1: seq<Value>)
    requires e.Call? && WfExpr(e)
    requires Ready(m, locals, depth, CompileCall(EnvOf(m), locals, pool, e), s, vm, slots, temps, Need(e))
    requires EvalCall(m.h, fuel, e, s).st.clean
    ensures ExprSim(m, locals, depth, EvalCall(m.h, fuel, e, s), vm,
                    |CompileCall(EnvOf(m), locals, pool, e).code|, temps, vm1, slots1)
    decreases e, 2
  {
    hide Sync, Stopped, Reaches, CodeAt, EvalArgs, EvalCall, CompileArgs, CompileCall, Invoke, WfExpr, WfArgs, Need, NeedArgs;
    CallResult(m.h, fuel, e, s);
    CmdsOf(m, locals, depth, s, vm, slots, temps);
    CallNeeds(e);
    PlacedArgs(m, locals, pool, e, vm.ip);
    var c := CompileArgs(EnvOf(m), locals, pool, e.args);
    var a := EvalArgs(m.h, fuel, e.args, s);
    vm1, slots1 := SimArgs(m, locals, depth, pool, e.args, fuel, s, vm, slots, temps);
    if a.status.Ok? {
      PlacedCommand(m, locals, pool, e, vm.ip);
      vm1 := InvokeAfter(m, locals, depth, c.pool, e.name, |e.args|, s, vm, slots, temps, a, vm1, slots1);
    }
  }

  /** The call behind its evaluated arguments. */
  lemma InvokeAfter(m: Image, locals: seq<Local>, depth: nat, pool: seq<Value>, name: string, argc: nat,
                    s: State, vm: Vm, slots: seq<Value>, temps: seq<Value>, a: ArgsResult, mid: Vm, slots0: seq<Value>)
    returns (vm1: Vm)
    requires Sync(m, locals, depth, s, vm, slots, temps) && |vm.stack| + 1 <= MAX_STACK
    requires Reaches(m, vm, Running(mid)) && Sync(m, locals, depth, a.st, mid, slots0, temps + a.values)
    requires a.status.Ok? && |a.values| == argc && name in m.cmds && m.cmds[name].Native?
    requires Placed(m, Invoke(m.h, pool, name, argc), mid.ip)
    ensures Reaches(m, vm, Running(vm1)) && vm1.ip == mid.ip + |Invoke(m.h, pool, name, argc).code|
    ensures var n := m.h.natives(name, a.values);
      Sync(m, locals, depth, a.st.Emit(n.1), vm1, slots0, temps + [n.0])
  {
    hide Sync, Reaches, CodeAt, Invoke;
    HeightAfter(m, locals, depth, s, vm, slots, temps, a.st, mid, slots0, temps + a.values);
    vm1 := SimInvoke(m, locals, depth, pool, name, argc, a, mid, slots0, temps);
    ReachesTrans(m, vm, mid, Running(vm1));
  }

  lemma PlacedCommand(m: Image, locals: seq<Local>, pool: seq<Value>, e: Node, ip: nat)
    requires e.Call? && e.name in m.cmds && m.cmds[e.name].Native?
    requires Placed(m, CompileCall(EnvOf(m), locals, pool, e), ip)
    ensures var c := CompileArgs(EnvOf(m), locals, pool, e.args);
      var call := Invoke(m.h, c.pool, e.name, |e.args|);
      && Placed(m, call, ip + |c.code|)
      && |CompileCall(EnvOf(m), locals, pool, e).code| == |c.code| + |call.code|
  {
    hide CodeAt, CompileArgs, Invoke;
    var c := CompileArgs(EnvOf(m), locals, pool, e.args);
    InvokePool(m.h, c.pool, e.name, |e.args|);
    CodeAtSplit(m.code, ip, c.code, Invoke(m.h, c.pool, e.name, |e.args|).code);
  }

  lemma CmdsOf(m: Image, locals: seq<Local>, depth: nat, s: State, vm: Vm, slots: seq<Value>, temps: seq<Value>)
    requires Sync(m, locals, depth, s, vm, slots, temps)
    ensures s.cmds == m.cmds
  {
  }

  lemma InvokePool(h: Host, pool: seq<Value>, name: string, argc: nat)
    ensures Invoke(h, pool, name, argc).Emitted? && pool <= Invoke(h, pool, name, argc).pool
  {
    AddConstantGrows(h, pool, Str(name));
  }

  /** The arguments stand first in the code of a call. */
  lemma PlacedArgs(m: Image, locals: seq<Local>, pool: seq<Value>, e: Node, ip: nat)
    requires e.Call? && Placed(m, CompileCall(EnvOf(m), locals, pool, e), ip)
    ensures Placed(m, CompileArgs(EnvOf(m), locals, pool, e.args), ip)
  {
    hide CodeAt, CompileArgs, Invoke, GetVariable;
    var c := CompileArgs(EnvOf(m), locals, pool, e.args);
    if e.name in m.cmds && m.cmds[e.name].Native? {
      InvokePool(m.h, c.pool, e.name, |e.args|);
      CodeAtSplit(m.code, ip, c.code, Invoke(m.h, c.pool, e.name, |e.args|).code);
    } else {
      VariablePool(EnvOf(m), locals, c.pool, e.name);
      var get := GetVariable(m.h, locals, c.pool, e.name);
      CodeAtSplit(m.code, ip, c.code, get.code + Encode(CallValue(|e.args| % 256)));
    }
  }
}
