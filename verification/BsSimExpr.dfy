/** Compiled expressions simulate the interpreter: wherever the code stands and whatever lies
    below on the stack. */
module BsSimExpr {
  import opened BsAst
  import opened BsValue
  import opened BsScopes
  import opened BsInterpreter
  import opened BsScopeDiscipline
  import opened BsBytecode
  import opened BsVm
  import opened BsCodegen
  import opened BsSlots
  import opened BsWellFormed

  /** The same global names and values; the machine forgets that a global is const, never invents it. */
  ghost predicate GlobalsAgree(interp: Scope, machine: Scope) {
    && interp.Keys == machine.Keys
    && forall x :: x in interp ==>
         && machine[x].value == interp[x].value
         && (machine[x].isConst ==> interp[x].isConst)
  }

  function EnvOf(m: Image): Env { Env(m.h, m.cmds) }

  /** The two engines side by side: slots for the locals, temporaries above them. */
  ghost predicate Sync(m: Image, locals: seq<Local>, depth: nat, s: State, vm: Vm, slots: seq<Value>, temps: seq<Value>) {
    && vm.stack == slots + temps
    && Agree(locals, depth, slots, s.scopes)
    && GlobalsAgree(s.scopes[depth], vm.globals)
    && vm.out == s.out
    && s.cmds == m.cmds
  }

  /** What a run-time error leaves behind. */
  ghost predicate Stopped(depth: nat, s: State, vm: Vm) {
    |s.scopes| == depth + 1 && GlobalsAgree(s.scopes[depth], vm.globals) && vm.out == s.out
  }

  /** The code r was emitted for stands at ip, and the final pool extends r's. */
  ghost predicate Placed(m: Image, r: Emitted, ip: nat) {
    r.Emitted? && r.exact && r.pool <= m.consts && CodeAt(m.code, ip, r.code)
  }

  /** An evaluation that ends normally leaves its value on the stack and the machine behind the code;
      one that fails makes the machine fault with the same output and globals. */
  ghost predicate ExprSim(m: Image, locals: seq<Local>, depth: nat, r: Result, vm: Vm, len: nat,
                          temps: seq<Value>, vm1: Vm, slots1: seq<Value>) {
    if r.status.Ok? then
      && Reaches(m, vm, Running(vm1))
      && vm1.ip == vm.ip + len
      && Sync(m, locals, depth, r.st, vm1, slots1, temps + [r.value])
    else
      r.status.Error? && Reaches(m, vm, Faulted(vm1)) && Stopped(depth, r.st, vm1)
  }

  lemma EqualIsSame(h: Host, a: Value, b: Value)
    requires ValuesEqual(h, a, b) && (b.Int? || b.Str?)
    ensures a == b
  {
  }

  /** An operand byte denotes the value it was emitted for. */
  lemma ConstantAt(m: Image, pool: seq<Value>, v: Value)
    requires FindConstant(m.h, pool, v) < MAX_CONSTANTS
    requires AddConstant(m.h, pool, v) <= m.consts
    requires v.Int? || v.Str?
    ensures PoolByte(m.h, pool, v) < |m.consts| && m.consts[PoolByte(m.h, pool, v)] == v
  {
    hide FindConstant, ValuesEqual;
    var k := FindConstant(m.h, pool, v);
    assert AddConstant(m.h, pool, v)[k] == m.consts[k];
    if k < |pool| { EqualIsSame(m.h, pool[k], v); }
  }

  lemma PushSync(m: Image, locals: seq<Local>, depth: nat, s: State, vm: Vm, slots: seq<Value>, temps: seq<Value>,
                 ip: nat, v: Value) returns (vm1: Vm)
    requires Sync(m, locals, depth, s, vm, slots, temps)
    requires |vm.stack| < MAX_STACK
    ensures vm1 == vm.(ip := ip, stack := Push(vm.stack, v))
    ensures Sync(m, locals, depth, s, vm1, slots, temps + [v])
  {
    hide Agree, GlobalsAgree;
    vm1 := vm.(ip := ip, stack := Push(vm.stack, v));
    assert vm1.stack == slots + (temps + [v]);
  }

  lemma SimLiteral(m: Image, locals: seq<Local>, depth: nat, pool: seq<Value>, e: Node, fuel: nat, s: State,
                   vm: Vm, slots: seq<Value>, temps: seq<Value>) returns (vm1: Vm)
    requires e.Literal? && Placed(m, CompileExpr(EnvOf(m), locals, pool, e), vm.ip)
    requires Sync(m, locals, depth, s, vm, slots, temps) && |vm.stack| < MAX_STACK
    requires EvalExpr(m.h, fuel, e, s).st.clean
    ensures ExprSim(m, locals, depth, EvalExpr(m.h, fuel, e, s), vm,
                    |CompileExpr(EnvOf(m), locals, pool, e).code|, temps, vm1, slots)
  {
    hide Agree, GlobalsAgree, Reaches, Step, CodeAt;
    var v := e.lit;
    var code := CompileExpr(EnvOf(m), locals, pool, e).code;
    var i := if v.Null? then PushNull else if v.Bool? then (if v.b then PushTrue else PushFalse)
             else Constant(PoolByte(m.h, pool, v));
    assert code == Encode(i);
    if !v.Null? && !v.Bool? { ConstantAt(m, pool, v); }
    ReachesStep(m, vm, i);
    vm1 := PushSync(m, locals, depth, s, vm, slots, temps, vm.ip + |code|, v);
    assert Sync(m, locals, depth, EvalExpr(m.h, fuel, e, s).st, vm1, slots, temps + [v]);
  }

  /** Where the value of a name is found on the machine's side. */
  lemma ReadSync(m: Image, locals: seq<Local>, depth: nat, x: string, s: State, vm: Vm, slots: seq<Value>, temps: seq<Value>)
    requires Sync(m, locals, depth, s, vm, slots, temps)
    ensures var i := Resolve(locals, x);
      var b := Lookup(s.scopes, x);
      if i >= 0 then i < |vm.stack| && b.Some? && b.value.value == vm.stack[i]
      else if x in vm.globals then b.Some? && b.value.value == vm.globals[x].value
      else b.None?
  {
    ResolveAgrees(locals, depth, slots, s.scopes, x);
  }

  /** Reading a variable: a slot when the name is a local, the global of that name otherwise. */
  lemma SimRead(m: Image, locals: seq<Local>, depth: nat, pool: seq<Value>, x: string, s: State,
                vm: Vm, slots: seq<Value>, temps: seq<Value>) returns (vm1: Vm)
    requires Placed(m, GetVariable(m.h, locals, pool, x), vm.ip)
    requires Sync(m, locals, depth, s, vm, slots, temps) && |vm.stack| < MAX_STACK
    ensures var b := Lookup(s.scopes, x);
      ExprSim(m, locals, depth, if b.Some? then Result(Ok, b.value.value, s) else Fail(s), vm,
              |GetVariable(m.h, locals, pool, x).code|, temps, vm1, slots)
  {
    hide Reaches, CodeAt, Sync, Stopped, Lookup, Push, AddConstant;
    ReadSync(m, locals, depth, x, s, vm, slots, temps);
    var i := Resolve(locals, x);
    var b := Lookup(s.scopes, x);
    if i >= 0 {
      DoGetLocal(m, vm, i);
      vm1 := PushSync(m, locals, depth, s, vm, slots, temps, vm.ip + 2, vm.stack[i]);
    } else {
      ConstantAt(m, pool, Str(x));
      DoGetGlobal(m, vm, PoolByte(m.h, pool, Str(x)));
      if b.Some? {
        vm1 := PushSync(m, locals, depth, s, vm, slots, temps, vm.ip + 2, b.value.value);
      } else {
        vm1 := vm.(ip := vm.ip + 2);
        StopOf(m, locals, depth, s, vm, slots, temps, vm1);
      }
    }
  }

  /** What an assignment does on both sides. */
  lemma WriteSync(m: Image, locals: seq<Local>, depth: nat, x: string, v: Value, s: State, vm: Vm,
                  slots: seq<Value>, temps: seq<Value>, ip: nat) returns (vm1: Vm, slots1: seq<Value>)
    requires Sync(m, locals, depth, s, vm, slots, temps + [v])
    requires AssignTo(s.scopes, x, v).Some?
    ensures var i := Resolve(locals, x);
      && (i >= 0 ==> i + 1 < |vm.stack| && vm1 == vm.(ip := ip, stack := vm.stack[i := v]))
      && (i < 0 ==> vm1 == vm.(ip := ip, globals := SetGlobalTo(vm.globals, x, v)))
    ensures Sync(m, locals, depth, s.(scopes := AssignTo(s.scopes, x, v).value), vm1, slots1, temps + [v])
  {
    hide AssignTo;
    AssignAgrees(locals, depth, slots, s.scopes, x, v);
    assert |slots| == |locals|;
    hide Agree;
    var i := Resolve(locals, x);
    if i >= 0 {
      slots1 := slots[i := v];
      vm1 := vm.(ip := ip, stack := vm.stack[i := v]);
      assert vm1.stack == slots1 + (temps + [v]);
    } else {
      slots1 := slots;
      vm1 := vm.(ip := ip, globals := SetGlobalTo(vm.globals, x, v));
    }
  }

  /** Assigning to an existing binding that is not a constant. */
  lemma SimWrite(m: Image, locals: seq<Local>, depth: nat, pool: seq<Value>, x: string, v: Value, s: State,
                 vm: Vm, slots: seq<Value>, temps: seq<Value>) returns (vm1: Vm, slots1: seq<Value>)
    requires Placed(m, SetVariable(m.h, locals, pool, x), vm.ip)
    requires Sync(m, locals, depth, s, vm, slots, temps + [v])
    requires AssignTo(s.scopes, x, v).Some?
    ensures ExprSim(m, locals, depth, Result(Ok, v, s.(scopes := AssignTo(s.scopes, x, v).value)), vm,
                    |SetVariable(m.h, locals, pool, x).code|, temps, vm1, slots1)
  {
    hide Reaches, CodeAt, Sync, AssignTo, Top, AddConstant, SetGlobalTo;
    TopOf(m, locals, depth, s, vm, slots, temps, v);
    vm1, slots1 := WriteSync(m, locals, depth, x, v, s, vm, slots, temps, vm.ip + 2);
    if Resolve(locals, x) >= 0 {
      DoSetLocal(m, vm, Resolve(locals, x));
    } else {
      ConstantAt(m, pool, Str(x));
      DoSetGlobal(m, vm, PoolByte(m.h, pool, Str(x)));
    }
  }

  /** The top of the stack gives way to w. */
  lemma ReplaceTop(m: Image, locals: seq<Local>, depth: nat, s: State, vm: Vm, slots: seq<Value>, temps: seq<Value>,
                   v: Value, ip: nat, w: Value) returns (vm1: Vm)
    requires Sync(m, locals, depth, s, vm, slots, temps + [v]) && |vm.stack| <= MAX_STACK
    ensures vm1 == vm.(ip := ip, stack := Push(Rest(vm.stack), w))
    ensures Sync(m, locals, depth, s, vm1, slots, temps + [w])
  {
    hide Agree, GlobalsAgree;
    vm1 := vm.(ip := ip, stack := Push(Rest(vm.stack), w));
    assert Rest(vm.stack) == slots + temps;
    assert vm1.stack == slots + (temps + [w]);
  }

  lemma TopOf(m: Image, locals: seq<Local>, depth: nat, s: State, vm: Vm, slots: seq<Value>, temps: seq<Value>, v: Value)
    requires Sync(m, locals, depth, s, vm, slots, temps + [v])
    ensures vm.stack != [] && Top(vm.stack) == v && Rest(vm.stack) == slots + temps
  {
    hide Agree, GlobalsAgree;
    assert vm.stack == (slots + temps) + [v];
  }

  /** A fault leaves output and globals as they were. */
  lemma StopOf(m: Image, locals: seq<Local>, depth: nat, s: State, vm: Vm, slots: seq<Value>, temps: seq<Value>, vm1: Vm)
    requires Sync(m, locals, depth, s, vm, slots, temps)
    requires vm1.globals == vm.globals && vm1.out == vm.out
    ensures Stopped(depth, s, vm1)
  {
    hide GlobalsAgree;
  }

  lemma SimUnaryOp(m: Image, locals: seq<Local>, depth: nat, op: Op, r: Result, vm: Vm, slots: seq<Value>,
                   temps: seq<Value>) returns (vm1: Vm)
    requires CodeAt(m.code, vm.ip, UnaryCode(op))
    requires r.status.Ok? && Sync(m, locals, depth, r.st, vm, slots, temps + [r.value]) && |vm.stack| <= MAX_STACK
    ensures ExprSim(m, locals, depth, EvalUnary(m.h, op, r), vm, |UnaryCode(op)|, temps, vm1, slots)
  {
    hide Reaches, Sync, Stopped, Truthy, CodeAt, Top, Rest, Push;
    var v := r.value;
    TopOf(m, locals, depth, r.st, vm, slots, temps, v);
    if op == Bang {
      DoNot(m, vm);
      vm1 := ReplaceTop(m, locals, depth, r.st, vm, slots, temps, v, vm.ip + 1, Bool(!Truthy(m.h, v)));
    } else if op == Minus {
      DoNegate(m, vm);
      if IsNumber(v) {
        var w := if v.Int? then Int(-v.i) else Float(m.h.floatNeg(v.f));
        vm1 := ReplaceTop(m, locals, depth, r.st, vm, slots, temps, v, vm.ip + 1, w);
      } else {
        vm1 := vm.(ip := vm.ip + 1, stack := Rest(vm.stack));
        StopOf(m, locals, depth, r.st, vm, slots, temps + [v], vm1);
      }
    } else {
      ReachesRefl(m, vm);
      vm1 := vm;
    }
  }

  // ----- Moving along the code -----

  lemma SyncAt(m: Image, locals: seq<Local>, depth: nat, s: State, vm: Vm, slots: seq<Value>, temps: seq<Value>, ip: nat)
    requires Sync(m, locals, depth, s, vm, slots, temps)
    ensures Sync(m, locals, depth, s, vm.(ip := ip), slots, temps)
  {
  }

  lemma PopSync(m: Image, locals: seq<Local>, depth: nat, s: State, vm: Vm, slots: seq<Value>, temps: seq<Value>,
                v: Value, ip: nat) returns (vm1: Vm)
    requires Sync(m, locals, depth, s, vm, slots, temps + [v])
    ensures vm1 == vm.(ip := ip, stack := Rest(vm.stack))
    ensures Sync(m, locals, depth, s, vm1, slots, temps)
  {
    hide Agree, GlobalsAgree;
    TopOf(m, locals, depth, s, vm, slots, temps, v);
    vm1 := vm.(ip := ip, stack := Rest(vm.stack));
  }

  /** The flag of bookkeeping is not part of what the machine sees. */
  lemma SyncCheck(m: Image, locals: seq<Local>, depth: nat, s: State, vm: Vm, slots: seq<Value>, temps: seq<Value>, c: bool)
    requires Sync(m, locals, depth, s, vm, slots, temps)
    ensures Sync(m, locals, depth, s.Check(c), vm, slots, temps)
  {
  }

  lemma SyncHeight(m: Image, locals: seq<Local>, depth: nat, s: State, vm: Vm, slots: seq<Value>, temps: seq<Value>)
    requires Sync(m, locals, depth, s, vm, slots, temps)
    ensures |vm.stack| == |locals| + |temps|
  {
  }

  /** A run that goes on from where another has come. */
  lemma SimAfter(m: Image, locals: seq<Local>, depth: nat, r: Result, vm: Vm, mid: Vm, len0: nat, len1: nat,
                 temps: seq<Value>, vm1: Vm, slots1: seq<Value>)
    requires Reaches(m, vm, Running(mid)) && mid.ip == vm.ip + len0
    requires ExprSim(m, locals, depth, r, mid, len1, temps, vm1, slots1)
    ensures ExprSim(m, locals, depth, r, vm, len0 + len1, temps, vm1, slots1)
  {
    hide Reaches, Sync, Stopped;
    ReachesTrans(m, vm, mid, if r.status.Ok? then Running(vm1) else Faulted(vm1));
  }

  /** An operand that fails ends the whole expression the same way. */
  lemma SimFailed(m: Image, locals: seq<Local>, depth: nat, r: Result, r1: Result, vm: Vm, len: nat, len1: nat,
                  temps: seq<Value>, temps1: seq<Value>, vm1: Vm, slots1: seq<Value>)
    requires ExprSim(m, locals, depth, r, vm, len, temps, vm1, slots1) && !r.status.Ok?
    requires r1.status == r.status && r1.st == r.st
    ensures ExprSim(m, locals, depth, r1, vm, len1, temps1, vm1, slots1)
  {
    hide Reaches, Sync, Stopped;
  }

  // ----- Where the parts of an expression stand -----

  lemma PlacedBinary(m: Image, locals: seq<Local>, pool: seq<Value>, e: Node, ip: nat) returns (l: Emitted, r: Emitted)
    requires e.Binary? && Placed(m, CompileBinary(EnvOf(m), locals, pool, e), ip)
    ensures l == CompileExpr(EnvOf(m), locals, pool, e.left) && l.Emitted? && l.exact && l.pool <= m.consts
    ensures r == CompileExpr(EnvOf(m), locals, l.pool, e.right) && r.Emitted? && r.exact && r.pool <= m.consts
    ensures CompileBinary(EnvOf(m), locals, pool, e).code == BinaryCode(e.op, l.code, r.code)
    ensures CodeAt(m.code, ip, BinaryCode(e.op, l.code, r.code))
    ensures e.op == AndAnd || e.op == OrOr ==> 1 + |r.code| <= MAX_JUMP
  {
    hide CompileExpr, CodeAt, BinaryCode;
    l := CompileExpr(EnvOf(m), locals, pool, e.left);
    r := CompileExpr(EnvOf(m), locals, l.pool, e.right);
    ExprPool(EnvOf(m), locals, l.pool, e.right);
  }
}
