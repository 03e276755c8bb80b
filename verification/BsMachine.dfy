/** The virtual machine in its own form (bs_vm.c): a fixed stack with a stack pointer, an
    instruction pointer into the chunk, and the global environment of the runtime, all updated
    in place.  Every turn of its loop is one Step, as long as that step is not Unsafe. */
module BsMachine {
  import opened BsAst
  import opened BsValue
  import opened BsScopes
  import opened BsRuntime
  import opened BsBytecode
  import opened BsVm

  datatype Progress = Going | Stopped | RuntimeError

  /** The outcome of a turn that left the machine in state vm. */
  function OutcomeOf(p: Progress, vm: Vm): Outcome {
    match p
    case Going => Running(vm)
    case Stopped => Halted(vm)
    case RuntimeError => Faulted(vm)
  }

  class Machine {
    const m: Image
    const runtime: Runtime
    const stack: array<Value>
    var top: nat
    var ip: nat

    ghost predicate Valid()
      reads this, runtime, stack
    {
      && stack.Length == MAX_STACK && top <= MAX_STACK
      && |runtime.envs| == 1 && runtime.h == m.h && runtime.cmds == m.cmds
    }

    ghost function Now(): Vm
      requires Valid()
      reads this, runtime, stack
    {
      Vm(ip, stack[..top], ScopeOf(runtime.envs[0]), runtime.out)
    }

    /** bs_vm_init and the start of bs_vm_run */
    constructor (m: Image, runtime: Runtime)
      requires |runtime.envs| == 1 && runtime.h == m.h && runtime.cmds == m.cmds
      ensures Valid() && fresh(stack) && this.m == m && this.runtime == runtime
      ensures Now() == Vm(0, [], ScopeOf(runtime.envs[0]), runtime.out)
    {
      this.m := m;
      this.runtime := runtime;
      stack := new Value[MAX_STACK](_ => Null);
      top, ip := 0, 0;
    }

    /** bs_vm_push */
    method Push(v: Value)
      requires Valid()
      modifies this, stack
      ensures Valid() && Now() == old(Now()).(stack := BsVm.Push(old(Now()).stack, v))
    {
      if top < MAX_STACK {
        stack[top] := v;
        top := top + 1;
        assert stack[..top] == old(stack[..top]) + [v];
      }
    }

    /** bs_vm_pop */
    method Pop() returns (v: Value)
      requires Valid()
      modifies this
      ensures Valid() && v == Top(old(Now()).stack) && Now() == old(Now()).(stack := Rest(old(Now()).stack))
    {
      v := Null;
      if top > 0 {
        top := top - 1;
        v := stack[top];
        assert stack[..top] == old(stack[..top])[..top];
      }
    }

    method ReadByte() returns (b: byte)
      requires Valid() && ip < |m.code|
      modifies this
      ensures Valid() && b == m.code[old(ip)] && Now() == old(Now()).(ip := old(ip) + 1)
    {
      b := m.code[ip];
      ip := ip + 1;
    }

    method ReadShort() returns (d: short)
      requires Valid() && ip + 1 < |m.code|
      modifies this
      ensures Valid() && Now() == old(Now()).(ip := old(ip) + 2)
      ensures var high: int := m.code[old(ip)]; d == 256 * high + m.code[old(ip) + 1]
    {
      ip := ip + 2;
      var high: int := m.code[ip - 2];
      d := 256 * high + m.code[ip - 1];
    }

    /** The machine has read opcode b of a step, starting from "before", that is not Unsafe. */
    ghost predicate Inside(before: Vm, b: byte)
      reads this, runtime, stack
    {
      && Valid() && !Step(m, before).Unsafe?
      && before.ip < |m.code| && m.code[before.ip] == b
      && Now() == before.(ip := before.ip + 1)
    }

    /** One turn of the loop. */
    method Turn() returns (p: Progress)
      requires Valid() && !Step(m, Now()).Unsafe?
      modifies this, stack, runtime
      ensures Valid() && OutcomeOf(p, Now()) == Step(m, old(Now()))
    {
      ghost var before := Now();
      InsideCode(m, before);
      var b := ReadByte();
      hide Step;
      if b <= 5 { p := Constants(b, before); }
      else if b <= 10 || 13 <= b <= 18 { p := Arithmetic(b, before); }
      else if b <= 12 { p := Unary(b, before); }
      else if b <= 21 { p := Globals(b, before); }
      else if b <= 23 { p := Locals(b, before); }
      else if b <= 26 { p := Jumps(b, before); }
      else if b <= 28 { p := Calls(b, before); }
      else { p := Prints(b, before); }
    }

    method Constants(b: byte, ghost before: Vm) returns (p: Progress)
      requires b <= 5 && Inside(before, b)
      modifies this, stack
      ensures Valid() && OutcomeOf(p, Now()) == Step(m, before)
    {
      p := Going;
      if b == 0 { p := Stopped; }
      else if b == 1 { var k := ReadByte(); Push(m.consts[k]); }
      else if b == 2 { Push(Null); }
      else if b == 3 { Push(Bool(true)); }
      else if b == 4 { Push(Bool(false)); }
      else { var v := Pop(); }
    }

    method Arithmetic(b: byte, ghost before: Vm) returns (p: Progress)
      requires (6 <= b <= 10 || 13 <= b <= 18) && Inside(before, b)
      modifies this, stack
      ensures Valid() && OutcomeOf(p, Now()) == Step(m, before)
    {
      hide VmBinary;
      var op := DecodeBytes(b, 0, 0).op;
      var right := Pop();
      var left := Pop();
      var r := VmBinary(m.h, op, left, right);
      p := Going;
      if r.Some? { Push(r.value); } else { p := RuntimeError; }
    }

    method Unary(b: byte, ghost before: Vm) returns (p: Progress)
      requires 11 <= b <= 12 && Inside(before, b)
      modifies this, stack
      ensures Valid() && OutcomeOf(p, Now()) == Step(m, before)
    {
      var v := Pop();
      p := Going;
      if b == 12 { Push(Bool(!Truthy(m.h, v))); }
      else if v.Int? { Push(Int(-v.i)); }
      else if v.Float? { Push(Float(m.h.floatNeg(v.f))); }
      else { p := RuntimeError; }
    }

    method Globals(b: byte, ghost before: Vm) returns (p: Progress)
      requires 19 <= b <= 21 && Inside(before, b)
      modifies this, stack, runtime
      ensures Valid() && OutcomeOf(p, Now()) == Step(m, before)
    {
      var k := ReadByte();
      var name := m.consts[k];
      p := Going;
      if b == 19 {
        var v := Pop();
        if name.Str? { runtime.Define(name.s, v, false); }
      } else if b == 20 {
        p := GetGlobalNamed(name);
      } else {
        if name.Str? { AssignGlobal(name.s, stack[top - 1]); }
      }
    }

    method GetGlobalNamed(name: Value) returns (p: Progress)
      requires Valid()
      modifies this, stack
      ensures Valid()
      ensures var vm := old(Now());
        OutcomeOf(p, Now()) ==
          if !name.Str? then Running(vm.(stack := BsVm.Push(vm.stack, Null)))
          else if name.s in vm.globals then Running(vm.(stack := BsVm.Push(vm.stack, vm.globals[name.s].value)))
          else Faulted(vm)
    {
      p := Going;
      if !name.Str? {
        Push(Null);
      } else {
        var found := runtime.Get(name.s);
        if found.Some? { Push(found.value); } else { p := RuntimeError; }
      }
    }

    method AssignGlobal(x: string, v: Value)
      requires Valid()
      modifies runtime
      ensures Valid() && Now() == old(Now()).(globals := SetGlobalTo(old(Now()).globals, x, v))
    {
      var ok := runtime.AssignVar(x, v);
    }

    method Locals(b: byte, ghost before: Vm) returns (p: Progress)
      requires 22 <= b <= 23 && Inside(before, b)
      modifies this, stack
      ensures Valid() && OutcomeOf(p, Now()) == Step(m, before)
    {
      var slot := ReadByte();
      p := Going;
      if b == 22 {
        Push(stack[slot]);
      } else {
        stack[slot] := stack[top - 1];
        assert stack[..top] == before.stack[slot := Top(before.stack)];
      }
    }

    method Jumps(b: byte, ghost before: Vm) returns (p: Progress)
      requires 24 <= b <= 26 && Inside(before, b)
      modifies this
      ensures Valid() && OutcomeOf(p, Now()) == Step(m, before)
    {
      var d := ReadShort();
      p := Going;
      if b == 24 { ip := ip + d; }
      else if b == 26 { ip := ip - d; }
      else if !Truthy(m.h, stack[top - 1]) { ip := ip + d; }
    }

    method Calls(b: byte, ghost before: Vm) returns (p: Progress)
      requires 27 <= b <= 28 && Inside(before, b)
      modifies this, stack, runtime
      ensures Valid() && OutcomeOf(p, Now()) == Step(m, before)
    {
      var k := ReadByte();
      if b == 27 { return RuntimeError; }
      var argc := ReadByte();
      var name := m.consts[k];
      if !name.Str? || name.s !in runtime.cmds { return RuntimeError; }
      var args := PopArgs(argc);
      Invoke(name.s, runtime.cmds[name.s], args);
      p := Going;
    }

    method Invoke(name: string, cmd: Command, args: seq<Value>)
      requires Valid()
      modifies this, stack, runtime
      ensures Valid()
      ensures var vm := old(Now()); var n := m.h.natives(name, args);
        Now() == if cmd.Native? then vm.(stack := BsVm.Push(vm.stack, n.0), out := vm.out + n.1)
                 else vm.(stack := BsVm.Push(vm.stack, Null))
    {
      var result := Null;
      if cmd.Native? {
        var n := m.h.natives(name, args);
        result := n.0;
        runtime.out := runtime.out + n.1;
      }
      Push(result);
    }

    /** The arguments are popped from the last to the first. */
    method PopArgs(argc: nat) returns (args: seq<Value>)
      requires Valid()
      modifies this
      ensures Valid()
      ensures var r := PopMany(old(Now()).stack, argc); args == r.0 && Now() == old(Now()).(stack := r.1)
    {
      args := [];
      var i: nat := argc;
      ghost var start := Now().stack;
      assert PopMany(start, argc).0 + args == PopMany(start, argc).0;
      while i > 0
        invariant i <= argc && Valid()
        invariant Now() == old(Now()).(stack := Now().stack)
        invariant var r := PopMany(Now().stack, i); PopMany(start, argc) == (r.0 + args, r.1)
      {
        ghost var here := Now().stack;
        ghost var r := PopMany(Rest(here), i - 1);
        var v := Pop();
        assert (r.0 + [v]) + args == r.0 + ([v] + args);
        args := [v] + args;
        i := i - 1;
      }
    }

    method Prints(b: byte, ghost before: Vm) returns (p: Progress)
      requires 29 <= b && Inside(before, b)
      modifies this, runtime
      ensures Valid() && OutcomeOf(p, Now()) == Step(m, before)
    {
      if b > 31 { return RuntimeError; }
      var v := Pop();
      runtime.out := runtime.out + PrintText(m.h, v);
      if b != 30 { runtime.out := runtime.out + "\n"; }
      p := if b == 31 then Stopped else Going;
    }

    /** bs_vm_run for at most fuel turns. */
    method Run(fuel: nat) returns (p: Progress)
      requires Valid() && !StepN(m, fuel, Now()).Unsafe?
      modifies this, stack, runtime
      ensures Valid() && OutcomeOf(p, Now()) == StepN(m, fuel, old(Now()))
    {
      hide Step;
      p := Going;
      var n: nat := fuel;
      while n > 0 && p == Going
        invariant Valid() && n <= fuel
        invariant p == Going ==> StepN(m, n, Now()) == StepN(m, fuel, old(Now()))
        invariant p != Going ==> OutcomeOf(p, Now()) == StepN(m, fuel, old(Now()))
      {
        p := Turn();
        n := n - 1;
      }
    }
  }

  lemma InsideCode(m: Image, vm: Vm)
    requires !Step(m, vm).Unsafe?
    ensures vm.ip < |m.code|
  {
  }
}
