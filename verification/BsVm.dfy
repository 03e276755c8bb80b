/** The virtual machine (bs_vm.c) as a step function.  The stack is the part below stack_top;
    Unsafe is an access outside the code, the constants or that part of the stack. */
module BsVm {
  import opened BsAst
  import opened BsValue
  import opened BsScopes
  import opened BsBytecode

  datatype Image = Image(h: Host, cmds: Registry, code: seq<byte>, consts: seq<Value>)
  datatype Vm = Vm(ip: nat, stack: seq<Value>, globals: Scope, out: string)
  datatype Outcome = Running(vm: Vm) | Halted(vm: Vm) | Faulted(vm: Vm) | Unsafe

  /** bs_vm_push drops the value when the stack is full. */
  function Push(stack: seq<Value>, v: Value): seq<Value> {
    if |stack| >= MAX_STACK then stack else stack + [v]
  }

  /** bs_vm_pop gives null on an empty stack and leaves it alone. */
  function Top(stack: seq<Value>): Value { if stack == [] then Null else stack[|stack| - 1] }
  function Rest(stack: seq<Value>): seq<Value> { if stack == [] then [] else stack[..|stack| - 1] }

  /** n pops; the value popped last comes first. */
  function PopMany(stack: seq<Value>, n: nat): (r: (seq<Value>, seq<Value>))
    ensures |r.0| == n
  {
    if n == 0 then ([], stack)
    else
      var r := PopMany(Rest(stack), n - 1);
      (r.0 + [Top(stack)], r.1)
  }

  function SetGlobalTo(globals: Scope, x: string, v: Value): Scope {
    if x in globals && !globals[x].isConst then globals[x := Binding(v, false)] else globals
  }

  /** One instruction; vm.ip is already behind it. */
  function Exec(m: Image, i: Instr, vm: Vm): Outcome {
    match i
    case Halt => Halted(vm)
    case Constant(k) => if k < |m.consts| then Running(vm.(stack := Push(vm.stack, m.consts[k]))) else Unsafe
    case PushNull => Running(vm.(stack := Push(vm.stack, Null)))
    case PushTrue => Running(vm.(stack := Push(vm.stack, Bool(true))))
    case PushFalse => Running(vm.(stack := Push(vm.stack, Bool(false))))
    case Pop => Running(vm.(stack := Rest(vm.stack)))
    case BinaryOp(op) =>
      var b := Top(vm.stack);
      var a := Top(Rest(vm.stack));
      var rest := Rest(Rest(vm.stack));
      (match VmBinary(m.h, op, a, b)
       case Some(v) => Running(vm.(stack := Push(rest, v)))
       case None => Faulted(vm.(stack := rest)))
    case Negate =>
      var v := Top(vm.stack);
      if v.Int? then Running(vm.(stack := Push(Rest(vm.stack), Int(-v.i))))
      else if v.Float? then Running(vm.(stack := Push(Rest(vm.stack), Float(m.h.floatNeg(v.f)))))
      else Faulted(vm.(stack := Rest(vm.stack)))
    case Not => Running(vm.(stack := Push(Rest(vm.stack), Bool(!Truthy(m.h, Top(vm.stack))))))
    case DefineGlobal(k) =>
      if k >= |m.consts| then Unsafe
      else
        Running(vm.(stack := Rest(vm.stack),
                    globals := if m.consts[k].Str? then vm.globals[m.consts[k].s := Binding(Top(vm.stack), false)]
                               else vm.globals))
    case GetGlobal(k) =>
      if k >= |m.consts| then Unsafe
      else if !m.consts[k].Str? then Running(vm.(stack := Push(vm.stack, Null)))
      else if m.consts[k].s in vm.globals then
        Running(vm.(stack := Push(vm.stack, vm.globals[m.consts[k].s].value)))
      else Faulted(vm)
    case SetGlobal(k) =>
      if k >= |m.consts| || vm.stack == [] then Unsafe
      else if !m.consts[k].Str? then Running(vm)
      else Running(vm.(globals := SetGlobalTo(vm.globals, m.consts[k].s, Top(vm.stack))))
    case GetLocal(slot) =>
      if slot >= |vm.stack| then Unsafe else Running(vm.(stack := Push(vm.stack, vm.stack[slot])))
    case SetLocal(slot) =>
      // the slot is freed before the top is copied into it
      if slot + 1 >= |vm.stack| then Unsafe else Running(vm.(stack := vm.stack[slot := Top(vm.stack)]))
    case Jump(d) => Running(vm.(ip := vm.ip + d))
    case JumpIfFalse(d) =>
      if vm.stack == [] then Unsafe
      else if !Truthy(m.h, Top(vm.stack)) then Running(vm.(ip := vm.ip + d))
      else Running(vm)
    case Loop(d) => if d > vm.ip then Unsafe else Running(vm.(ip := vm.ip - d))
    case CallValue(_) => Faulted(vm)
    case CallCommand(k, argc) =>
      if k >= |m.consts| then Unsafe
      else if !m.consts[k].Str? || m.consts[k].s !in m.cmds then Faulted(vm)
      else
        var r := PopMany(vm.stack, argc);
        if m.cmds[m.consts[k].s].Native? then
          var n := m.h.natives(m.consts[k].s, r.0);
          Running(vm.(stack := Push(r.1, n.0), out := vm.out + n.1))
        else Running(vm.(stack := Push(r.1, Null)))
    case PrintLine =>
      Running(vm.(stack := Rest(vm.stack), out := vm.out + PrintText(m.h, Top(vm.stack)) + "\n"))
    case PrintRaw =>
      Running(vm.(stack := Rest(vm.stack), out := vm.out + PrintText(m.h, Top(vm.stack))))
    case ReturnTop =>
      Halted(vm.(stack := Rest(vm.stack), out := vm.out + PrintText(m.h, Top(vm.stack)) + "\n"))
    case Unknown(_) => Faulted(vm)
  }

  /** One turn of the fetch loop of bs_vm_run. */
  function Step(m: Image, vm: Vm): Outcome {
    match Fetch(m.code, vm.ip)
    case OffTheEnd => Unsafe
    case Fetched(i, next) => Exec(m, i, vm.(ip := next))
  }

  function StepN(m: Image, n: nat, vm: Vm): Outcome {
    if n == 0 then Running(vm)
    else
      match Step(m, vm)
      case Running(vm1) => StepN(m, n - 1, vm1)
      case Halted(vm1) => Halted(vm1)
      case Faulted(vm1) => Faulted(vm1)
      case Unsafe => Unsafe
  }

  /** Some number of steps leads from vm to o. */
  ghost predicate Reaches(m: Image, vm: Vm, o: Outcome) {
    exists n: nat :: StepN(m, n, vm) == o
  }

  lemma ReachesRefl(m: Image, vm: Vm)
    ensures Reaches(m, vm, Running(vm))
  {
    assert StepN(m, 0, vm) == Running(vm);
  }

  lemma {:induction false} StepNPlus(m: Image, a: nat, b: nat, vm: Vm)
    requires StepN(m, a, vm).Running?
    ensures StepN(m, a + b, vm) == StepN(m, b, StepN(m, a, vm).vm)
  {
    hide Step;
    if a > 0 {
      var o := Step(m, vm);
      StepNPlus(m, a - 1, b, o.vm);
    }
  }

  lemma ReachesTrans(m: Image, a: Vm, b: Vm, o: Outcome)
    requires Reaches(m, a, Running(b)) && Reaches(m, b, o)
    ensures Reaches(m, a, o)
  {
    var i: nat :| StepN(m, i, a) == Running(b);
    var j: nat :| StepN(m, j, b) == o;
    StepNPlus(m, i, j, a);
    assert StepN(m, i + j, a) == o;
  }

  /** The instruction whose bytes stand at vm.ip is the one executed. */
  lemma ReachesStep(m: Image, vm: Vm, i: Instr)
    requires Encodable(i) && CodeAt(m.code, vm.ip, Encode(i))
    ensures Reaches(m, vm, Exec(m, i, vm.(ip := vm.ip + |Encode(i)|)))
  {
    FetchEncode(m.code, vm.ip, i);
    var o := Step(m, vm);
    assert o == Exec(m, i, vm.(ip := vm.ip + |Encode(i)|));
    if o.Running? { assert StepN(m, 0, o.vm) == o; }
    assert StepN(m, 1, vm) == o;
  }

  /** a runs on to b and executes the instruction standing there. */
  lemma ReachesThen(m: Image, a: Vm, b: Vm, i: Instr)
    requires Reaches(m, a, Running(b))
    requires Encodable(i) && CodeAt(m.code, b.ip, Encode(i))
    ensures Reaches(m, a, Exec(m, i, b.(ip := b.ip + |Encode(i)|)))
  {
    ReachesStep(m, b, i);
    ReachesTrans(m, a, b, Exec(m, i, b.(ip := b.ip + |Encode(i)|)));
  }

  lemma {:induction false} StepNStops(m: Image, i: nat, j: nat, vm: Vm)
    requires !StepN(m, i, vm).Running? && i <= j
    ensures StepN(m, j, vm) == StepN(m, i, vm)
  {
    hide Step;
    assert i > 0;
    var o := Step(m, vm);
    if o.Running? { StepNStops(m, i - 1, j - 1, o.vm); }
  }

  /** n steps without stopping. */
  ghost predicate Runs(m: Image, n: nat, vm: Vm) {
    StepN(m, n, vm).Running?
  }

  lemma RunsLess(m: Image, i: nat, j: nat, vm: Vm)
    requires Runs(m, j, vm) && i <= j
    ensures Runs(m, i, vm)
  {
    hide StepN;
    if !Runs(m, i, vm) { StepNStops(m, i, j, vm); }
  }

  lemma RunsAfter(m: Image, vm: Vm, mid: Vm, n: nat)
    requires Reaches(m, vm, Running(mid)) && Runs(m, n, mid)
    ensures Runs(m, n, vm)
  {
    hide StepN;
    var i: nat :| StepN(m, i, vm) == Running(mid);
    StepNPlus(m, i, n, vm);
    RunsLess(m, n, i + n, vm);
  }

  lemma RunsStep(m: Image, vm: Vm, next: Vm, n: nat)
    requires Step(m, vm) == Running(next) && Runs(m, n, next)
    ensures Runs(m, n + 1, vm)
  {
    hide Step;
  }

  /** The machine is deterministic: it ends in at most one way. */
  lemma ReachesUnique(m: Image, vm: Vm, o: Outcome, p: Outcome)
    requires Reaches(m, vm, o) && Reaches(m, vm, p) && !o.Running? && !p.Running?
    ensures o == p
  {
    var i: nat :| StepN(m, i, vm) == o;
    var j: nat :| StepN(m, j, vm) == p;
    if i <= j { StepNStops(m, i, j, vm); } else { StepNStops(m, j, i, vm); }
  }

  // ----- What one instruction standing at vm.ip does -----

  lemma DoGetLocal(m: Image, vm: Vm, slot: byte)
    requires CodeAt(m.code, vm.ip, Encode(GetLocal(slot))) && slot < |vm.stack|
    ensures Reaches(m, vm, Running(vm.(ip := vm.ip + 2, stack := Push(vm.stack, vm.stack[slot]))))
  {
    ReachesStep(m, vm, GetLocal(slot));
  }

  lemma DoGetGlobal(m: Image, vm: Vm, k: byte)
    requires CodeAt(m.code, vm.ip, Encode(GetGlobal(k)))
    requires k < |m.consts| && m.consts[k].Str?
    ensures m.consts[k].s in vm.globals ==>
      Reaches(m, vm, Running(vm.(ip := vm.ip + 2, stack := Push(vm.stack, vm.globals[m.consts[k].s].value))))
    ensures m.consts[k].s !in vm.globals ==> Reaches(m, vm, Faulted(vm.(ip := vm.ip + 2)))
  {
    ReachesStep(m, vm, GetGlobal(k));
  }

  lemma DoSetLocal(m: Image, vm: Vm, slot: byte)
    requires CodeAt(m.code, vm.ip, Encode(SetLocal(slot))) && slot + 1 < |vm.stack|
    ensures Reaches(m, vm, Running(vm.(ip := vm.ip + 2, stack := vm.stack[slot := Top(vm.stack)])))
  {
    ReachesStep(m, vm, SetLocal(slot));
  }

  lemma DoSetGlobal(m: Image, vm: Vm, k: byte)
    requires CodeAt(m.code, vm.ip, Encode(SetGlobal(k))) && vm.stack != []
    requires k < |m.consts| && m.consts[k].Str?
    ensures Reaches(m, vm, Running(vm.(ip := vm.ip + 2,
                                       globals := SetGlobalTo(vm.globals, m.consts[k].s, Top(vm.stack)))))
  {
    ReachesStep(m, vm, SetGlobal(k));
  }

  lemma DoDefineGlobal(m: Image, vm: Vm, k: byte)
    requires CodeAt(m.code, vm.ip, Encode(DefineGlobal(k)))
    requires k < |m.consts| && m.consts[k].Str?
    ensures Reaches(m, vm, Running(vm.(ip := vm.ip + 2, stack := Rest(vm.stack),
                                       globals := vm.globals[m.consts[k].s := Binding(Top(vm.stack), false)])))
  {
    ReachesStep(m, vm, DefineGlobal(k));
  }

  lemma DoNot(m: Image, vm: Vm)
    requires CodeAt(m.code, vm.ip, Encode(Not))
    ensures Reaches(m, vm, Running(vm.(ip := vm.ip + 1,
                                       stack := Push(Rest(vm.stack), Bool(!Truthy(m.h, Top(vm.stack)))))))
  {
    ReachesStep(m, vm, Not);
  }

  lemma DoNegate(m: Image, vm: Vm)
    requires CodeAt(m.code, vm.ip, Encode(Negate))
    ensures var v := Top(vm.stack); var rest := vm.(ip := vm.ip + 1, stack := Rest(vm.stack));
      && (v.Int? ==> Reaches(m, vm, Running(rest.(stack := Push(rest.stack, Int(-v.i))))))
      && (v.Float? ==> Reaches(m, vm, Running(rest.(stack := Push(rest.stack, Float(m.h.floatNeg(v.f)))))))
      && (!IsNumber(v) ==> Reaches(m, vm, Faulted(rest)))
  {
    ReachesStep(m, vm, Negate);
  }

  lemma DoBinary(m: Image, vm: Vm, op: Op)
    requires HasOpCode(op) && CodeAt(m.code, vm.ip, Encode(BinaryOp(op)))
    ensures var rest := vm.(ip := vm.ip + 1, stack := Rest(Rest(vm.stack)));
      match VmBinary(m.h, op, Top(Rest(vm.stack)), Top(vm.stack))
      case Some(v) => Reaches(m, vm, Running(rest.(stack := Push(rest.stack, v))))
      case None => Reaches(m, vm, Faulted(rest))
  {
    hide VmBinary;
    ReachesStep(m, vm, BinaryOp(op));
  }

  lemma DoPop(m: Image, vm: Vm)
    requires CodeAt(m.code, vm.ip, Encode(Pop))
    ensures Reaches(m, vm, Running(vm.(ip := vm.ip + 1, stack := Rest(vm.stack))))
  {
    ReachesStep(m, vm, Pop);
  }

  lemma DoJump(m: Image, vm: Vm, d: short)
    requires CodeAt(m.code, vm.ip, Encode(Jump(d)))
    ensures Reaches(m, vm, Running(vm.(ip := vm.ip + 3 + d)))
  {
    ReachesStep(m, vm, Jump(d));
  }

  lemma DoJumpIfFalse(m: Image, vm: Vm, d: short)
    requires CodeAt(m.code, vm.ip, Encode(JumpIfFalse(d))) && vm.stack != []
    ensures Reaches(m, vm, Running(vm.(ip := vm.ip + 3 + if Truthy(m.h, Top(vm.stack)) then 0 else d)))
  {
    ReachesStep(m, vm, JumpIfFalse(d));
  }

  lemma DoLoop(m: Image, vm: Vm, d: short)
    requires CodeAt(m.code, vm.ip, Encode(Loop(d))) && d <= vm.ip + 3
    ensures Reaches(m, vm, Running(vm.(ip := vm.ip + 3 - d)))
    ensures Step(m, vm) == Running(vm.(ip := vm.ip + 3 - d))
  {
    ReachesStep(m, vm, Loop(d));
    FetchEncode(m.code, vm.ip, Loop(d));
  }

  lemma DoPrint(m: Image, vm: Vm, raw: bool)
    requires CodeAt(m.code, vm.ip, Encode(if raw then PrintRaw else PrintLine))
    ensures Reaches(m, vm, Running(vm.(ip := vm.ip + 1, stack := Rest(vm.stack),
      out := if raw then vm.out + PrintText(m.h, Top(vm.stack)) else vm.out + PrintText(m.h, Top(vm.stack)) + "\n")))
  {
    ReachesStep(m, vm, if raw then PrintRaw else PrintLine);
  }

  /** The arguments are the values pushed last, in the order they were pushed. */
  lemma {:induction false} PopManyAll(below: seq<Value>, args: seq<Value>)
    ensures PopMany(below + args, |args|) == (args, below)
  {
    if args == [] {
      assert below + args == below;
    } else {
      var n := |args| - 1;
      assert Rest(below + args) == below + args[..n];
      PopManyAll(below, args[..n]);
      assert args[..n] + [args[n]] == args;
    }
  }

  lemma DoNativeCommand(m: Image, vm: Vm, k: byte, below: seq<Value>, args: seq<Value>)
    requires |args| < 256 && CodeAt(m.code, vm.ip, Encode(CallCommand(k, |args|)))
    requires k < |m.consts| && m.consts[k].Str?
    requires m.consts[k].s in m.cmds && m.cmds[m.consts[k].s].Native?
    requires vm.stack == below + args
    ensures var n := m.h.natives(m.consts[k].s, args);
      Reaches(m, vm, Running(vm.(ip := vm.ip + 3, stack := Push(below, n.0), out := vm.out + n.1)))
  {
    PopManyAll(below, args);
    ReachesStep(m, vm, CallCommand(k, |args|));
  }
}
