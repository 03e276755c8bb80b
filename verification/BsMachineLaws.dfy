/** What the machine makes of the instructions outside the language it shares with the interpreter. */
module BsMachineLaws {
  import opened BsAst
  import opened BsValue
  import opened BsBytecode
  import opened BsVm
  import opened BsCodegen
  import opened BsSimExpr

  /** return writes the text of the top value and a line break, and halts. */
  lemma ReturnPrintsAndHalts(m: Image, vm: Vm, below: seq<Value>, v: Value)
    requires CodeAt(m.code, vm.ip, Encode(ReturnTop)) && vm.stack == below + [v]
    ensures Reaches(m, vm, Halted(vm.(ip := vm.ip + 1, stack := below, out := vm.out + PrintText(m.h, v) + "\n")))
  {
    ReachesStep(m, vm, ReturnTop);
    assert (below + [v])[..|below|] == below;
  }

  /** A compiled "return b;" of a boolean, run from anywhere. */
  lemma ReturnCompiled(m: Image, locals: seq<Local>, depth: nat, pool: seq<Value>, b: bool, vm: Vm)
    requires var c := CompileStmt(EnvOf(m), locals, depth, pool, Return(Literal(Bool(b))));
      c.Compiled? && CodeAt(m.code, vm.ip, c.code)
    requires |vm.stack| < MAX_STACK
    ensures Reaches(m, vm, Halted(vm.(ip := vm.ip + 2, out := vm.out + (if b then "true" else "false") + "\n")))
  {
    var push := if b then PushTrue else PushFalse;
    ReturnCode(EnvOf(m), locals, depth, pool, b);
    hide CompileStmt, Reaches, CodeAt;
    CodeAtSplit(m.code, vm.ip, Encode(push), Encode(ReturnTop));
    ReachesStep(m, vm, push);
    var mid := vm.(ip := vm.ip + 1, stack := vm.stack + [Bool(b)]);
    ReturnPrintsAndHalts(m, mid, vm.stack, Bool(b));
    ReachesTrans(m, vm, mid, Halted(vm.(ip := vm.ip + 2, out := vm.out + (if b then "true" else "false") + "\n")));
  }

  lemma ReturnCode(env: Env, locals: seq<Local>, depth: nat, pool: seq<Value>, b: bool)
    ensures var c := CompileStmt(env, locals, depth, pool, Return(Literal(Bool(b))));
      c.Compiled? && c.code == Encode(if b then PushTrue else PushFalse) + Encode(ReturnTop)
  {
  }

  /** Values on the stack cannot be called, and an opcode the machine does not know is an error. */
  lemma RefusedInstructions(m: Image, vm: Vm, argc: byte, code: byte)
    ensures CodeAt(m.code, vm.ip, Encode(CallValue(argc))) ==> Reaches(m, vm, Faulted(vm.(ip := vm.ip + 2)))
    ensures code > 31 && CodeAt(m.code, vm.ip, [code]) ==> Reaches(m, vm, Faulted(vm.(ip := vm.ip + 1)))
  {
    if CodeAt(m.code, vm.ip, Encode(CallValue(argc))) { ReachesStep(m, vm, CallValue(argc)); }
    if code > 31 && CodeAt(m.code, vm.ip, [code]) { ReachesStep(m, vm, Unknown(code)); }
  }

  /** A command that is not native takes its arguments and gives null; an unknown name is an error. */
  lemma OtherCommands(m: Image, vm: Vm, k: byte, below: seq<Value>, args: seq<Value>)
    requires |args| < 256 && CodeAt(m.code, vm.ip, Encode(CallCommand(k, |args|)))
    requires k < |m.consts| && m.consts[k].Str? && vm.stack == below + args && |below| < MAX_STACK
    ensures m.consts[k].s in m.cmds && !m.cmds[m.consts[k].s].Native? ==>
      Reaches(m, vm, Running(vm.(ip := vm.ip + 3, stack := below + [Null])))
    ensures m.consts[k].s !in m.cmds ==> Reaches(m, vm, Faulted(vm.(ip := vm.ip + 3)))
  {
    PopManyAll(below, args);
    ReachesStep(m, vm, CallCommand(k, |args|));
  }
}
