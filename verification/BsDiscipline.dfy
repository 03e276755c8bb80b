/** The stack discipline of compiled code: what one instruction needs and does to the height of
    the stack, and that compiled expressions keep to the heights read off the tree, whatever the
    values and types of their operands. */
module BsDiscipline {
  import opened BsAst
  import opened BsValue
  import opened BsBytecode
  import opened BsVm
  import opened BsCodegen
  import opened BsWellFormed
  import opened BsLayout
  import opened BsHeights
  import opened BsSimExpr
  import opened BsSimOperators

  /** The values an instruction pops, the values it pushes, and those it looks at. */
  function Takes(i: Instr): nat {
    match i
    case Pop | Negate | Not | DefineGlobal(_) | PrintLine | PrintRaw | ReturnTop => 1
    case BinaryOp(_) => 2
    case CallCommand(_, argc) => argc
    case _ => 0
  }

  function Gives(i: Instr): nat {
    match i
    case Constant(_) | PushNull | PushTrue | PushFalse | GetGlobal(_) | GetLocal(_)
       | BinaryOp(_) | Negate | Not | CallCommand(_, _) => 1
    case _ => 0
  }

  function LooksAt(i: Instr): nat {
    match i
    case JumpIfFalse(_) | SetGlobal(_) => 1
    case SetLocal(slot) => slot + 2
    case GetLocal(slot) => slot + 1
    case _ => Takes(i)
  }

  predicate ConstantsInRange(m: Image, i: Instr) {
    i.Constant? || i.DefineGlobal? || i.GetGlobal? || i.SetGlobal? || i.CallCommand? ==> i.index < |m.consts|
  }

  /** No pop underflows, no push is dropped, every slot lies below the top, every constant exists. */
  predicate Allowed(m: Image, i: Instr, size: nat) {
    && LooksAt(i) <= size
    && Takes(i) <= size
    && size - Takes(i) + Gives(i) <= MAX_STACK
    && ConstantsInRange(m, i)
  }

  /** Where an instruction at ip can lead. */
  predicate Leads(i: Instr, ip: nat, next: int) {
    match i
    case Jump(d) => next == ip + 3 + d
    case JumpIfFalse(d) => next == ip + 3 || next == ip + 3 + d
    case Loop(d) => next == ip + 3 - d
    case _ => next == ip + |Encode(i)|
  }

  lemma {:induction false} PopManySize(stack: seq<Value>, n: nat)
    requires n <= |stack|
    ensures |PopMany(stack, n).1| == |stack| - n
  {
    if n > 0 { PopManySize(Rest(stack), n - 1); }
  }

  /** The instruction at vm.ip, executed with its needs met, has exactly its effect on the height. */
  lemma StepEffect(m: Image, vm: Vm, i: Instr)
    requires Encodable(i) && CodeAt(m.code, vm.ip, Encode(i))
    requires Allowed(m, i, |vm.stack|)
    requires i.Loop? ==> i.distance <= vm.ip + 3
    ensures Fetch(m.code, vm.ip) == Fetched(i, vm.ip + |Encode(i)|)
    ensures !Step(m, vm).Unsafe?
    ensures var o := Step(m, vm);
      o.Running? ==> Leads(i, vm.ip, o.vm.ip) && |o.vm.stack| == |vm.stack| - Takes(i) + Gives(i)
  {
    hide CodeAt, VmBinary, PopMany, Truthy, PrintText;
    FetchEncode(m.code, vm.ip, i);
    if i.CallCommand? { PopManySize(vm.stack, i.argc); }
  }

  /** The machine is about to execute an instruction whose needs are met; only the last pop of an
      if without else may find the stack empty. */
  predicate Disciplined(m: Image, vm: Vm, loose: bool) {
    var f := Fetch(m.code, vm.ip);
    f.Fetched? && (Allowed(m, f.instr, |vm.stack|) || (loose && f.instr == Pop && vm.stack == []))
  }

  // ----- Expressions -----

  /** The machine stands at an instruction of e's code, or behind it, with the stack as high as the tree says. */
  predicate AtExpr(cmds: Registry, e: Node, at: nat, base: nat, vm: Vm) {
    at <= vm.ip <= at + Size(cmds, e) && base <= |vm.stack| && Height(cmds, e, vm.ip - at) == |vm.stack| - base
  }

  ghost predicate ExprGoes(m: Image, e: Node, at: nat, base: nat, vm: Vm) {
    && Disciplined(m, vm, false)
    && !Step(m, vm).Unsafe?
    && (Step(m, vm).Running? ==> AtExpr(m.cmds, e, at, base, Step(m, vm).vm))
  }

  lemma {:induction false} ExprStep(m: Image, locals: seq<Local>, pool: seq<Value>, e: Node, at: nat, base: nat, vm: Vm)
    requires WfExpr(e) && Placed(m, CompileExpr(EnvOf(m), locals, pool, e), at)
    requires |locals| <= base && base + Need(e) <= MAX_STACK
    requires AtExpr(m.cmds, e, at, base, vm) && vm.ip < at + Size(m.cmds, e)
    ensures ExprGoes(m, e, at, base, vm)
    decreases e, 2
  {
    hide Step, Disciplined, CodeAt, Encode, FindConstant, AddConstant;
    if e.Literal? || e.Identifier? {
      LeafStep(m, locals, pool, e, at, base, vm);
    } else if e.Unary? {
      UnaryStep(m, locals, pool, e, at, base, vm);
    } else if e.Binary? {
      BinaryStep(m, locals, pool, e, at, base, vm);
    } else if e.Assign? {
      AssignStep(m, locals, pool, e, at, base, vm);
    } else {
      CallStep(m, locals, pool, e, at, base, vm);
    }
  }

  lemma InPool(m: Image, pool: seq<Value>, v: Value)
    requires AddConstant(m.h, pool, v) <= m.consts && FindConstant(m.h, pool, v) < MAX_CONSTANTS
    ensures PoolByte(m.h, pool, v) < |m.consts|
  {
    AddConstantGrows(m.h, pool, v);
  }

  lemma LeafStep(m: Image, locals: seq<Local>, pool: seq<Value>, e: Node, at: nat, base: nat, vm: Vm)
    requires e.Literal? || e.Identifier?
    requires Placed(m, CompileExpr(EnvOf(m), locals, pool, e), at)
    requires |locals| <= base < MAX_STACK
    requires AtExpr(m.cmds, e, at, base, vm) && vm.ip < at + Size(m.cmds, e)
    ensures ExprGoes(m, e, at, base, vm)
  {
    hide Step, CodeAt, FindConstant, AddConstant;
    if e.Literal? {
      if e.lit.Null? { StepEffect(m, vm, PushNull); }
      else if e.lit.Bool? { StepEffect(m, vm, if e.lit.b then PushTrue else PushFalse); }
      else {
        InPool(m, pool, e.lit);
        StepEffect(m, vm, Constant(PoolByte(m.h, pool, e.lit)));
      }
    } else {
      GetStep(m, locals, pool, e.name, vm);
    }
  }

  /** A read pushes one value. */
  lemma GetStep(m: Image, locals: seq<Local>, pool: seq<Value>, x: string, vm: Vm)
    requires Placed(m, GetVariable(m.h, locals, pool, x), vm.ip)
    requires |locals| <= |vm.stack| < MAX_STACK
    ensures Disciplined(m, vm, false) && !Step(m, vm).Unsafe?
    ensures Step(m, vm).Running? ==> Step(m, vm).vm.ip == vm.ip + 2 && |Step(m, vm).vm.stack| == |vm.stack| + 1
  {
    hide Step, CodeAt, FindConstant, AddConstant;
    var r := Resolve(locals, x);
    if r < 0 { InPool(m, pool, Str(x)); }
    StepEffect(m, vm, if r >= 0 then GetLocal(r) else GetGlobal(PoolByte(m.h, pool, Str(x))));
  }

  lemma SetStep(m: Image, locals: seq<Local>, pool: seq<Value>, x: string, vm: Vm)
    requires Placed(m, SetVariable(m.h, locals, pool, x), vm.ip)
    requires |locals| < |vm.stack| <= MAX_STACK
    ensures Disciplined(m, vm, false) && !Step(m, vm).Unsafe?
    ensures Step(m, vm).Running? ==> Step(m, vm).vm.ip == vm.ip + 2 && |Step(m, vm).vm.stack| == |vm.stack|
  {
    hide Step, CodeAt, FindConstant, AddConstant;
    var r := Resolve(locals, x);
    if r < 0 { InPool(m, pool, Str(x)); }
    StepEffect(m, vm, if r >= 0 then SetLocal(r) else SetGlobal(PoolByte(m.h, pool, Str(x))));
  }

  lemma {:induction false} UnaryStep(m: Image, locals: seq<Local>, pool: seq<Value>, e: Node, at: nat, base: nat, vm: Vm)
    requires e.Unary? && WfExpr(e) && Placed(m, CompileExpr(EnvOf(m), locals, pool, e), at)
    requires |locals| <= base && base + Need(e) <= MAX_STACK
    requires AtExpr(m.cmds, e, at, base, vm) && vm.ip < at + Size(m.cmds, e)
    ensures ExprGoes(m, e, at, base, vm)
    decreases e, 1
  {
    hide Step, Disciplined, CodeAt, Encode;
    var c := CompileExpr(EnvOf(m), locals, pool, e.operand);
    CodeAtSplit(m.code, at, c.code, UnaryCode(e.op));
    SizeOfExpr(EnvOf(m), locals, pool, e.operand);
    if vm.ip < at + |c.code| {
      ExprStep(m, locals, pool, e.operand, at, base, vm);
    } else {
      HeightEnds(m.cmds, e.operand);
      OneStep(m, vm, if e.op == Bang then Not else Negate);
    }
  }

  /** A one-byte instruction whose needs are met. */
  lemma OneStep(m: Image, vm: Vm, i: Instr)
    requires i.Pop? || i.Not? || i.Negate? || i.PrintLine? || i.PrintRaw? || i.ReturnTop? || (i.BinaryOp? && HasOpCode(i.op))
    requires CodeAt(m.code, vm.ip, Encode(i)) && Takes(i) <= |vm.stack| <= MAX_STACK
    ensures Disciplined(m, vm, false) && !Step(m, vm).Unsafe?
    ensures Step(m, vm).Running? ==>
      Step(m, vm).vm.ip == vm.ip + 1 && |Step(m, vm).vm.stack| == |vm.stack| - Takes(i) + Gives(i)
  {
    hide Step, CodeAt;
    StepEffect(m, vm, i);
  }

  /** A conditional jump leaves the height alone on both ways. */
  lemma BranchStep(m: Image, vm: Vm, d: short)
    requires CodeAt(m.code, vm.ip, Encode(JumpIfFalse(d))) && 1 <= |vm.stack| <= MAX_STACK
    ensures Disciplined(m, vm, false) && !Step(m, vm).Unsafe?
    ensures Step(m, vm).Running? ==>
      (Step(m, vm).vm.ip == vm.ip + 3 || Step(m, vm).vm.ip == vm.ip + 3 + d) && |Step(m, vm).vm.stack| == |vm.stack|
  {
    hide Step, CodeAt;
    StepEffect(m, vm, JumpIfFalse(d));
  }

  lemma JumpStep(m: Image, vm: Vm, d: short)
    requires CodeAt(m.code, vm.ip, Encode(Jump(d))) && |vm.stack| <= MAX_STACK
    ensures Disciplined(m, vm, false) && !Step(m, vm).Unsafe?
    ensures Step(m, vm).Running? ==> Step(m, vm).vm.ip == vm.ip + 3 + d && |Step(m, vm).vm.stack| == |vm.stack|
  {
    hide Step, CodeAt;
    StepEffect(m, vm, Jump(d));
  }

  lemma LoopStep(m: Image, vm: Vm, d: short)
    requires CodeAt(m.code, vm.ip, Encode(Loop(d))) && |vm.stack| <= MAX_STACK && d <= vm.ip + 3
    ensures Disciplined(m, vm, false) && !Step(m, vm).Unsafe?
    ensures Step(m, vm).Running? ==> Step(m, vm).vm.ip == vm.ip + 3 - d && |Step(m, vm).vm.stack| == |vm.stack|
  {
    hide Step, CodeAt;
    StepEffect(m, vm, Loop(d));
  }

  lemma {:induction false} BinaryStep(m: Image, locals: seq<Local>, pool: seq<Value>, e: Node, at: nat, base: nat, vm: Vm)
    requires e.Binary? && WfExpr(e) && Placed(m, CompileExpr(EnvOf(m), locals, pool, e), at)
    requires |locals| <= base && base + Need(e) <= MAX_STACK
    requires AtExpr(m.cmds, e, at, base, vm) && vm.ip < at + Size(m.cmds, e)
    ensures ExprGoes(m, e, at, base, vm)
    decreases e, 1
  {
    hide Step, Disciplined, CodeAt, Encode, CompileExpr, BinaryCode;
    var l, r := PlacedOperands(m, locals, pool, e, at);
    if vm.ip < at + |l.code| {
      ExprStep(m, locals, pool, e.left, at, base, vm);
    } else if e.op == AndAnd {
      AndStep(m, locals, l.pool, e, l.code, r.code, at, base, vm);
    } else if e.op == OrOr {
      OrStep(m, locals, l.pool, e, l.code, r.code, at, base, vm);
    } else {
      OperatorStep(m, locals, l.pool, e, l.code, r.code, at, base, vm);
    }
  }

  /** Behind the left operand of &&: one value decides, and is popped before the right operand. */
  lemma {:induction false} AndStep(m: Image, locals: seq<Local>, pool: seq<Value>, e: Node, lcode: seq<byte>, rcode: seq<byte>,
                                   at: nat, base: nat, vm: Vm)
    requires e.Binary? && e.op == AndAnd && WfExpr(e)
    requires |locals| <= base && base + Need(e) <= MAX_STACK
    requires Placed(m, CompileExpr(EnvOf(m), locals, pool, e.right), at + |lcode| + 4)
    requires CodeAt(m.code, at, BinaryCode(AndAnd, lcode, rcode)) && 1 + |rcode| <= MAX_JUMP
    requires |lcode| == Size(m.cmds, e.left) && |rcode| == Size(m.cmds, e.right)
    requires AtExpr(m.cmds, e, at, base, vm) && at + |lcode| <= vm.ip < at + Size(m.cmds, e)
    ensures ExprGoes(m, e, at, base, vm)
    decreases e, 0
  {
    hide Step, Disciplined, CodeAt, Encode, CompileExpr, BinaryCode, Height, Size, NeedArgs;
    AndHeights(m.cmds, e);
    HeightEnds(m.cmds, e.right);
    AndLayout(m.code, at, lcode, rcode);
    var k := vm.ip - at - |lcode|;
    if k == 0 { BranchStep(m, vm, 1 + |rcode|); }
    else if k == 3 { OneStep(m, vm, Pop); }
    else { ExprStep(m, locals, pool, e.right, at + |lcode| + 4, base, vm); }
  }

  lemma {:induction false} OrStep(m: Image, locals: seq<Local>, pool: seq<Value>, e: Node, lcode: seq<byte>, rcode: seq<byte>,
                                  at: nat, base: nat, vm: Vm)
    requires e.Binary? && e.op == OrOr && WfExpr(e)
    requires |locals| <= base && base + Need(e) <= MAX_STACK
    requires Placed(m, CompileExpr(EnvOf(m), locals, pool, e.right), at + |lcode| + 7)
    requires CodeAt(m.code, at, BinaryCode(OrOr, lcode, rcode)) && 1 + |rcode| <= MAX_JUMP
    requires |lcode| == Size(m.cmds, e.left) && |rcode| == Size(m.cmds, e.right)
    requires AtExpr(m.cmds, e, at, base, vm) && at + |lcode| <= vm.ip < at + Size(m.cmds, e)
    ensures ExprGoes(m, e, at, base, vm)
    decreases e, 0
  {
    hide Step, Disciplined, CodeAt, Encode, CompileExpr, BinaryCode, Height, Size, NeedArgs;
    OrHeights(m.cmds, e);
    HeightEnds(m.cmds, e.right);
    OrLayout(m.code, at, lcode, rcode);
    var k := vm.ip - at - |lcode|;
    if k == 0 { BranchStep(m, vm, 3); }
    else if k == 3 { JumpStep(m, vm, 1 + |rcode|); }
    else if k == 6 { OneStep(m, vm, Pop); }
    else { ExprStep(m, locals, pool, e.right, at + |lcode| + 7, base, vm); }
  }

  lemma {:induction false} OperatorStep(m: Image, locals: seq<Local>, pool: seq<Value>, e: Node, lcode: seq<byte>, rcode: seq<byte>,
                                        at: nat, base: nat, vm: Vm)
    requires e.Binary? && e.op != AndAnd && e.op != OrOr && WfExpr(e)
    requires |locals| <= base && base + Need(e) <= MAX_STACK
    requires Placed(m, CompileExpr(EnvOf(m), locals, pool, e.right), at + |lcode|)
    requires CodeAt(m.code, at, BinaryCode(e.op, lcode, rcode))
    requires |lcode| == Size(m.cmds, e.left) && |rcode| == Size(m.cmds, e.right)
    requires AtExpr(m.cmds, e, at, base, vm) && at + |lcode| <= vm.ip < at + Size(m.cmds, e)
    ensures ExprGoes(m, e, at, base, vm)
    decreases e, 0
  {
    hide Step, Disciplined, CodeAt, Encode, CompileExpr, BinaryCode, OpCode, Height, Size, NeedArgs;
    OperatorHeights(m.cmds, e);
    HeightEnds(m.cmds, e.right);
    OperatorLayout(m.code, at, e.op, lcode, rcode);
    if vm.ip < at + |lcode| + |rcode| { ExprStep(m, locals, pool, e.right, at + |lcode|, base + 1, vm); }
    else { OneStep(m, vm, BinaryOp(e.op)); }
  }

  lemma PlacedOperands(m: Image, locals: seq<Local>, pool: seq<Value>, e: Node, at: nat) returns (l: Emitted, r: Emitted)
    requires e.Binary? && WfExpr(e) && Placed(m, CompileExpr(EnvOf(m), locals, pool, e), at)
    ensures l == CompileExpr(EnvOf(m), locals, pool, e.left) && Placed(m, l, at)
    ensures r == CompileExpr(EnvOf(m), locals, l.pool, e.right) && r.Emitted? && r.exact && r.pool <= m.consts
    ensures e.op == AndAnd ==> Placed(m, r, at + |l.code| + 4)
    ensures e.op == OrOr ==> Placed(m, r, at + |l.code| + 7)
    ensures e.op != AndAnd && e.op != OrOr ==> Placed(m, r, at + |l.code|)
    ensures CodeAt(m.code, at, BinaryCode(e.op, l.code, r.code))
    ensures e.op == AndAnd || e.op == OrOr ==> 1 + |r.code| <= MAX_JUMP
    ensures |l.code| == Size(m.cmds, e.left) && |r.code| == Size(m.cmds, e.right)
  {
    hide CodeAt, Encode, BinaryCode, CompileBinary;
    l, r := PlacedBinary(m, locals, pool, e, at);
    SizeOfExpr(EnvOf(m), locals, pool, e.left);
    SizeOfExpr(EnvOf(m), locals, l.pool, e.right);
    if e.op == AndAnd { AndLayout(m.code, at, l.code, r.code); }
    else if e.op == OrOr { OrLayout(m.code, at, l.code, r.code); }
    else {
      OperatorLayout(m.code, at, e.op, l.code, r.code);
    }
  }

  lemma {:induction false} AssignStep(m: Image, locals: seq<Local>, pool: seq<Value>, e: Node, at: nat, base: nat, vm: Vm)
    requires e.Assign? && WfExpr(e) && Placed(m, CompileExpr(EnvOf(m), locals, pool, e), at)
    requires |locals| <= base && base + Need(e) <= MAX_STACK
    requires AtExpr(m.cmds, e, at, base, vm) && vm.ip < at + Size(m.cmds, e)
    ensures ExprGoes(m, e, at, base, vm)
    decreases e, 1
  {
    hide Step, Disciplined, CodeAt, Encode, SetVariable;
    var c := CompileExpr(EnvOf(m), locals, pool, e.expr);
    VariablePool(EnvOf(m), locals, c.pool, e.name);
    CodeAtSplit(m.code, at, c.code, SetVariable(m.h, locals, c.pool, e.name).code);
    SizeOfExpr(EnvOf(m), locals, pool, e.expr);
    if vm.ip < at + |c.code| {
      ExprStep(m, locals, pool, e.expr, at, base, vm);
    } else {
      HeightEnds(m.cmds, e.expr);
      SetStep(m, locals, c.pool, e.name, vm);
    }
  }

  lemma {:induction false} CallStep(m: Image, locals: seq<Local>, pool: seq<Value>, e: Node, at: nat, base: nat, vm: Vm)
    requires e.Call? && WfExpr(e) && Placed(m, CompileExpr(EnvOf(m), locals, pool, e), at)
    requires |locals| <= base && base + Need(e) <= MAX_STACK
    requires AtExpr(m.cmds, e, at, base, vm) && vm.ip < at + Size(m.cmds, e)
    ensures ExprGoes(m, e, at, base, vm)
    decreases e, 1
  {
    hide Step, Disciplined, CodeAt, Encode, CompileArgs;
    PlacedArgs(m, locals, pool, e, at);
    var c := CompileArgs(EnvOf(m), locals, pool, e.args);
    SizeOfArgs(EnvOf(m), locals, pool, e.args);
    if vm.ip < at + |c.code| {
      ArgsStep(m, locals, pool, e.args, at, base, vm);
    } else {
      HeightArgsEnds(m.cmds, e.args);
      InvocationStep(m, locals, pool, e, at, vm);
    }
  }

  /** Behind its arguments a call is one command instruction, or a read and a call of a value. */
  lemma InvocationStep(m: Image, locals: seq<Local>, pool: seq<Value>, e: Node, at: nat, vm: Vm)
    requires e.Call? && Placed(m, CompileCall(EnvOf(m), locals, pool, e), at)
    requires at + SizeArgs(m.cmds, e.args) <= vm.ip < at + Size(m.cmds, e)
    requires vm.ip > at + SizeArgs(m.cmds, e.args) ==> vm.ip == at + SizeArgs(m.cmds, e.args) + 2 && !IsNative(m.cmds, e.name)
    requires |locals| + |e.args| <= |vm.stack| <= MAX_STACK
    requires vm.ip == at + SizeArgs(m.cmds, e.args) ==> |vm.stack| < MAX_STACK
    ensures Disciplined(m, vm, false) && !Step(m, vm).Unsafe?
    ensures Step(m, vm).Running? ==>
      if IsNative(m.cmds, e.name) then Step(m, vm).vm.ip == vm.ip + 3 && |Step(m, vm).vm.stack| == |vm.stack| - |e.args| + 1
      else vm.ip == at + SizeArgs(m.cmds, e.args) && Step(m, vm).vm.ip == vm.ip + 2 && |Step(m, vm).vm.stack| == |vm.stack| + 1
  {
    hide Step, CodeAt, CompileArgs, Invoke, GetVariable, Disciplined;
    var c := CompileArgs(EnvOf(m), locals, pool, e.args);
    SizeOfArgs(EnvOf(m), locals, pool, e.args);
    PlacedInvocation(m, locals, pool, e, at);
    if IsNative(m.cmds, e.name) {
      InvokeStep(m, c.pool, e.name, |e.args|, vm);
    } else {
      ValueCallStep(m, locals, c.pool, e.name, |e.args|, at + |c.code|, vm);
    }
  }

  lemma PlacedInvocation(m: Image, locals: seq<Local>, pool: seq<Value>, e: Node, at: nat)
    requires e.Call? && Placed(m, CompileCall(EnvOf(m), locals, pool, e), at)
    ensures var c := CompileArgs(EnvOf(m), locals, pool, e.args);
      c.Emitted? && |e.args| < 256
      && if IsNative(m.cmds, e.name) then Placed(m, Invoke(m.h, c.pool, e.name, |e.args|), at + |c.code|)
         else
           var get := GetVariable(m.h, locals, c.pool, e.name);
           get.Emitted? && get.exact && get.pool <= m.consts
           && CodeAt(m.code, at + |c.code|, get.code + Encode(CallValue(|e.args|)))
  {
    hide CodeAt, CompileArgs, GetVariable, FindConstant, AddConstant, Encode;
    var c := CompileArgs(EnvOf(m), locals, pool, e.args);
    if IsNative(m.cmds, e.name) {
      CodeAtSplit(m.code, at, c.code, Invoke(m.h, c.pool, e.name, |e.args|).code);
    } else {
      var get := GetVariable(m.h, locals, c.pool, e.name);
      VariablePool(EnvOf(m), locals, c.pool, e.name);
      CodeAtSplit(m.code, at, c.code, get.code + Encode(CallValue(|e.args|)));
    }
  }

  lemma ValueCallStep(m: Image, locals: seq<Local>, pool: seq<Value>, name: string, argc: byte, at: nat, vm: Vm)
    requires var get := GetVariable(m.h, locals, pool, name);
      get.Emitted? && get.exact && get.pool <= m.consts && CodeAt(m.code, at, get.code + Encode(CallValue(argc)))
    requires vm.ip == at || vm.ip == at + 2
    requires |locals| <= |vm.stack| <= MAX_STACK && (vm.ip == at ==> |vm.stack| < MAX_STACK)
    ensures Disciplined(m, vm, false) && !Step(m, vm).Unsafe?
    ensures Step(m, vm).Running? ==>
      vm.ip == at && Step(m, vm).vm.ip == vm.ip + 2 && |Step(m, vm).vm.stack| == |vm.stack| + 1
  {
    hide Step, CodeAt, FindConstant, AddConstant, GetVariable, Disciplined;
    var get := GetVariable(m.h, locals, pool, name);
    VariableSize(m.h, locals, pool, name);
    CodeAtSplit(m.code, at, get.code, Encode(CallValue(argc)));
    if vm.ip == at { GetStep(m, locals, pool, name, vm); } else { CallValueFaults(m, vm, argc); }
  }

  lemma CallValueFaults(m: Image, vm: Vm, argc: byte)
    requires CodeAt(m.code, vm.ip, Encode(CallValue(argc))) && |vm.stack| <= MAX_STACK
    ensures Disciplined(m, vm, false) && Step(m, vm).Faulted?
  {
    hide CodeAt;
    StepEffect(m, vm, CallValue(argc));
  }

  lemma InvokeStep(m: Image, pool: seq<Value>, name: string, argc: nat, vm: Vm)
    requires Placed(m, Invoke(m.h, pool, name, argc), vm.ip)
    requires argc <= |vm.stack| && |vm.stack| - argc < MAX_STACK
    ensures Disciplined(m, vm, false) && !Step(m, vm).Unsafe?
    ensures Step(m, vm).Running? ==> Step(m, vm).vm.ip == vm.ip + 3 && |Step(m, vm).vm.stack| == |vm.stack| - argc + 1
  {
    hide Step, CodeAt, FindConstant, AddConstant;
    InPool(m, pool, Str(name));
    StepEffect(m, vm, CallCommand(PoolByte(m.h, pool, Str(name)), argc));
  }

  /** Arguments already evaluated stay below. */
  predicate AtArgs(cmds: Registry, args: seq<Node>, at: nat, base: nat, vm: Vm) {
    at <= vm.ip <= at + SizeArgs(cmds, args) && base <= |vm.stack| && HeightArgs(cmds, args, vm.ip - at) == |vm.stack| - base
  }

  ghost predicate ArgsGo(m: Image, args: seq<Node>, at: nat, base: nat, vm: Vm) {
    && Disciplined(m, vm, false)
    && !Step(m, vm).Unsafe?
    && (Step(m, vm).Running? ==> AtArgs(m.cmds, args, at, base, Step(m, vm).vm))
  }

  lemma {:induction false} ArgsStep(m: Image, locals: seq<Local>, pool: seq<Value>, args: seq<Node>, at: nat, base: nat, vm: Vm)
    requires WfArgs(args) && Placed(m, CompileArgs(EnvOf(m), locals, pool, args), at)
    requires |locals| <= base && base + NeedArgs(args) <= MAX_STACK
    requires AtArgs(m.cmds, args, at, base, vm) && vm.ip < at + SizeArgs(m.cmds, args)
    ensures ArgsGo(m, args, at, base, vm)
    decreases args, 0
  {
    hide Step, Disciplined, CodeAt, CompileExpr, CompileArgs, Height, Size;
    var c := PlacedFirst(m, locals, pool, args, at);
    HeightEnds(m.cmds, args[0]);
    HeightArgsEnds(m.cmds, args[1..]);
    if vm.ip < at + |c.code| {
      ExprStep(m, locals, pool, args[0], at, base, vm);
    } else {
      ArgsStep(m, locals, c.pool, args[1..], at + |c.code|, base + 1, vm);
    }
  }

  lemma PlacedFirst(m: Image, locals: seq<Local>, pool: seq<Value>, args: seq<Node>, at: nat) returns (c: Emitted)
    requires args != [] && Placed(m, CompileArgs(EnvOf(m), locals, pool, args), at)
    ensures c == CompileExpr(EnvOf(m), locals, pool, args[0]) && Placed(m, c, at)
    ensures Placed(m, CompileArgs(EnvOf(m), locals, c.pool, args[1..]), at + |c.code|)
    ensures |c.code| == Size(m.cmds, args[0])
  {
    hide CodeAt, CompileExpr, Size;
    c := CompileExpr(EnvOf(m), locals, pool, args[0]);
    var d := CompileArgs(EnvOf(m), locals, c.pool, args[1..]);
    ArgsPool(EnvOf(m), locals, c.pool, args[1..]);
    CodeAtSplit(m.code, at, c.code, d.code);
    SizeOfExpr(EnvOf(m), locals, pool, args[0]);
  }
}
