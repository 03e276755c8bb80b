/** The disassembler (bs_bytecode.c): a linear sweep over the bytes of a chunk.  On compiled code it
    visits exactly the starts of the emitted instructions, and every jump leads to one of them. */
module BsSweep {
  import opened BsAst
  import opened BsValue
  import opened BsScopes
  import opened BsBytecode
  import opened BsVm
  import opened BsCodegen
  import opened BsSlots
  import opened BsWellFormed
  import opened BsLocals
  import opened BsLayout
  import opened BsHeights
  import opened BsSimExpr
  import opened BsSimOperators
  import opened BsSimStmt
  import opened BsDiscipline
  import opened BsStackSafety
  import opened BsCorrectness
  import opened BsProgramSafety

  /** The sweep that starts at a comes to b. */
  predicate Sweeps(code: seq<byte>, a: nat, b: nat)
    decreases |code| - a
  {
    a == b || (a < b && Fetch(code, a).Fetched? && Sweeps(code, Fetch(code, a).next, b))
  }

  lemma {:induction false} SweepThrough(code: seq<byte>, a: nat, b: nat, k: nat)
    requires Sweeps(code, a, b) && b <= k
    ensures Sweeps(code, a, k) <==> Sweeps(code, b, k)
    decreases |code| - a
  {
    if a < b { SweepThrough(code, Fetch(code, a).next, b, k); }
  }

  /** One instruction is one step of the sweep, which skips its operands. */
  lemma SweepOne(code: seq<byte>, at: nat, i: Instr, k: nat)
    requires Encodable(i) && CodeAt(code, at, Encode(i))
    ensures Sweeps(code, at, at + |Encode(i)|)
    ensures k < |Encode(i)| ==> (Sweeps(code, at, at + k) <==> k == 0)
    ensures k >= |Encode(i)| ==> (Sweeps(code, at, at + k) <==> Sweeps(code, at + |Encode(i)|, at + k))
  {
    hide Encode, CodeAt;
    FetchEncode(code, at, i);
    assert Sweeps(code, at + |Encode(i)|, at + |Encode(i)|);
    if 0 < k < |Encode(i)| { assert !Sweeps(code, at + |Encode(i)|, at + k); }
  }

  // ----- Expressions -----

  lemma {:induction false} ExprSweep(m: Image, locals: seq<Local>, pool: seq<Value>, e: Node, at: nat, k: nat)
    requires WfExpr(e) && Placed(m, CompileExpr(EnvOf(m), locals, pool, e), at)
    requires k <= Size(m.cmds, e)
    ensures Sweeps(m.code, at, at + k) <==> Height(m.cmds, e, k) >= 0
    decreases e, 2
  {
    hide Sweeps, CodeAt, FindConstant, AddConstant, CompileArgs, CompileBinary, CompileCall;
    if e.Literal? || e.Identifier? {
      LeafSweep(m, locals, pool, e, at, k);
    } else if e.Unary? {
      PrefixSweep(m, locals, pool, e, at, k);
    } else if e.Assign? {
      AssignSweep(m, locals, pool, e, at, k);
    } else if e.Binary? {
      BinarySweep(m, locals, pool, e, at, k);
    } else {
      CallSweep(m, locals, pool, e, at, k);
    }
  }

  lemma LeafSweep(m: Image, locals: seq<Local>, pool: seq<Value>, e: Node, at: nat, k: nat)
    requires e.Literal? || e.Identifier?
    requires Placed(m, CompileExpr(EnvOf(m), locals, pool, e), at) && k <= Size(m.cmds, e)
    ensures Sweeps(m.code, at, at + k) <==> Height(m.cmds, e, k) >= 0
  {
    hide Sweeps, CodeAt, FindConstant, AddConstant;
    if e.Literal? {
      var i := if e.lit.Null? then PushNull else if e.lit.Bool? then (if e.lit.b then PushTrue else PushFalse)
               else Constant(PoolByte(m.h, pool, e.lit));
      SweepOne(m.code, at, i, k);
      SweepOne(m.code, at, i, 0);
    } else {
      VariableSweep(m, GetVariable(m.h, locals, pool, e.name), locals, pool, e.name, at, k);
    }
  }

  /** A read or write of a variable is one instruction of two bytes. */
  lemma VariableSweep(m: Image, r: Emitted, locals: seq<Local>, pool: seq<Value>, x: string, at: nat, k: nat)
    requires r == GetVariable(m.h, locals, pool, x) || r == SetVariable(m.h, locals, pool, x)
    requires r.Emitted? && CodeAt(m.code, at, r.code) && k <= 2
    ensures Sweeps(m.code, at, at + k) <==> k != 1
  {
    hide Sweeps, CodeAt, FindConstant, AddConstant;
    var slot := Resolve(locals, x);
    var c := PoolByte(m.h, pool, Str(x));
    var i := if r == GetVariable(m.h, locals, pool, x) then (if slot >= 0 then GetLocal(slot % 256) else GetGlobal(c))
             else (if slot >= 0 then SetLocal(slot % 256) else SetGlobal(c));
    SweepOne(m.code, at, i, k);
  }

  lemma {:induction false} PrefixSweep(m: Image, locals: seq<Local>, pool: seq<Value>, e: Node, at: nat, k: nat)
    requires e.Unary? && WfExpr(e) && Placed(m, CompileExpr(EnvOf(m), locals, pool, e), at)
    requires k <= Size(m.cmds, e)
    ensures Sweeps(m.code, at, at + k) <==> Height(m.cmds, e, k) >= 0
    decreases e, 1
  {
    hide Sweeps, CodeAt, Encode;
    var c := CompileExpr(EnvOf(m), locals, pool, e.operand);
    SizeOfExpr(EnvOf(m), locals, pool, e.operand);
    HeightEnds(m.cmds, e.operand);
    CodeAtSplit(m.code, at, c.code, UnaryCode(e.op));
    ExprSweep(m, locals, pool, e.operand, at, |c.code|);
    if k <= |c.code| {
      ExprSweep(m, locals, pool, e.operand, at, k);
    } else {
      SweepThrough(m.code, at, at + |c.code|, at + k);
      UnarySweep(m, e.op, at + |c.code|);
    }
  }

  lemma {:induction false} AssignSweep(m: Image, locals: seq<Local>, pool: seq<Value>, e: Node, at: nat, k: nat)
    requires e.Assign? && WfExpr(e) && Placed(m, CompileExpr(EnvOf(m), locals, pool, e), at)
    requires k <= Size(m.cmds, e)
    ensures Sweeps(m.code, at, at + k) <==> Height(m.cmds, e, k) >= 0
    decreases e, 1
  {
    hide Sweeps, CodeAt, Encode, SetVariable;
    var c := CompileExpr(EnvOf(m), locals, pool, e.expr);
    var store := SetVariable(m.h, locals, c.pool, e.name);
    SizeOfExpr(EnvOf(m), locals, pool, e.expr);
    HeightEnds(m.cmds, e.expr);
    VariablePool(EnvOf(m), locals, c.pool, e.name);
    CodeAtSplit(m.code, at, c.code, store.code);
    ExprSweep(m, locals, pool, e.expr, at, |c.code|);
    if k <= |c.code| {
      ExprSweep(m, locals, pool, e.expr, at, k);
    } else {
      SweepThrough(m.code, at, at + |c.code|, at + k);
      VariableSweep(m, store, locals, c.pool, e.name, at + |c.code|, k - |c.code|);
    }
  }

  lemma UnarySweep(m: Image, op: Op, at: nat)
    requires (op == Bang || op == Minus) && CodeAt(m.code, at, UnaryCode(op))
    ensures Sweeps(m.code, at, at + 1)
  {
    hide Sweeps, CodeAt;
    SweepOne(m.code, at, if op == Bang then Not else Negate, 1);
  }

  lemma {:induction false} BinarySweep(m: Image, locals: seq<Local>, pool: seq<Value>, e: Node, at: nat, k: nat)
    requires e.Binary? && WfExpr(e) && Placed(m, CompileExpr(EnvOf(m), locals, pool, e), at)
    requires k <= Size(m.cmds, e)
    ensures Sweeps(m.code, at, at + k) <==> Height(m.cmds, e, k) >= 0
    decreases e, 1
  {
    hide Sweeps, CodeAt, Encode, CompileExpr, BinaryCode, Height;
    var l, r := PlacedOperands(m, locals, pool, e, at);
    HeightEnds(m.cmds, e.left);
    HeightEnds(m.cmds, e.right);
    var s := |l.code|;
    ExprSweep(m, locals, pool, e.left, at, s);
    if k <= s {
      ExprSweep(m, locals, pool, e.left, at, k);
      LeftHeight(m.cmds, e, k);
    } else {
      SweepThrough(m.code, at, at + s, at + k);
      var right := at + s + if e.op == AndAnd then 4 else if e.op == OrOr then 7 else 0;
      ExprSweep(m, locals, l.pool, e.right, right, |r.code|);
      if right <= at + k <= right + |r.code| { ExprSweep(m, locals, l.pool, e.right, right, at + k - right); }
      if e.op == AndAnd { AndSweep(m, e, l.code, r.code, at, k); }
      else if e.op == OrOr { OrSweep(m, e, l.code, r.code, at, k); }
      else { OperatorSweep(m, e, l.code, r.code, at, k); }
    }
  }

  lemma LeftHeight(cmds: Registry, e: Node, k: nat)
    requires e.Binary? && k <= Size(cmds, e.left)
    ensures Height(cmds, e, k) == Height(cmds, e.left, k)
  {
  }

  /** The heights between and behind the operands. */
  lemma RightHeight(cmds: Registry, e: Node, k: nat)
    requires e.Binary? && (HasOpCode(e.op) || e.op == AndAnd || e.op == OrOr)
    requires Size(cmds, e.left) < k <= Size(cmds, e)
    ensures var l, r := Size(cmds, e.left), Size(cmds, e.right);
      && (e.op == AndAnd ==>
            && Size(cmds, e) == l + 4 + r
            && (k < l + 4 ==> (Height(cmds, e, k) >= 0 <==> k == l + 3))
            && (k >= l + 4 ==> Height(cmds, e, k) == Height(cmds, e.right, k - l - 4)))
      && (e.op == OrOr ==>
            && Size(cmds, e) == l + 7 + r
            && (k < l + 7 ==> (Height(cmds, e, k) >= 0 <==> k == l + 3 || k == l + 6))
            && (k >= l + 7 ==> Height(cmds, e, k) == Height(cmds, e.right, k - l - 7)))
      && (e.op != AndAnd && e.op != OrOr ==>
            && Size(cmds, e) == l + r + 1
            && (k <= l + r ==> (Height(cmds, e, k) >= 0 <==> Height(cmds, e.right, k - l) >= 0))
            && (k > l + r ==> Height(cmds, e, k) == 1))
  {
  }

  /** What stands between and behind the operands. */
  lemma AndSweep(m: Image, e: Node, lcode: seq<byte>, rcode: seq<byte>, at: nat, k: nat)
    requires e.Binary? && e.op == AndAnd && CodeAt(m.code, at, BinaryCode(e.op, lcode, rcode))
    requires |lcode| == Size(m.cmds, e.left) && |rcode| == Size(m.cmds, e.right) && 1 + |rcode| <= MAX_JUMP
    requires |lcode| < k <= Size(m.cmds, e)
    requires var right := at + |lcode| + 4;
      && Sweeps(m.code, right, right + |rcode|)
      && (right <= at + k <= right + |rcode| ==>
            (Sweeps(m.code, right, at + k) <==> Height(m.cmds, e.right, at + k - right) >= 0))
    ensures Sweeps(m.code, at + |lcode|, at + k) <==> Height(m.cmds, e, k) >= 0
  {
    hide Sweeps, CodeAt, Encode, BinaryCode, Height, Size;
    RightHeight(m.cmds, e, k);
    var a := at + |lcode|;
    var d := k - |lcode|;
    AndLayout(m.code, at, lcode, rcode);
    Sizes(1 + |rcode|, e.op);
    SweepOne(m.code, a, JumpIfFalse(1 + |rcode|), d);
    if d >= 3 { SweepOne(m.code, a + 3, Pop, d - 3); }
  }

  lemma OrSweep(m: Image, e: Node, lcode: seq<byte>, rcode: seq<byte>, at: nat, k: nat)
    requires e.Binary? && e.op == OrOr && CodeAt(m.code, at, BinaryCode(e.op, lcode, rcode))
    requires |lcode| == Size(m.cmds, e.left) && |rcode| == Size(m.cmds, e.right) && 1 + |rcode| <= MAX_JUMP
    requires |lcode| < k <= Size(m.cmds, e)
    requires var right := at + |lcode| + 7;
      && Sweeps(m.code, right, right + |rcode|)
      && (right <= at + k <= right + |rcode| ==>
            (Sweeps(m.code, right, at + k) <==> Height(m.cmds, e.right, at + k - right) >= 0))
    ensures Sweeps(m.code, at + |lcode|, at + k) <==> Height(m.cmds, e, k) >= 0
  {
    hide Sweeps, CodeAt, Encode, BinaryCode, Height, Size;
    RightHeight(m.cmds, e, k);
    var a := at + |lcode|;
    var d := k - |lcode|;
    OrLayout(m.code, at, lcode, rcode);
    OrJumps(m.code, a, 1 + |rcode|, d);
  }

  lemma OrJumps(code: seq<byte>, a: nat, d: short, k: nat)
    requires CodeAt(code, a, Encode(JumpIfFalse(3))) && CodeAt(code, a + 3, Encode(Jump(d))) && CodeAt(code, a + 6, Encode(Pop))
    ensures k < 7 ==> (Sweeps(code, a, a + k) <==> k % 3 == 0)
    ensures k >= 7 ==> (Sweeps(code, a, a + k) <==> Sweeps(code, a + 7, a + k))
  {
    hide Sweeps, CodeAt, Encode;
    Sizes(3, Plus);
    Sizes(d, Plus);
    SweepOne(code, a, JumpIfFalse(3), k);
    if k >= 3 { SweepOne(code, a + 3, Jump(d), k - 3); }
    if k >= 6 { SweepOne(code, a + 6, Pop, k - 6); }
  }

  lemma OperatorSweep(m: Image, e: Node, lcode: seq<byte>, rcode: seq<byte>, at: nat, k: nat)
    requires e.Binary? && e.op != AndAnd && e.op != OrOr && HasOpCode(e.op) && CodeAt(m.code, at, BinaryCode(e.op, lcode, rcode))
    requires |lcode| == Size(m.cmds, e.left) && |rcode| == Size(m.cmds, e.right)
    requires |lcode| < k <= Size(m.cmds, e)
    requires var right := at + |lcode|;
      && Sweeps(m.code, right, right + |rcode|)
      && (right <= at + k <= right + |rcode| ==>
            (Sweeps(m.code, right, at + k) <==> Height(m.cmds, e.right, at + k - right) >= 0))
    ensures Sweeps(m.code, at + |lcode|, at + k) <==> Height(m.cmds, e, k) >= 0
  {
    hide Sweeps, CodeAt, Encode, BinaryCode, Height, Size;
    RightHeight(m.cmds, e, k);
    var a := at + |lcode|;
    var d := k - |lcode|;
    OperatorLayout(m.code, at, e.op, lcode, rcode);
    Sizes(0, e.op);
    if k == |lcode| + |rcode| + 1 {
      SweepOne(m.code, a + |rcode|, BinaryOp(e.op), 1);
      SweepThrough(m.code, a, a + |rcode|, at + k);
    }
  }

  lemma {:induction false} CallSweep(m: Image, locals: seq<Local>, pool: seq<Value>, e: Node, at: nat, k: nat)
    requires e.Call? && WfExpr(e) && Placed(m, CompileExpr(EnvOf(m), locals, pool, e), at)
    requires k <= Size(m.cmds, e)
    ensures Sweeps(m.code, at, at + k) <==> Height(m.cmds, e, k) >= 0
    decreases e, 1
  {
    hide Sweeps, CodeAt, Encode, CompileArgs, GetVariable, Invoke, HeightArgs, SizeArgs;
    PlacedArgs(m, locals, pool, e, at);
    PlacedInvocation(m, locals, pool, e, at);
    var c := CompileArgs(EnvOf(m), locals, pool, e.args);
    SizeOfArgs(EnvOf(m), locals, pool, e.args);
    HeightArgsEnds(m.cmds, e.args);
    ArgsSweep(m, locals, pool, e.args, at, |c.code|);
    if k <= |c.code| {
      ArgsSweep(m, locals, pool, e.args, at, k);
    } else {
      SweepThrough(m.code, at, at + |c.code|, at + k);
      if IsNative(m.cmds, e.name) {
        InvokeSweep(m, c.pool, e.name, |e.args|, at + |c.code|, k - |c.code|);
      } else {
        ValueCallSweep(m, locals, c.pool, e.name, |e.args|, at + |c.code|, k - |c.code|);
      }
    }
  }

  lemma InvokeSweep(m: Image, pool: seq<Value>, name: string, argc: nat, at: nat, k: nat)
    requires CodeAt(m.code, at, Invoke(m.h, pool, name, argc).code) && k <= 3
    ensures Sweeps(m.code, at, at + k) <==> k == 0 || k == 3
  {
    hide Sweeps, CodeAt, FindConstant, AddConstant;
    SweepOne(m.code, at, CallCommand(PoolByte(m.h, pool, Str(name)), argc % 256), k);
  }

  lemma ValueCallSweep(m: Image, locals: seq<Local>, pool: seq<Value>, name: string, argc: byte, at: nat, k: nat)
    requires var get := GetVariable(m.h, locals, pool, name);
      get.Emitted? && CodeAt(m.code, at, get.code + Encode(CallValue(argc)))
    requires k <= 4
    ensures Sweeps(m.code, at, at + k) <==> k == 0 || k == 2 || k == 4
  {
    hide Sweeps, CodeAt, GetVariable;
    var get := GetVariable(m.h, locals, pool, name);
    VariableSize(m.h, locals, pool, name);
    CodeAtSplit(m.code, at, get.code, Encode(CallValue(argc)));
    VariableSweep(m, get, locals, pool, name, at, 2);
    if k <= 2 {
      VariableSweep(m, get, locals, pool, name, at, k);
    } else {
      SweepThrough(m.code, at, at + 2, at + k);
      SweepOne(m.code, at + 2, CallValue(argc), k - 2);
    }
  }

  lemma {:induction false} ArgsSweep(m: Image, locals: seq<Local>, pool: seq<Value>, args: seq<Node>, at: nat, k: nat)
    requires WfArgs(args) && Placed(m, CompileArgs(EnvOf(m), locals, pool, args), at)
    requires k <= SizeArgs(m.cmds, args)
    ensures Sweeps(m.code, at, at + k) <==> HeightArgs(m.cmds, args, k) >= 0
    decreases args, 0
  {
    hide Sweeps, CodeAt, CompileExpr, CompileArgs, Height, Size;
    if args == [] {
      SweepNothing(m.code, at);
    } else {
      var c := PlacedFirst(m, locals, pool, args, at);
      HeightEnds(m.cmds, args[0]);
      ExprSweep(m, locals, pool, args[0], at, |c.code|);
      if k <= |c.code| {
        ExprSweep(m, locals, pool, args[0], at, k);
      } else {
        SweepThrough(m.code, at, at + |c.code|, at + k);
        ArgsSweep(m, locals, c.pool, args[1..], at + |c.code|, k - |c.code|);
      }
    }
  }

  lemma SweepNothing(code: seq<byte>, at: nat)
    ensures Sweeps(code, at, at)
  {
  }

  // ----- Statements -----

  lemma {:induction false} StmtSweep(m: Image, locals: seq<Local>, depth: nat, pool: seq<Value>, n: Node, at: nat, k: nat)
    requires StmtInPlace(m, locals, depth, pool, n, at) && k <= SizeStmt(m.cmds, n, depth)
    ensures Sweeps(m.code, at, at + k) <==> StmtPoint(m.cmds, n, depth, k).Start?
    decreases n, 3
  {
    hide Sweeps, WfStmt, NeedStmt, CompileIf, CompileWhile, Size, SizeArgs, SizeStmts, Height, HeightArgs, StmtsPoint,
         IfPoint, WhilePoint;
    if n.VarDecl? {
      DeclSweep(m, locals, depth, pool, n, at, k);
    } else if n.ExprStmt? || n.Print? || n.Return? {
      SimpleSweep(m, locals, depth, pool, n, at, k);
    } else if n.CustomCall? {
      CommandSweep(m, locals, depth, pool, n, at, k);
    } else if n.Block? {
      BlockSweep(m, locals, depth, pool, n, at, k);
    } else if n.If? {
      IfSweep(m, locals, depth, pool, n, at, k);
    } else if n.While? {
      WhileSweep(m, locals, depth, pool, n, at, k);
    } else {
      SweepNothing(m.code, at);
    }
  }

  lemma OptionalSweep(m: Image, locals: seq<Local>, pool: seq<Value>, e: Node, at: nat, k: nat)
    requires e.Nil? || WfExpr(e)
    requires Placed(m, CompileOptional(EnvOf(m), locals, pool, e), at) && k <= SizeOptional(m.cmds, e)
    ensures Sweeps(m.code, at, at + k) <==> OptionalHeight(m.cmds, e, k) >= 0
  {
    hide Sweeps, CodeAt, CompileExpr, WfExpr, Height, Size;
    if e.Nil? { SweepOne(m.code, at, PushNull, k); } else { ExprSweep(m, locals, pool, e, at, k); }
  }

  /** Behind an expression one more instruction. */
  lemma ThenOne(code: seq<byte>, at: nat, size: nat, i: Instr, k: nat)
    requires Sweeps(code, at, at + size) && Encodable(i) && CodeAt(code, at + size, Encode(i))
    requires size < k <= size + |Encode(i)|
    ensures Sweeps(code, at, at + k) <==> k == size + |Encode(i)|
  {
    hide Sweeps, CodeAt, Encode;
    SweepThrough(code, at, at + size, at + k);
    SweepOne(code, at + size, i, k - size);
  }

  lemma SimpleSweep(m: Image, locals: seq<Local>, depth: nat, pool: seq<Value>, n: Node, at: nat, k: nat)
    requires (n.ExprStmt? || n.Print? || n.Return?) && StmtInPlace(m, locals, depth, pool, n, at)
    requires k <= SizeStmt(m.cmds, n, depth)
    ensures Sweeps(m.code, at, at + k) <==> StmtPoint(m.cmds, n, depth, k).Start?
  {
    hide Sweeps, CodeAt, Encode, CompileExpr, WfExpr, Height, Size, Need;
    var e := CompileOptional(EnvOf(m), locals, pool, n.expr);
    if n.expr.Nil? { NothingCompiled(EnvOf(m), locals, pool); }
    SizeOfOptional(EnvOf(m), locals, pool, n.expr);
    OptionalEnds(m.cmds, n.expr);
    CodeAtSplit(m.code, at, e.code, Encode(LastOf(n)));
    OptionalSweep(m, locals, pool, n.expr, at, |e.code|);
    if k <= |e.code| {
      OptionalSweep(m, locals, pool, n.expr, at, k);
    } else {
      LastSize(n);
      ThenOne(m.code, at, |e.code|, LastOf(n), k);
    }
  }

  lemma NothingCompiled(env: Env, locals: seq<Local>, pool: seq<Value>)
    ensures CompileExpr(env, locals, pool, Nil) == Failed
  {
  }

  lemma LastSize(n: Node)
    requires n.ExprStmt? || n.Print? || n.Return?
    ensures |Encode(LastOf(n))| == 1
  {
  }

  lemma DeclSweep(m: Image, locals: seq<Local>, depth: nat, pool: seq<Value>, n: Node, at: nat, k: nat)
    requires n.VarDecl? && StmtInPlace(m, locals, depth, pool, n, at) && k <= SizeStmt(m.cmds, n, depth)
    ensures Sweeps(m.code, at, at + k) <==> StmtPoint(m.cmds, n, depth, k).Start?
  {
    hide Sweeps, CodeAt, CompileOptional, WfExpr, OptionalHeight, SizeOptional, Need, FindConstant, AddConstant;
    var e := CompileOptional(EnvOf(m), locals, pool, n.expr);
    SizeOfOptional(EnvOf(m), locals, pool, n.expr);
    OptionalEnds(m.cmds, n.expr);
    if depth == 0 {
      AddConstantGrows(m.h, e.pool, Str(n.name));
      var i := DefineGlobal(PoolByte(m.h, e.pool, Str(n.name)));
      CodeAtSplit(m.code, at, e.code, Encode(i));
      OptionalSweep(m, locals, pool, n.expr, at, |e.code|);
      if k > |e.code| { ThenOne(m.code, at, |e.code|, i, k); }
    }
    if k <= |e.code| { OptionalSweep(m, locals, pool, n.expr, at, k); }
  }

  lemma CommandSweep(m: Image, locals: seq<Local>, depth: nat, pool: seq<Value>, n: Node, at: nat, k: nat)
    requires n.CustomCall? && StmtInPlace(m, locals, depth, pool, n, at) && k <= SizeStmt(m.cmds, n, depth)
    ensures Sweeps(m.code, at, at + k) <==> StmtPoint(m.cmds, n, depth, k).Start?
  {
    hide Sweeps, CodeAt, CompileArgs, Invoke, WfArgs, NeedArgs, HeightArgs, SizeArgs;
    var c := PlacedCustomCall(m, locals, depth, pool, n, at);
    SizeOfArgs(EnvOf(m), locals, pool, n.args);
    HeightArgsEnds(m.cmds, n.args);
    InvokeSize(m.h, c.pool, n.name, |n.args|);
    ArgsSweep(m, locals, pool, n.args, at, |c.code|);
    if k <= |c.code| {
      ArgsSweep(m, locals, pool, n.args, at, k);
    } else {
      SweepThrough(m.code, at, at + |c.code|, at + k);
      InvokeSweep(m, c.pool, n.name, |n.args|, at + |c.code|, 3);
      if k <= |c.code| + 3 { InvokeSweep(m, c.pool, n.name, |n.args|, at + |c.code|, k - |c.code|); }
      else { ThenOne(m.code, at + |c.code|, 3, Pop, 4); }
    }
  }

  lemma {:induction false} PopsSweep(code: seq<byte>, at: nat, n: nat, k: nat)
    requires CodeAt(code, at, Pops(n)) && k <= n
    ensures Sweeps(code, at, at + k)
    decreases k
  {
    hide Sweeps, CodeAt;
    if k == 0 {
      SweepNothing(code, at);
    } else {
      CodeAtSplit(code, at, Encode(Pop), Pops(n - 1));
      PopsSweep(code, at + 1, n - 1, k - 1);
      SweepOne(code, at, Pop, k);
    }
  }

  lemma {:induction false} BlockSweep(m: Image, locals: seq<Local>, depth: nat, pool: seq<Value>, n: Node, at: nat, k: nat)
    requires n.Block? && StmtInPlace(m, locals, depth, pool, n, at) && k <= SizeStmt(m.cmds, n, depth)
    ensures Sweeps(m.code, at, at + k) <==> StmtPoint(m.cmds, n, depth, k).Start?
    decreases n, 2
  {
    hide Sweeps, CodeAt, Encode, CompileStmts, WfStmts, NeedStmts, StmtsPoint, SizeStmts, Pops, KeepLocals;
    var c, inner := PlacedBlock(m, locals, depth, pool, n, at);
    LocalsAfterAll(EnvOf(m), locals, depth + 1, pool, n.stmts);
    assert inner == c.locals[|locals|..] == DeclaredIn(n.stmts, depth + 1);
    SizeOfStmts(EnvOf(m), locals, depth + 1, pool, n.stmts);
    PointsEnds(m.cmds, n.stmts, |locals|, depth + 1);
    StmtsSweep(m, locals, depth + 1, pool, n.stmts, at, |c.code|);
    if k <= |c.code| {
      StmtsSweep(m, locals, depth + 1, pool, n.stmts, at, k);
    } else {
      SweepThrough(m.code, at, at + |c.code|, at + k);
      PopsSweep(m.code, at + |c.code|, |inner|, k - |c.code|);
    }
  }

  lemma {:induction false} StmtsSweep(m: Image, locals: seq<Local>, depth: nat, pool: seq<Value>, stmts: seq<Node>, at: nat, k: nat)
    requires WfStmts(stmts, |locals|, depth) && DepthsOrdered(locals, depth)
    requires PlacedStmt(m, CompileStmts(EnvOf(m), locals, depth, pool, stmts), at)
    requires |locals| + NeedStmts(stmts, depth) <= MAX_STACK
    requires k <= SizeStmts(m.cmds, stmts, depth)
    ensures Sweeps(m.code, at, at + k) <==> StmtsPoint(m.cmds, stmts, depth, k).Start?
    decreases stmts, 0
  {
    hide Sweeps, CodeAt, CompileStmt, CompileStmts, WfStmt, NeedStmt, StmtPoint, SizeStmt;
    if stmts == [] {
      SweepNothing(m.code, at);
    } else {
      var c := PlacedHead(m, locals, depth, pool, stmts, at);
      PointEnds(m.cmds, stmts[0], |locals|, depth);
      StmtSweep(m, locals, depth, pool, stmts[0], at, |c.code|);
      if k < |c.code| {
        StmtSweep(m, locals, depth, pool, stmts[0], at, k);
      } else {
        SweepThrough(m.code, at, at + |c.code|, at + k);
        StmtsSweep(m, c.locals, depth, c.pool, stmts[1..], at + |c.code|, k - |c.code|);
      }
    }
  }

  lemma PlacedHead(m: Image, locals: seq<Local>, depth: nat, pool: seq<Value>, stmts: seq<Node>, at: nat) returns (c: Compiled)
    requires stmts != [] && WfStmts(stmts, |locals|, depth) && DepthsOrdered(locals, depth)
    requires PlacedStmt(m, CompileStmts(EnvOf(m), locals, depth, pool, stmts), at)
    ensures c == CompileStmt(EnvOf(m), locals, depth, pool, stmts[0]) && PlacedStmt(m, c, at)
    ensures |c.code| == SizeStmt(m.cmds, stmts[0], depth)
    ensures c.locals == locals + NewLocals(stmts[0], depth) && DepthsOrdered(c.locals, depth)
    ensures PlacedStmt(m, CompileStmts(EnvOf(m), c.locals, depth, c.pool, stmts[1..]), at + |c.code|)
  {
    hide CodeAt, CompileStmt, SizeStmt, WfStmt;
    c := CompileStmt(EnvOf(m), locals, depth, pool, stmts[0]);
    var d := CompileStmts(EnvOf(m), c.locals, depth, c.pool, stmts[1..]);
    StmtsPool(EnvOf(m), c.locals, depth, c.pool, stmts[1..]);
    CodeAtSplit(m.code, at, c.code, d.code);
    LocalsAfter(EnvOf(m), locals, depth, pool, stmts[0]);
    SizeOfStmt(EnvOf(m), locals, depth, pool, stmts[0]);
    OrderedWith(locals, NewLocals(stmts[0], depth), depth);
  }

  /** A condition's jump and the pop behind it. */
  lemma BranchSweep(code: seq<byte>, a: nat, d: short, k: nat)
    requires CodeAt(code, a, Encode(JumpIfFalse(d))) && CodeAt(code, a + 3, Encode(Pop))
    ensures k < 4 ==> (Sweeps(code, a, a + k) <==> k == 0 || k == 3)
    ensures k >= 4 ==> (Sweeps(code, a, a + k) <==> Sweeps(code, a + 4, a + k))
  {
    hide Sweeps, CodeAt, Encode;
    Sizes(d, Plus);
    SweepOne(code, a, JumpIfFalse(d), k);
    if k >= 3 { SweepOne(code, a + 3, Pop, k - 3); }
  }

  lemma {:induction false} IfSweep(m: Image, locals: seq<Local>, depth: nat, pool: seq<Value>, n: Node, at: nat, k: nat)
    requires n.If? && WfStmt(n, |locals|, depth) && DepthsOrdered(locals, depth)
    requires PlacedStmt(m, CompileIf(EnvOf(m), locals, depth, pool, n), at) && |locals| + NeedStmt(n, depth) <= MAX_STACK
    requires k <= SizeStmt(m.cmds, n, depth)
    ensures Sweeps(m.code, at, at + k) <==> StmtPoint(m.cmds, n, depth, k).Start?
    decreases n, 2
  {
    hide Sweeps, CodeAt, CompileExpr, CompileIf, CompileBranches, WfExpr, Height, Size, StmtPoint;
    var c := PlacedIf(m, locals, depth, pool, n, at);
    IfPoints(m.cmds, n, depth);
    HeightEnds(m.cmds, n.cond);
    ExprSweep(m, locals, pool, n.cond, at, |c.code|);
    if k <= |c.code| {
      ExprSweep(m, locals, pool, n.cond, at, k);
    } else {
      SweepThrough(m.code, at, at + |c.code|, at + k);
      if n.elseBranch.Nil? { ThenSweep(m, locals, depth, c.pool, n, at + |c.code|, k); }
      else { ThenElseSweep(m, locals, depth, c.pool, n, at + |c.code|, k); }
    }
  }

  lemma {:induction false} ThenSweep(m: Image, locals: seq<Local>, depth: nat, pool: seq<Value>, n: Node, a: nat, k: nat)
    requires n.If? && n.elseBranch.Nil? && WfStmt(n, |locals|, depth) && DepthsOrdered(locals, depth)
    requires PlacedStmt(m, CompileBranches(EnvOf(m), locals, depth, pool, n), a) && |locals| + NeedStmt(n, depth) <= MAX_STACK
    requires Size(m.cmds, n.cond) < k <= SizeStmt(m.cmds, n, depth)
    ensures Sweeps(m.code, a, a + k - Size(m.cmds, n.cond)) <==> IfPoint(m.cmds, n, depth, k).Start?
    decreases n, 1
  {
    hide Sweeps, CodeAt, CompileStmt, IfCode, WfExpr, Height, Size, StmtPoint, Encode;
    var t := CompileStmt(EnvOf(m), locals, depth, pool, n.thenBranch);
    IfLayout(m.code, a, t.code);
    SizeOfStmt(EnvOf(m), locals, depth, pool, n.thenBranch);
    PointEnds(m.cmds, n.thenBranch, |locals|, depth);
    var d := k - Size(m.cmds, n.cond);
    BranchSweep(m.code, a, 1 + |t.code|, d);
    if d >= 4 {
      StmtSweep(m, locals, depth, pool, n.thenBranch, a + 4, |t.code|);
      if d < 4 + |t.code| { StmtSweep(m, locals, depth, pool, n.thenBranch, a + 4, d - 4); }
      else { SweepThrough(m.code, a + 4, a + 4 + |t.code|, a + d); Sizes(0, Plus); SweepOne(m.code, a + 4 + |t.code|, Pop, d - 4 - |t.code|); }
    }
  }

  lemma {:induction false} ThenElseSweep(m: Image, locals: seq<Local>, depth: nat, pool: seq<Value>, n: Node, a: nat, k: nat)
    requires n.If? && !n.elseBranch.Nil? && WfStmt(n, |locals|, depth) && DepthsOrdered(locals, depth)
    requires PlacedStmt(m, CompileBranches(EnvOf(m), locals, depth, pool, n), a) && |locals| + NeedStmt(n, depth) <= MAX_STACK
    requires Size(m.cmds, n.cond) < k <= SizeStmt(m.cmds, n, depth)
    ensures Sweeps(m.code, a, a + k - Size(m.cmds, n.cond)) <==> IfPoint(m.cmds, n, depth, k).Start?
    decreases n, 1
  {
    hide Sweeps, CodeAt, CompileStmt, IfElseCode, WfExpr, Height, Size, StmtPoint, Encode;
    var t := CompileStmt(EnvOf(m), locals, depth, pool, n.thenBranch);
    LocalsAfter(EnvOf(m), locals, depth, pool, n.thenBranch);
    assert t.locals == locals;
    var e := CompileStmt(EnvOf(m), locals, depth, t.pool, n.elseBranch);
    StmtPool(EnvOf(m), locals, depth, t.pool, n.elseBranch);
    IfElseLayout(m.code, a, t.code, e.code);
    SizeOfStmt(EnvOf(m), locals, depth, pool, n.thenBranch);
    SizeOfStmt(EnvOf(m), locals, depth, t.pool, n.elseBranch);
    PointEnds(m.cmds, n.thenBranch, |locals|, depth);
    var d := k - Size(m.cmds, n.cond);
    BranchSweep(m.code, a, |t.code| + 4, d);
    if d >= 4 {
      StmtSweep(m, locals, depth, pool, n.thenBranch, a + 4, |t.code|);
      if d <= 4 + |t.code| { StmtSweep(m, locals, depth, pool, n.thenBranch, a + 4, d - 4); }
      else {
        SweepThrough(m.code, a + 4, a + 4 + |t.code|, a + d);
        ElseJumpSweep(m.code, a + 4 + |t.code|, 1 + |e.code|, d - 4 - |t.code|);
        if d >= 8 + |t.code| { StmtSweep(m, locals, depth, t.pool, n.elseBranch, a + 8 + |t.code|, d - 8 - |t.code|); }
      }
    }
  }

  /** The jump over the else branch and the pop of its side. */
  lemma ElseJumpSweep(code: seq<byte>, a: nat, d: short, k: nat)
    requires CodeAt(code, a, Encode(Jump(d))) && CodeAt(code, a + 3, Encode(Pop))
    ensures k < 4 ==> (Sweeps(code, a, a + k) <==> k == 0 || k == 3)
    ensures k >= 4 ==> (Sweeps(code, a, a + k) <==> Sweeps(code, a + 4, a + k))
  {
    hide Sweeps, CodeAt, Encode;
    Sizes(d, Plus);
    SweepOne(code, a, Jump(d), k);
    if k >= 3 { SweepOne(code, a + 3, Pop, k - 3); }
  }

  lemma {:induction false} WhileSweep(m: Image, locals: seq<Local>, depth: nat, pool: seq<Value>, n: Node, at: nat, k: nat)
    requires n.While? && WfStmt(n, |locals|, depth) && DepthsOrdered(locals, depth)
    requires PlacedStmt(m, CompileWhile(EnvOf(m), locals, depth, pool, n), at) && |locals| + NeedStmt(n, depth) <= MAX_STACK
    requires k <= SizeStmt(m.cmds, n, depth)
    ensures Sweeps(m.code, at, at + k) <==> StmtPoint(m.cmds, n, depth, k).Start?
    decreases n, 2
  {
    hide Sweeps, CodeAt, CompileExpr, CompileStmt, WhileCode, WfExpr, Height, Size, StmtPoint, Encode;
    WhilePoints(m.cmds, n, depth);
    var c := CompileExpr(EnvOf(m), locals, pool, n.cond);
    var b := CompileStmt(EnvOf(m), locals, depth, c.pool, n.body);
    StmtPool(EnvOf(m), locals, depth, c.pool, n.body);
    WhileLayout(m.code, at, c.code, b.code);
    SizeOfExpr(EnvOf(m), locals, pool, n.cond);
    SizeOfStmt(EnvOf(m), locals, depth, c.pool, n.body);
    HeightEnds(m.cmds, n.cond);
    PointEnds(m.cmds, n.body, |locals|, depth);
    ExprSweep(m, locals, pool, n.cond, at, |c.code|);
    if k <= |c.code| {
      ExprSweep(m, locals, pool, n.cond, at, k);
    } else {
      var a, d := at + |c.code|, k - |c.code|;
      SweepThrough(m.code, at, a, at + k);
      BranchSweep(m.code, a, |b.code| + 4, d);
      if d >= 4 {
        StmtSweep(m, locals, depth, c.pool, n.body, a + 4, |b.code|);
        if d <= 4 + |b.code| { StmtSweep(m, locals, depth, c.pool, n.body, a + 4, d - 4); }
        else {
          SweepThrough(m.code, a + 4, a + 4 + |b.code|, a + d);
          BackSweep(m.code, a + 4 + |b.code|, |c.code| + |b.code| + 7, d - 4 - |b.code|);
        }
      }
    }
  }

  /** The jump back and the pop behind the loop. */
  lemma BackSweep(code: seq<byte>, a: nat, d: short, k: nat)
    requires CodeAt(code, a, Encode(Loop(d))) && CodeAt(code, a + 3, Encode(Pop)) && k <= 4
    ensures Sweeps(code, a, a + k) <==> k == 0 || k == 3 || k == 4
  {
    hide Sweeps, CodeAt, Encode;
    Sizes(d, Plus);
    SweepOne(code, a, Loop(d), k);
    if k >= 3 { SweepOne(code, a + 3, Pop, k - 3); SweepNothing(code, a + 3); }
  }
}
