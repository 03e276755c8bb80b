/** The code generator in its own form: bytes appended to a growing chunk (bs_bytecode.c), jumps
    written with a placeholder and patched afterwards, locals pushed and popped (bs_codegen.c).
    Each method appends exactly the code of the corresponding function of BsCodegen, whose jump
    distances come from the lengths of the parts: back-patching computes the same bytes. */
module BsCompiler {
  import opened BsAst
  import opened BsValue
  import opened BsBytecode
  import opened BsCodegen

  class Chunk {
    var code: array<byte>
    var count: nat
    var constants: array<Value>
    var constCount: nat
    ghost var Repr: set<object>

    ghost predicate Valid()
      reads this, Repr
    {
      && Repr == {this, code, constants}
      && count <= code.Length
      && constCount <= constants.Length
    }

    ghost function Code(): seq<byte>
      requires Valid()
      reads this, Repr
    {
      code[..count]
    }

    ghost function Pool(): seq<Value>
      requires Valid()
      reads this, Repr
    {
      constants[..constCount]
    }

    constructor ()
      ensures Valid() && fresh(Repr)
      ensures Code() == [] && Pool() == []
    {
      code := new byte[0];
      constants := new Value[0];
      count, constCount := 0, 0;
      Repr := {this, code, constants};
    }

    /** bs_chunk_write: the array doubles when it is full. */
    method Write(b: byte)
      requires Valid()
      modifies Repr
      ensures Valid() && fresh(Repr - old(Repr))
      ensures Code() == old(Code()) + [b]
      ensures Pool() == old(Pool())
    {
      if count + 1 > code.Length {
        var newCap := if code.Length < 8 then 8 else code.Length * 2;
        var grown := new byte[newCap](_ => 0);
        forall i | 0 <= i < count { grown[i] := code[i]; }
        code := grown;
        Repr := {this, code, constants};
      }
      assert code[..count] == old(Code());
      code[count] := b;
      count := count + 1;
      assert code[..count] == old(Code()) + [b];
    }

    /** Two bytes written earlier are overwritten. */
    method Patch(offset: nat, high: byte, low: byte)
      requires Valid() && offset + 1 < count
      modifies Repr
      ensures Valid() && Repr == old(Repr)
      ensures Code() == old(Code())[offset := high][offset + 1 := low]
      ensures Pool() == old(Pool())
    {
      code[offset] := high;
      code[offset + 1] := low;
    }

    /** bs_chunk_add_constant: the first equal constant is reused. */
    method Add(h: Host, v: Value) returns (index: nat)
      requires Valid()
      modifies Repr
      ensures Valid() && fresh(Repr - old(Repr))
      ensures index == FindConstant(h, old(Pool()), v)
      ensures Pool() == AddConstant(h, old(Pool()), v)
      ensures Code() == old(Code())
    {
      hide FindConstant, ValuesEqual;
      index := Find(h, v);
      if index == constCount { Append(v); }
    }

    method Find(h: Host, v: Value) returns (index: nat)
      requires Valid()
      ensures index == FindConstant(h, Pool(), v)
    {
      hide ValuesEqual;
      index := 0;
      while index < constCount && !ValuesEqual(h, constants[index], v)
        invariant index <= constCount
        invariant forall i :: 0 <= i < index ==> !ValuesEqual(h, Pool()[i], v)
      {
        index := index + 1;
      }
      FindConstantIs(h, Pool(), v, index);
    }

    /** The array doubles when it is full. */
    method Append(v: Value)
      requires Valid()
      modifies Repr
      ensures Valid() && fresh(Repr - old(Repr))
      ensures Pool() == old(Pool()) + [v]
      ensures Code() == old(Code())
    {
      ghost var pool := Pool();
      if constCount + 1 > constants.Length {
        var newCap := if constants.Length < 8 then 8 else constants.Length * 2;
        var grown := new Value[newCap](_ => Null);
        forall i | 0 <= i < constCount { grown[i] := constants[i]; }
        constants := grown;
        Repr := {this, code, constants};
      }
      assert constants[..constCount] == pool;
      constants[constCount] := v;
      constCount := constCount + 1;
      assert constants[..constCount] == pool + [v];
    }
  }

  lemma FindConstantIs(h: Host, pool: seq<Value>, v: Value, k: nat)
    requires k <= |pool| && (k < |pool| ==> ValuesEqual(h, pool[k], v))
    requires forall i :: 0 <= i < k ==> !ValuesEqual(h, pool[i], v)
    ensures FindConstant(h, pool, v) == k
  {
    var f := FindConstant(h, pool, v);
  }

  /** A placeholder between what was before and what follows gives way to the distance. */
  lemma Patched(before: seq<byte>, op: byte, high: byte, low: byte, rest: seq<byte>)
    ensures (before + ([op, 255, 255] + rest))[|before| + 1 := high][|before| + 2 := low]
         == before + ([op, high, low] + rest)
  {
  }

  class Compiler {
    const chunk: Chunk
    const env: Env
    var locals: seq<Local>
    var scopeDepth: nat

    ghost predicate Valid()
      reads this, chunk, chunk.Repr
    {
      chunk.Valid() && this !in chunk.Repr
    }

    constructor (chunk: Chunk, env: Env)
      requires chunk.Valid()
      ensures Valid() && this.chunk == chunk && this.env == env
      ensures locals == [] && scopeDepth == 0
      ensures chunk.Code() == old(chunk.Code()) && chunk.Pool() == old(chunk.Pool())
    {
      this.chunk := chunk;
      this.env := env;
      locals, scopeDepth := [], 0;
    }

    /** One instruction without a jump. */
    method Emit(i: Instr)
      requires Valid()
      modifies chunk.Repr
      ensures Valid() && fresh(chunk.Repr - old(chunk.Repr))
      ensures chunk.Code() == old(chunk.Code()) + Encode(i) && chunk.Pool() == old(chunk.Pool())
    {
      var bytes := Encode(i);
      hide Encode;
      var k := 0;
      while k < |bytes|
        invariant k <= |bytes| && Valid() && fresh(chunk.Repr - old(chunk.Repr))
        invariant chunk.Code() == old(chunk.Code()) + bytes[..k] && chunk.Pool() == old(chunk.Pool())
      {
        chunk.Write(bytes[k]);
        k := k + 1;
      }
    }

    /** emit_jump: the opcode and a placeholder of two bytes, whose position is returned. */
    method EmitJump(op: byte) returns (offset: nat)
      requires Valid()
      modifies chunk.Repr
      ensures Valid() && fresh(chunk.Repr - old(chunk.Repr))
      ensures chunk.Code() == old(chunk.Code()) + [op, 255, 255] && chunk.Pool() == old(chunk.Pool())
      ensures offset == |old(chunk.Code())| + 1
    {
      chunk.Write(op);
      chunk.Write(255);
      chunk.Write(255);
      offset := chunk.count - 2;
      assert chunk.Code() == old(chunk.Code()) + [op, 255, 255];
    }

    /** patch_jump: the distance from behind the placeholder to here, cut to 16 bits. */
    method PatchJump(offset: nat, ghost before: seq<byte>, ghost op: byte, ghost rest: seq<byte>)
      requires Valid()
      requires chunk.Code() == before + ([op, 255, 255] + rest) && offset == |before| + 1
      modifies chunk.Repr
      ensures Valid() && fresh(chunk.Repr - old(chunk.Repr))
      ensures chunk.Pool() == old(chunk.Pool())
      ensures chunk.Code() == before + ([op, |rest| / 256 % 256, |rest| % 256] + rest)
    {
      var jump := chunk.count - offset - 2;
      assert jump == |rest|;
      chunk.Patch(offset, jump / 256 % 256, jump % 256);
      Patched(before, op, jump / 256 % 256, jump % 256, rest);
    }

    /** emit_loop: a jump back to loop_start, over its own three bytes. */
    method EmitLoop(loopStart: nat)
      requires Valid() && loopStart <= |chunk.Code()|
      modifies chunk.Repr
      ensures Valid() && fresh(chunk.Repr - old(chunk.Repr))
      ensures chunk.Pool() == old(chunk.Pool())
      ensures chunk.Code() == old(chunk.Code()) + Encode(Loop((|old(chunk.Code())| - loopStart + 3) % 65536))
    {
      hide Encode;
      chunk.Write(26);
      var offset := chunk.count - loopStart + 2;
      var high, low := offset / 256 % 256, offset % 256;
      LoopBytes(offset);
      chunk.Write(high);
      chunk.Write(low);
      assert chunk.Code() == old(chunk.Code()) + Encode(Loop(offset % 65536));
    }

    /** A read of a local slot or of a global by name. */
    method EmitGet(x: string)
      requires Valid()
      modifies chunk.Repr
      ensures Valid() && fresh(chunk.Repr - old(chunk.Repr))
      ensures var r := GetVariable(env.h, locals, old(chunk.Pool()), x);
        r.Emitted? && chunk.Code() == old(chunk.Code()) + r.code && chunk.Pool() == r.pool
    {
      hide Chunk.Code, Chunk.Pool, Chunk.Valid;
      var i := ResolveLocal(x);
      if i >= 0 {
        Emit(GetLocal(i % 256));
      } else {
        var k := chunk.Add(env.h, Str(x));
        Emit(GetGlobal(k % 256));
      }
    }

    method EmitSet(x: string)
      requires Valid()
      modifies chunk.Repr
      ensures Valid() && fresh(chunk.Repr - old(chunk.Repr))
      ensures var r := SetVariable(env.h, locals, old(chunk.Pool()), x);
        r.Emitted? && chunk.Code() == old(chunk.Code()) + r.code && chunk.Pool() == r.pool
    {
      hide Chunk.Code, Chunk.Pool, Chunk.Valid;
      var i := ResolveLocal(x);
      if i >= 0 {
        Emit(SetLocal(i % 256));
      } else {
        var k := chunk.Add(env.h, Str(x));
        Emit(SetGlobal(k % 256));
      }
    }

    /** resolve_local: from the newest local down. */
    method ResolveLocal(x: string) returns (i: int)
      ensures i == Resolve(locals, x)
    {
      i := |locals| - 1;
      while i >= 0 && locals[i].name != x
        invariant -1 <= i < |locals|
        invariant forall j :: i < j < |locals| ==> locals[j].name != x
        decreases i
      {
        i := i - 1;
      }
      ghost var r := Resolve(locals, x);
    }

    method EmitInvoke(name: string, argc: nat)
      requires Valid()
      modifies chunk.Repr
      ensures Valid() && fresh(chunk.Repr - old(chunk.Repr))
      ensures var r := Invoke(env.h, old(chunk.Pool()), name, argc);
        r.Emitted? && chunk.Code() == old(chunk.Code()) + r.code && chunk.Pool() == r.pool
    {
      hide Chunk.Code, Chunk.Pool, Chunk.Valid;
      var k := chunk.Add(env.h, Str(name));
      Emit(CallCommand(k % 256, argc % 256));
    }

    /** compile_expr */
    method EmitExpr(e: Node) returns (ok: bool)
      requires Valid()
      modifies chunk.Repr
      ensures Valid() && fresh(chunk.Repr - old(chunk.Repr))
      ensures var r := CompileExpr(env, locals, old(chunk.Pool()), e);
        ok == r.Emitted? && (ok ==> chunk.Code() == old(chunk.Code()) + r.code && chunk.Pool() == r.pool)
      decreases e, 2
    {
      hide GetVariable, SetVariable, CompileBinary, CompileCall, Encode, FindConstant, AddConstant, Chunk.Code,
           Chunk.Pool, Chunk.Valid;
      ok := true;
      if e.Nil? {
        ok := false;
      } else if e.Literal? {
        EmitLiteral(e);
      } else if e.Identifier? {
        EmitGet(e.name);
      } else if e.Unary? {
        ok := EmitExpr(e.operand);
        if ok { EmitUnary(e.op); }
      } else if e.Binary? {
        ok := EmitBinary(e);
      } else if e.Assign? {
        ok := EmitExpr(e.expr);
        if ok { EmitSet(e.name); }
      } else if e.Call? {
        ok := EmitCall(e);
      }
    }

    method EmitLiteral(e: Node)
      requires Valid() && e.Literal?
      modifies chunk.Repr
      ensures Valid() && fresh(chunk.Repr - old(chunk.Repr))
      ensures var r := CompileExpr(env, locals, old(chunk.Pool()), e);
        r.Emitted? && chunk.Code() == old(chunk.Code()) + r.code && chunk.Pool() == r.pool
    {
      hide Chunk.Code, Chunk.Pool, Chunk.Valid;
      var v := e.lit;
      if v.Null? {
        Emit(PushNull);
      } else if v.Bool? {
        Emit(if v.b then PushTrue else PushFalse);
      } else {
        var k := chunk.Add(env.h, v);
        Emit(Constant(k % 256));
      }
    }

    method EmitUnary(op: Op)
      requires Valid()
      modifies chunk.Repr
      ensures Valid() && fresh(chunk.Repr - old(chunk.Repr))
      ensures chunk.Code() == old(chunk.Code()) + UnaryCode(op) && chunk.Pool() == old(chunk.Pool())
    {
      hide Chunk.Code, Chunk.Pool, Chunk.Valid;
      if op == Bang { Emit(Not); } else if op == Minus { Emit(Negate); }
    }

    method EmitBinary(e: Node) returns (ok: bool)
      requires Valid() && e.Binary?
      modifies chunk.Repr
      ensures Valid() && fresh(chunk.Repr - old(chunk.Repr))
      ensures var r := CompileBinary(env, locals, old(chunk.Pool()), e);
        ok == r.Emitted? && (ok ==> chunk.Code() == old(chunk.Code()) + r.code && chunk.Pool() == r.pool)
      decreases e, 1
    {
      hide CompileExpr, BinaryCode, Chunk.Code, Chunk.Pool, Chunk.Valid;
      ghost var c0 := chunk.Code();
      ghost var l := CompileExpr(env, locals, chunk.Pool(), e.left);
      ok := EmitExpr(e.left);
      if ok { ok := EmitRight(e, c0, l.code); }
    }

    /** && and || jump over their right operand; the distance is patched in behind it. */
    method EmitRight(e: Node, ghost c0: seq<byte>, ghost lcode: seq<byte>) returns (ok: bool)
      requires Valid() && e.Binary? && chunk.Code() == c0 + lcode
      modifies chunk.Repr
      ensures Valid() && fresh(chunk.Repr - old(chunk.Repr))
      ensures var r := CompileExpr(env, locals, old(chunk.Pool()), e.right);
        ok == r.Emitted?
        && (ok ==> chunk.Code() == c0 + BinaryCode(e.op, lcode, r.code) && chunk.Pool() == r.pool)
      decreases e, 0
    {
      hide CompileExpr, BinaryCode, Chunk.Code, Chunk.Pool, Chunk.Valid;
      ghost var c1 := chunk.Code();
      ghost var r := CompileExpr(env, locals, chunk.Pool(), e.right);
      if e.op == AndAnd {
        var jump := EmitJump(25);
        Emit(Pop);
        ok := EmitExpr(e.right);
        if ok { EndAnd(jump, c0, c1, lcode, r.code); }
      } else if e.op == OrOr {
        var jumpTrue := BeginOr();
        ok := EmitExpr(e.right);
        if ok { EndOr(jumpTrue, c0, c1, lcode, r.code); }
      } else {
        ok := EmitExpr(e.right);
        if ok { EndOperator(e.op, c0, lcode, r.code); }
      }
    }

    method BeginOr() returns (jumpTrue: nat)
      requires Valid()
      modifies chunk.Repr
      ensures Valid() && fresh(chunk.Repr - old(chunk.Repr))
      ensures jumpTrue == |old(chunk.Code())| + 4 && chunk.Pool() == old(chunk.Pool())
      ensures chunk.Code() == old(chunk.Code()) + ([25, 0, 3] + [24, 255, 255]) + Encode(Pop)
    {
      hide Chunk.Code, Chunk.Pool, Chunk.Valid;
      ghost var c1 := chunk.Code();
      var jumpFalse := EmitJump(25);
      jumpTrue := EmitJump(24);
      assert chunk.Code() == c1 + ([25, 255, 255] + [24, 255, 255]);
      PatchJump(jumpFalse, c1, 25, [24, 255, 255]);
      Emit(Pop);
    }

    method EndOperator(op: Op, ghost c0: seq<byte>, ghost lcode: seq<byte>, ghost rcode: seq<byte>)
      requires Valid() && op != AndAnd && op != OrOr
      requires chunk.Code() == c0 + lcode + rcode
      modifies chunk.Repr
      ensures Valid() && fresh(chunk.Repr - old(chunk.Repr))
      ensures chunk.Code() == c0 + BinaryCode(op, lcode, rcode) && chunk.Pool() == old(chunk.Pool())
    {
      hide Chunk.Code, Chunk.Pool, Chunk.Valid;
      if HasOpCode(op) { Emit(BinaryOp(op)); }
    }

    /** Patching the jump of &&. */
    method EndAnd(jump: nat, ghost c0: seq<byte>, ghost c1: seq<byte>, ghost lcode: seq<byte>, ghost rcode: seq<byte>)
      requires Valid()
      requires c1 == c0 + lcode && jump == |c1| + 1
      requires chunk.Code() == c1 + [25, 255, 255] + Encode(Pop) + rcode
      modifies chunk.Repr
      ensures Valid() && fresh(chunk.Repr - old(chunk.Repr))
      ensures chunk.Code() == c0 + BinaryCode(AndAnd, lcode, rcode) && chunk.Pool() == old(chunk.Pool())
    {
      hide Chunk.Code, Chunk.Pool, Chunk.Valid;
      ghost var rest := Encode(Pop) + rcode;
      assert chunk.Code() == c1 + ([25, 255, 255] + rest);
      PatchJump(jump, c1, 25, rest);
      JumpBytes(|rest|);
      assert chunk.Code() == c0 + (lcode + (Encode(JumpIfFalse(|rest| % 65536)) + rest));
    }

    method EndOr(jump: nat, ghost c0: seq<byte>, ghost c1: seq<byte>, ghost lcode: seq<byte>, ghost rcode: seq<byte>)
      requires Valid()
      requires c1 == c0 + lcode && jump == |c1| + 4
      requires chunk.Code() == c1 + ([25, 0, 3] + [24, 255, 255]) + Encode(Pop) + rcode
      modifies chunk.Repr
      ensures Valid() && fresh(chunk.Repr - old(chunk.Repr))
      ensures chunk.Code() == c0 + BinaryCode(OrOr, lcode, rcode) && chunk.Pool() == old(chunk.Pool())
    {
      hide Chunk.Code, Chunk.Pool, Chunk.Valid;
      ghost var rest := Encode(Pop) + rcode;
      ghost var before := c1 + [25, 0, 3];
      assert chunk.Code() == before + ([24, 255, 255] + rest);
      PatchJump(jump, before, 24, rest);
      JumpBytes(|rest|);
      JumpBytes(3);
      hide Encode;
      OrShape(c0, lcode, rcode);
    }

    method EmitCall(e: Node) returns (ok: bool)
      requires Valid() && e.Call?
      modifies chunk.Repr
      ensures Valid() && fresh(chunk.Repr - old(chunk.Repr))
      ensures var r := CompileCall(env, locals, old(chunk.Pool()), e);
        ok == r.Emitted? && (ok ==> chunk.Code() == old(chunk.Code()) + r.code && chunk.Pool() == r.pool)
      decreases e, 1
    {
      hide CompileArgs, GetVariable, Invoke, Encode, Chunk.Code, Chunk.Pool, Chunk.Valid;
      ok := EmitArgs(e.args);
      if ok {
        if e.name in env.cmds && env.cmds[e.name].Native? {
          EmitInvoke(e.name, |e.args|);
        } else {
          EmitValueCall(e.name, |e.args|);
        }
      }
    }

    method EmitValueCall(name: string, argc: nat)
      requires Valid()
      modifies chunk.Repr
      ensures Valid() && fresh(chunk.Repr - old(chunk.Repr))
      ensures var get := GetVariable(env.h, locals, old(chunk.Pool()), name);
        get.Emitted? && chunk.Pool() == get.pool
        && chunk.Code() == old(chunk.Code()) + (get.code + Encode(CallValue(argc % 256)))
    {
      hide GetVariable, Encode, Chunk.Code, Chunk.Pool, Chunk.Valid;
      ghost var c0 := chunk.Code();
      EmitGet(name);
      Emit(CallValue(argc % 256));
    }

    method EmitArgs(args: seq<Node>) returns (ok: bool)
      requires Valid()
      modifies chunk.Repr
      ensures Valid() && fresh(chunk.Repr - old(chunk.Repr))
      ensures var r := CompileArgs(env, locals, old(chunk.Pool()), args);
        ok == r.Emitted? && (ok ==> chunk.Code() == old(chunk.Code()) + r.code && chunk.Pool() == r.pool)
      decreases args, 1
    {
      hide CompileExpr, CompileArgs, Behind, Chunk.Code, Chunk.Pool, Chunk.Valid;
      ok := true;
      var i := 0;
      ghost var c0, p0 := chunk.Code(), chunk.Pool();
      ghost var done: seq<byte> := [];
      assert args[0..] == args;
      BehindNothing(CompileArgs(env, locals, p0, args));
      while i < |args|
        invariant i <= |args| && Valid() && fresh(chunk.Repr - old(chunk.Repr))
        invariant chunk.Code() == c0 + done
        invariant Behind(done, CompileArgs(env, locals, chunk.Pool(), args[i..]), CompileArgs(env, locals, p0, args))
      {
        ghost var c := CompileExpr(env, locals, chunk.Pool(), args[i]);
        ArgsStep(env, locals, chunk.Pool(), args, i, done, CompileArgs(env, locals, p0, args));
        ok := EmitExpr(args[i]);
        if !ok { return; }
        done := done + c.code;
        i := i + 1;
      }
      LastArg(env, locals, chunk.Pool(), args[i..], done, CompileArgs(env, locals, p0, args));
    }

    method EmitOptional(e: Node) returns (ok: bool)
      requires Valid()
      modifies chunk.Repr
      ensures Valid() && fresh(chunk.Repr - old(chunk.Repr))
      ensures var r := CompileOptional(env, locals, old(chunk.Pool()), e);
        ok == r.Emitted? && (ok ==> chunk.Code() == old(chunk.Code()) + r.code && chunk.Pool() == r.pool)
    {
      hide CompileExpr, Encode, Chunk.Code, Chunk.Pool, Chunk.Valid;
      ok := true;
      if e.Nil? { Emit(PushNull); } else { ok := EmitExpr(e); }
    }

    /** add_local: silently refused when all 256 are taken. */
    method PushLocal(x: string)
      modifies this
      ensures locals == AddLocal(old(locals), x, scopeDepth) && scopeDepth == old(scopeDepth)
    {
      if |locals| < MAX_LOCALS { locals := locals + [Local(x, scopeDepth)]; }
    }

    /** end_scope: the locals of the scope go, each with a pop. */
    method EndScope()
      requires Valid() && scopeDepth > 0
      modifies this, chunk.Repr
      ensures Valid() && fresh(chunk.Repr - old(chunk.Repr))
      ensures scopeDepth == old(scopeDepth) - 1 && locals == KeepLocals(old(locals), scopeDepth)
      ensures chunk.Code() == old(chunk.Code()) + Pops(|old(locals)| - |locals|)
      ensures chunk.Pool() == old(chunk.Pool())
    {
      hide Encode, Chunk.Code, Chunk.Pool, Chunk.Valid;
      scopeDepth := scopeDepth - 1;
      ghost var c0 := chunk.Code();
      ghost var n := 0;
      while locals != [] && locals[|locals| - 1].depth > scopeDepth
        invariant Valid() && fresh(chunk.Repr - old(chunk.Repr)) && scopeDepth == old(scopeDepth) - 1
        invariant n == |old(locals)| - |locals| && n >= 0
        invariant KeepLocals(locals, scopeDepth) == KeepLocals(old(locals), scopeDepth)
        invariant chunk.Code() == c0 + Pops(n) && chunk.Pool() == old(chunk.Pool())
        decreases |locals|
      {
        Emit(Pop);
        locals := locals[..|locals| - 1];
        PopsMore(n);
        n := n + 1;
      }
    }

    /** compile_stmt */
    method EmitStmt(n: Node) returns (ok: bool)
      requires Valid()
      modifies this, chunk.Repr
      ensures Valid() && fresh(chunk.Repr - old(chunk.Repr))
      ensures var r := CompileStmt(env, old(locals), old(scopeDepth), old(chunk.Pool()), n);
        ok == r.Compiled? && (ok ==> Appended(r, old(chunk.Code()), old(scopeDepth)))
      decreases n, 3
    {
      hide CompileOptional, CompileExpr, CompileStmts, CompileArgs, Invoke, Encode, KeepLocals, Pops, AddLocal,
           Referring, Chunk.Code, Chunk.Pool, Chunk.Valid;
      if n.VarDecl? {
        ok := EmitDecl(n);
      } else if n.ExprStmt? || n.Print? || n.Return? {
        ok := EmitSimple(n);
      } else if n.Block? {
        ok := EmitBlock(n);
      } else if n.If? {
        ok := EmitIf(n);
      } else if n.While? {
        ok := EmitWhile(n);
      } else if n.CustomCall? {
        ok := EmitCustomCall(n);
      } else {
        ok := true;
      }
    }

    /** Statements of one expression and one instruction. */
    method EmitSimple(n: Node) returns (ok: bool)
      requires Valid() && (n.ExprStmt? || n.Print? || n.Return?)
      modifies chunk.Repr
      ensures Valid() && fresh(chunk.Repr - old(chunk.Repr))
      ensures var r := CompileStmt(env, locals, scopeDepth, old(chunk.Pool()), n);
        ok == r.Compiled? && (ok ==> Appended(r, old(chunk.Code()), scopeDepth))
    {
      hide CompileOptional, CompileExpr, Encode, Chunk.Code, Chunk.Pool, Chunk.Valid;
      if n.ExprStmt? {
        ok := EmitExpr(n.expr);
        if ok { Emit(Pop); }
      } else {
        ok := EmitOptionalThen(n.expr, if n.Return? then ReturnTop else if n.isRaw then PrintRaw else PrintLine);
      }
    }

    method EmitOptionalThen(e: Node, i: Instr) returns (ok: bool)
      requires Valid()
      modifies chunk.Repr
      ensures Valid() && fresh(chunk.Repr - old(chunk.Repr))
      ensures var r := CompileOptional(env, locals, old(chunk.Pool()), e);
        ok == r.Emitted?
        && (ok ==> chunk.Code() == old(chunk.Code()) + (r.code + Encode(i)) && chunk.Pool() == r.pool)
    {
      hide CompileOptional, Encode, Chunk.Code, Chunk.Pool, Chunk.Valid;
      ok := EmitOptional(e);
      if ok { Emit(i); }
    }

    method EmitBlock(n: Node) returns (ok: bool)
      requires Valid() && n.Block?
      modifies this, chunk.Repr
      ensures Valid() && fresh(chunk.Repr - old(chunk.Repr))
      ensures var r := CompileStmt(env, old(locals), old(scopeDepth), old(chunk.Pool()), n);
        ok == r.Compiled? && (ok ==> Appended(r, old(chunk.Code()), old(scopeDepth)))
      decreases n, 2
    {
      hide CompileStmts, KeepLocals, Pops, Chunk.Code, Chunk.Pool, Chunk.Valid;
      scopeDepth := scopeDepth + 1;
      ok := EmitStmts(n.stmts);
      if ok { EndScope(); }
    }

    /** What a successful compilation leaves: the code behind the old code, and its pool and locals. */
    ghost predicate Appended(r: Compiled, before: seq<byte>, depth: nat)
      requires Valid() && r.Compiled?
      reads this, chunk, chunk.Repr
    {
      && chunk.Code() == before + r.code
      && chunk.Pool() == r.pool
      && locals == r.locals
      && scopeDepth == depth
    }

    method EmitDecl(n: Node) returns (ok: bool)
      requires Valid() && n.VarDecl?
      modifies this, chunk.Repr
      ensures Valid() && fresh(chunk.Repr - old(chunk.Repr))
      ensures var r := CompileStmt(env, old(locals), old(scopeDepth), old(chunk.Pool()), n);
        ok == r.Compiled? && (ok ==> Appended(r, old(chunk.Code()), old(scopeDepth)))
    {
      hide CompileOptional, Encode, AddLocal, Referring, Chunk.Code, Chunk.Pool, Chunk.Valid;
      ok := EmitOptional(n.expr);
      if ok {
        if scopeDepth > 0 {
          PushLocal(n.name);
        } else {
          EmitDefine(n.name);
        }
      }
    }

    method EmitDefine(x: string)
      requires Valid()
      modifies chunk.Repr
      ensures Valid() && fresh(chunk.Repr - old(chunk.Repr))
      ensures var r := Referring(env.h, old(chunk.Pool()), Str(x), DefineGlobal(PoolByte(env.h, old(chunk.Pool()), Str(x))));
        r.Emitted? && chunk.Code() == old(chunk.Code()) + r.code && chunk.Pool() == r.pool
    {
      hide Encode, FindConstant, AddConstant, Chunk.Code, Chunk.Pool, Chunk.Valid;
      var k := chunk.Add(env.h, Str(x));
      Emit(DefineGlobal(k % 256));
    }

    method EmitCustomCall(n: Node) returns (ok: bool)
      requires Valid() && n.CustomCall?
      modifies chunk.Repr
      ensures Valid() && fresh(chunk.Repr - old(chunk.Repr))
      ensures var r := CompileStmt(env, locals, scopeDepth, old(chunk.Pool()), n);
        ok == r.Compiled? && (ok ==> Appended(r, old(chunk.Code()), scopeDepth))
    {
      hide CompileArgs, Invoke, Encode, Chunk.Code, Chunk.Pool, Chunk.Valid;
      ok := EmitArgs(n.args);
      if ok { EmitInvokeAndPop(n.name, |n.args|); }
    }

    method EmitInvokeAndPop(name: string, argc: nat)
      requires Valid()
      modifies chunk.Repr
      ensures Valid() && fresh(chunk.Repr - old(chunk.Repr))
      ensures var r := Invoke(env.h, old(chunk.Pool()), name, argc);
        r.Emitted? && chunk.Code() == old(chunk.Code()) + (r.code + Encode(Pop)) && chunk.Pool() == r.pool
    {
      hide Invoke, Encode, Chunk.Code, Chunk.Pool, Chunk.Valid;
      EmitInvoke(name, argc);
      Emit(Pop);
    }

    method EmitIf(n: Node) returns (ok: bool)
      requires Valid() && n.If?
      modifies this, chunk.Repr
      ensures Valid() && fresh(chunk.Repr - old(chunk.Repr))
      ensures var r := CompileIf(env, old(locals), old(scopeDepth), old(chunk.Pool()), n);
        ok == r.Compiled? && (ok ==> Appended(r, old(chunk.Code()), old(scopeDepth)))
      decreases n, 2
    {
      hide CompileExpr, CompileStmt, IfCode, IfElseCode, Chunk.Code, Chunk.Pool, Chunk.Valid;
      ghost var c0 := chunk.Code();
      ok := EmitExpr(n.cond);
      if ok { ok := EmitBranches(n); }
    }

    /** The branches behind a condition, with their jumps patched once the lengths are known. */
    method EmitBranches(n: Node) returns (ok: bool)
      requires Valid() && n.If?
      modifies this, chunk.Repr
      ensures Valid() && fresh(chunk.Repr - old(chunk.Repr))
      ensures var r := CompileBranches(env, old(locals), old(scopeDepth), old(chunk.Pool()), n);
        ok == r.Compiled? && (ok ==> Appended(r, old(chunk.Code()), old(scopeDepth)))
      decreases n, 1
    {
      hide CompileStmt, IfCode, IfElseCode, Chunk.Code, Chunk.Pool, Chunk.Valid;
      ghost var c1 := chunk.Code();
      ghost var t := CompileStmt(env, locals, scopeDepth, chunk.Pool(), n.thenBranch);
      var thenJump := EmitJump(25);
      Emit(Pop);
      ok := EmitStmt(n.thenBranch);
      if ok {
        if n.elseBranch.Nil? {
          EndIf(thenJump, c1, t.code);
        } else {
          ok := EmitElse(n, thenJump, c1, t.code);
        }
      }
    }

    method EmitElse(n: Node, thenJump: nat, ghost c1: seq<byte>, ghost tcode: seq<byte>) returns (ok: bool)
      requires Valid() && n.If? && thenJump == |c1| + 1
      requires chunk.Code() == c1 + [25, 255, 255] + Encode(Pop) + tcode
      modifies this, chunk.Repr
      ensures Valid() && fresh(chunk.Repr - old(chunk.Repr))
      ensures var e := CompileStmt(env, old(locals), old(scopeDepth), old(chunk.Pool()), n.elseBranch);
        ok == e.Compiled? && (ok ==> Appended(e.(code := IfElseCode(tcode, e.code)), c1, old(scopeDepth)))
      decreases n, 0
    {
      hide CompileStmt, IfElseCode, Chunk.Code, Chunk.Pool, Chunk.Valid;
      var elseJump := BeginElse(thenJump, c1, tcode);
      ghost var e := CompileStmt(env, locals, scopeDepth, chunk.Pool(), n.elseBranch);
      ok := EmitStmt(n.elseBranch);
      if ok { EndElse(elseJump, c1, tcode, e.code); }
    }

    method EndIf(thenJump: nat, ghost c1: seq<byte>, ghost tcode: seq<byte>)
      requires Valid() && thenJump == |c1| + 1
      requires chunk.Code() == c1 + [25, 255, 255] + Encode(Pop) + tcode
      modifies chunk.Repr
      ensures Valid() && fresh(chunk.Repr - old(chunk.Repr))
      ensures chunk.Code() == c1 + IfCode(tcode) && chunk.Pool() == old(chunk.Pool())
    {
      hide Chunk.Code, Chunk.Pool, Chunk.Valid;
      ghost var rest := Encode(Pop) + tcode;
      assert chunk.Code() == c1 + ([25, 255, 255] + rest);
      PatchJump(thenJump, c1, 25, rest);
      JumpBytes(|rest|);
      Emit(Pop);
      assert chunk.Code() == c1 + (Encode(JumpIfFalse(|rest| % 65536)) + (Encode(Pop) + (tcode + Encode(Pop))));
    }

    method BeginElse(thenJump: nat, ghost c1: seq<byte>, ghost tcode: seq<byte>) returns (elseJump: nat)
      requires Valid() && thenJump == |c1| + 1
      requires chunk.Code() == c1 + [25, 255, 255] + Encode(Pop) + tcode
      modifies chunk.Repr
      ensures Valid() && fresh(chunk.Repr - old(chunk.Repr))
      ensures chunk.Pool() == old(chunk.Pool())
      ensures elseJump == |c1| + 5 + |tcode|
      ensures chunk.Code() == c1 + Encode(JumpIfFalse((|tcode| + 4) % 65536)) + Encode(Pop) + tcode
                              + [24, 255, 255] + Encode(Pop)
    {
      hide Chunk.Code, Chunk.Pool, Chunk.Valid;
      elseJump := EmitJump(24);
      ghost var rest := Encode(Pop) + tcode + [24, 255, 255];
      assert chunk.Code() == c1 + ([25, 255, 255] + rest);
      PatchJump(thenJump, c1, 25, rest);
      JumpBytes(|rest|);
      assert |rest| == |tcode| + 4;
      hide Encode;
      ElseShape(c1, Encode(JumpIfFalse(|rest| % 65536)), tcode);
      Emit(Pop);
    }

    method EndElse(elseJump: nat, ghost c1: seq<byte>, ghost tcode: seq<byte>, ghost ecode: seq<byte>)
      requires Valid() && elseJump == |c1| + 5 + |tcode|
      requires chunk.Code() == c1 + Encode(JumpIfFalse((|tcode| + 4) % 65536)) + Encode(Pop) + tcode
                               + [24, 255, 255] + Encode(Pop) + ecode
      modifies chunk.Repr
      ensures Valid() && fresh(chunk.Repr - old(chunk.Repr))
      ensures chunk.Code() == c1 + IfElseCode(tcode, ecode) && chunk.Pool() == old(chunk.Pool())
    {
      hide Chunk.Code, Chunk.Pool, Chunk.Valid;
      ghost var before := c1 + Encode(JumpIfFalse((|tcode| + 4) % 65536)) + Encode(Pop) + tcode;
      ghost var rest := Encode(Pop) + ecode;
      assert chunk.Code() == before + ([24, 255, 255] + rest);
      PatchJump(elseJump, before, 24, rest);
      JumpBytes(|rest|);
      IfElseShape(c1, tcode, ecode);
    }

    method EmitWhile(n: Node) returns (ok: bool)
      requires Valid() && n.While?
      modifies this, chunk.Repr
      ensures Valid() && fresh(chunk.Repr - old(chunk.Repr))
      ensures var r := CompileWhile(env, old(locals), old(scopeDepth), old(chunk.Pool()), n);
        ok == r.Compiled? && (ok ==> Appended(r, old(chunk.Code()), old(scopeDepth)))
      decreases n, 2
    {
      hide CompileExpr, CompileStmt, WhileCode;
      ghost var c0 := chunk.Code();
      var loopStart := chunk.count;
      ghost var c := CompileExpr(env, locals, chunk.Pool(), n.cond);
      ok := EmitExpr(n.cond);
      if ok { ok := EmitLoopBody(n, loopStart, c0, c.code); }
    }

    method EmitLoopBody(n: Node, loopStart: nat, ghost c0: seq<byte>, ghost ccode: seq<byte>) returns (ok: bool)
      requires Valid() && n.While? && loopStart == |c0| && chunk.Code() == c0 + ccode
      modifies this, chunk.Repr
      ensures Valid() && fresh(chunk.Repr - old(chunk.Repr))
      ensures var b := CompileStmt(env, old(locals), old(scopeDepth), old(chunk.Pool()), n.body);
        ok == b.Compiled? && (ok ==> Appended(b.(code := WhileCode(ccode, b.code)), c0, old(scopeDepth)))
      decreases n, 1
    {
      hide CompileStmt, WhileCode, Chunk.Code, Chunk.Pool, Chunk.Valid;
      ghost var b := CompileStmt(env, locals, scopeDepth, chunk.Pool(), n.body);
      var exitJump := EmitJump(25);
      Emit(Pop);
      ok := EmitStmt(n.body);
      if ok { EndWhile(exitJump, loopStart, c0, ccode, b.code); }
    }

    method EndWhile(exitJump: nat, loopStart: nat, ghost c0: seq<byte>, ghost ccode: seq<byte>, ghost bcode: seq<byte>)
      requires Valid() && loopStart == |c0| && exitJump == |c0| + |ccode| + 1
      requires chunk.Code() == c0 + ccode + [25, 255, 255] + Encode(Pop) + bcode
      modifies chunk.Repr
      ensures Valid() && fresh(chunk.Repr - old(chunk.Repr))
      ensures chunk.Code() == c0 + WhileCode(ccode, bcode) && chunk.Pool() == old(chunk.Pool())
    {
      hide WhileCode, Encode, Chunk.Code, Chunk.Pool, Chunk.Valid;
      WhileBytes(c0, ccode, bcode);
      EmitLoop(loopStart);
      PatchJump(exitJump, c0 + ccode, 25, Encode(Pop) + bcode + Encode(Loop((|ccode| + |bcode| + 7) % 65536)));
      Emit(Pop);
    }

    method EmitStmts(stmts: seq<Node>) returns (ok: bool)
      requires Valid()
      modifies this, chunk.Repr
      ensures Valid() && fresh(chunk.Repr - old(chunk.Repr))
      ensures var r := CompileStmts(env, old(locals), old(scopeDepth), old(chunk.Pool()), stmts);
        ok == r.Compiled? && (ok ==> Appended(r, old(chunk.Code()), old(scopeDepth)))
      decreases stmts, 0
    {
      hide CompileStmt, Chunk.Code, Chunk.Pool, Chunk.Valid;
      ok := true;
      var i := 0;
      ghost var c0 := chunk.Code();
      ghost var done: seq<byte> := [];
      ghost var whole := CompileStmts(env, locals, scopeDepth, chunk.Pool(), stmts);
      while i < |stmts|
        invariant i <= |stmts| && Valid() && fresh(chunk.Repr - old(chunk.Repr))
        invariant chunk.Code() == c0 + done && scopeDepth == old(scopeDepth)
        invariant BehindAll(done, CompileStmts(env, locals, scopeDepth, chunk.Pool(), stmts[i..]), whole)
      {
        assert stmts[i..][0] == stmts[i] && stmts[i..][1..] == stmts[i + 1..];
        ghost var c := CompileStmt(env, locals, scopeDepth, chunk.Pool(), stmts[i]);
        ok := EmitStmt(stmts[i]);
        if !ok { return; }
        ghost var rest := CompileStmts(env, locals, scopeDepth, chunk.Pool(), stmts[i + 1..]);
        if rest.Compiled? { assert done + (c.code + rest.code) == (done + c.code) + rest.code; }
        done := done + c.code;
        i := i + 1;
      }
    }

    /** bs_compile_ast on a fresh compiler. */
    method EmitProgram(program: Node) returns (ok: bool)
      requires Valid() && locals == [] && scopeDepth == 0 && chunk.Code() == [] && chunk.Pool() == []
      modifies this, chunk.Repr
      ensures Valid() && fresh(chunk.Repr - old(chunk.Repr))
      ensures var r := CompileProgram(env, program);
        ok == r.Compiled? && (ok ==> chunk.Code() == r.code && chunk.Pool() == r.pool)
    {
      hide CompileStmt, CompileStmts, Encode, Chunk.Code, Chunk.Pool, Chunk.Valid;
      if program.Nil? { return false; }
      if program.Block? {
        ok := EmitStmts(program.stmts);
      } else {
        ok := EmitStmt(program);
      }
      if ok { Emit(Halt); }
    }
  }

  lemma {:induction false} PopsMore(n: nat)
    ensures Pops(n) + Encode(Pop) == Pops(n + 1)
  {
    if n > 0 { PopsMore(n - 1); }
  }

  lemma IfElseShape(c1: seq<byte>, tcode: seq<byte>, ecode: seq<byte>)
    ensures c1 + Encode(JumpIfFalse((|tcode| + 4) % 65536)) + Encode(Pop) + tcode
              + (Encode(Jump((1 + |ecode|) % 65536)) + (Encode(Pop) + ecode))
         == c1 + IfElseCode(tcode, ecode)
  {
    hide Encode;
  }

  lemma OrShape(c0: seq<byte>, lcode: seq<byte>, rcode: seq<byte>)
    requires |Encode(Pop)| == 1
    ensures ((c0 + lcode) + Encode(JumpIfFalse(3))) + (Encode(Jump((1 + |rcode|) % 65536)) + (Encode(Pop) + rcode))
         == c0 + BinaryCode(OrOr, lcode, rcode)
  {
    hide Encode;
  }

  lemma ElseShape(c1: seq<byte>, jump: seq<byte>, tcode: seq<byte>)
    ensures c1 + (jump + (Encode(Pop) + tcode + [24, 255, 255])) == c1 + jump + Encode(Pop) + tcode + [24, 255, 255]
  {
    hide Encode;
  }

  /** The bytes of a loop before and after the jumps are known. */
  lemma WhileBytes(c0: seq<byte>, ccode: seq<byte>, bcode: seq<byte>)
    ensures var before := c0 + ccode + [25, 255, 255] + Encode(Pop) + bcode;
      var rest := Encode(Pop) + bcode + Encode(Loop((|ccode| + |bcode| + 7) % 65536));
      && |before| - |c0| + 3 == |ccode| + |bcode| + 7
      && before + Encode(Loop((|ccode| + |bcode| + 7) % 65536)) == (c0 + ccode) + ([25, 255, 255] + rest)
      && (c0 + ccode) + ([25, |rest| / 256 % 256, |rest| % 256] + rest) + Encode(Pop) == c0 + WhileCode(ccode, bcode)
  {
    var rest := Encode(Pop) + bcode + Encode(Loop((|ccode| + |bcode| + 7) % 65536));
    assert |rest| == |bcode| + 4;
    JumpBytes(|rest|);
    hide Encode;
    WhileShape(c0, ccode, bcode);
    assert c0 + ccode + [25, 255, 255] + Encode(Pop) + bcode + Encode(Loop((|ccode| + |bcode| + 7) % 65536))
        == (c0 + ccode) + ([25, 255, 255] + rest);
  }

  lemma WhileShape(c0: seq<byte>, ccode: seq<byte>, bcode: seq<byte>)
    ensures (c0 + ccode) + (Encode(JumpIfFalse((|bcode| + 4) % 65536))
              + (Encode(Pop) + bcode + Encode(Loop((|ccode| + |bcode| + 7) % 65536)))) + Encode(Pop)
         == c0 + WhileCode(ccode, bcode)
  {
    hide Encode;
  }

  ghost predicate BehindAll(done: seq<byte>, rest: Compiled, whole: Compiled) {
    && whole.Compiled? == rest.Compiled?
    && (rest.Compiled? ==> whole.code == done + rest.code && whole.pool == rest.pool && whole.locals == rest.locals)
  }

  /** The whole result is the rest's, behind code already emitted. */
  ghost predicate Behind(done: seq<byte>, rest: Emitted, whole: Emitted) {
    whole.Emitted? == rest.Emitted? && (rest.Emitted? ==> whole.code == done + rest.code && whole.pool == rest.pool)
  }

  lemma ArgsStep(env: Env, locals: seq<Local>, pool: seq<Value>, args: seq<Node>, i: nat, done: seq<byte>, whole: Emitted)
    requires i < |args| && Behind(done, CompileArgs(env, locals, pool, args[i..]), whole)
    ensures var c := CompileExpr(env, locals, pool, args[i]);
      && (c.Failed? ==> whole.Failed?)
      && (c.Emitted? ==> Behind(done + c.code, CompileArgs(env, locals, c.pool, args[i + 1..]), whole))
  {
    hide CompileExpr;
    assert args[i..][0] == args[i] && args[i..][1..] == args[i + 1..];
    var c := CompileExpr(env, locals, pool, args[i]);
    if c.Emitted? {
      var rest := CompileArgs(env, locals, c.pool, args[i + 1..]);
      if rest.Emitted? { assert done + (c.code + rest.code) == (done + c.code) + rest.code; }
    }
  }

  lemma BehindNothing(whole: Emitted)
    ensures Behind([], whole, whole)
  {
    if whole.Emitted? { assert [] + whole.code == whole.code; }
  }

  lemma LastArg(env: Env, locals: seq<Local>, pool: seq<Value>, args: seq<Node>, done: seq<byte>, whole: Emitted)
    requires args == [] && Behind(done, CompileArgs(env, locals, pool, args), whole)
    ensures whole.Emitted? && whole.code == done && whole.pool == pool
  {
    assert done + [] == done;
  }

  lemma JumpBytes(d: nat)
    ensures Encode(JumpIfFalse(d % 65536)) == [25, d / 256 % 256, d % 256]
    ensures Encode(Jump(d % 65536)) == [24, d / 256 % 256, d % 256]
  {
    CutBytes(d);
  }

  lemma LoopBytes(d: nat)
    ensures Encode(Loop(d % 65536)) == [26] + [d / 256 % 256] + [d % 256]
  {
    CutBytes(d);
  }

  /** Cutting a distance byte by byte is cutting it to 16 bits. */
  lemma CutBytes(d: nat)
    ensures d / 256 % 256 == d % 65536 / 256
    ensures d % 256 == d % 65536 % 256
  {
  }
}
