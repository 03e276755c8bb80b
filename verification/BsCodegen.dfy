/** The code generator (bs_codegen.c) as a function from trees to code, with every jump distance
    computed from the lengths of the parts.  The flag "exact" says that no cast to a byte or to
    16 bits has lost anything and no local was refused. */
module BsCodegen {
  import opened BsAst
  import opened BsValue
  import opened BsBytecode

  datatype Local = Local(name: string, depth: nat)

  /** What the code generator reads but never changes: values are compared and commands are looked up. */
  datatype Env = Env(h: Host, cmds: Registry)

  datatype Emitted = Failed | Emitted(code: seq<byte>, pool: seq<Value>, exact: bool)
  datatype Compiled = Rejected | Compiled(code: seq<byte>, pool: seq<Value>, exact: bool, locals: seq<Local>)

  /** resolve_local: the last local of that name, or -1. */
  function Resolve(locals: seq<Local>, x: string): (r: int)
    ensures -1 <= r < |locals|
    ensures r >= 0 ==> locals[r].name == x
    ensures forall i :: r < i < |locals| ==> locals[i].name != x
  {
    if locals == [] then -1
    else if locals[|locals| - 1].name == x then |locals| - 1
    else Resolve(locals[..|locals| - 1], x)
  }

  /** The first entry of the pool that equals v, or |pool|. */
  function FindConstant(h: Host, pool: seq<Value>, v: Value): (r: nat)
    ensures r <= |pool|
    ensures r < |pool| ==> ValuesEqual(h, pool[r], v)
    ensures forall i :: 0 <= i < r ==> !ValuesEqual(h, pool[i], v)
  {
    if pool == [] then 0
    else if ValuesEqual(h, pool[0], v) then 0
    else 1 + FindConstant(h, pool[1..], v)
  }

  /** bs_chunk_add_constant */
  function AddConstant(h: Host, pool: seq<Value>, v: Value): seq<Value> {
    if FindConstant(h, pool, v) < |pool| then pool else pool + [v]
  }

  function AddLocal(locals: seq<Local>, x: string, depth: nat): seq<Local> {
    if |locals| >= MAX_LOCALS then locals else locals + [Local(x, depth)]
  }

  /** The locals end_scope keeps; it emits one pop for each of the others. */
  function KeepLocals(locals: seq<Local>, depth: nat): (r: seq<Local>)
    ensures r <= locals
  {
    if locals != [] && locals[|locals| - 1].depth > depth then KeepLocals(locals[..|locals| - 1], depth) else locals
  }

  function Pops(n: nat): seq<byte> {
    if n == 0 then [] else Encode(Pop) + Pops(n - 1)
  }

  /** add_constant: the operand byte for v. */
  function PoolByte(h: Host, pool: seq<Value>, v: Value): byte {
    FindConstant(h, pool, v) % 256
  }

  /** One instruction, whose operand is the PoolByte of v. */
  function Referring(h: Host, pool: seq<Value>, v: Value, instr: Instr): Emitted {
    Emitted(Encode(instr), AddConstant(h, pool, v), FindConstant(h, pool, v) < MAX_CONSTANTS)
  }

  function GetVariable(h: Host, locals: seq<Local>, pool: seq<Value>, x: string): Emitted {
    var i := Resolve(locals, x);
    if i >= 0 then Emitted(Encode(GetLocal(i % 256)), pool, i < 256)
    else Referring(h, pool, Str(x), GetGlobal(PoolByte(h, pool, Str(x))))
  }

  function SetVariable(h: Host, locals: seq<Local>, pool: seq<Value>, x: string): Emitted {
    var i := Resolve(locals, x);
    if i >= 0 then Emitted(Encode(SetLocal(i % 256)), pool, i < 256)
    else Referring(h, pool, Str(x), SetGlobal(PoolByte(h, pool, Str(x))))
  }

  /** compile_expr */
  function CompileExpr(env: Env, locals: seq<Local>, pool: seq<Value>, e: Node): Emitted
    decreases e, 2
  {
    match e
    case Nil => Failed
    case Literal(v) =>
      if v.Null? then Emitted(Encode(PushNull), pool, true)
      else if v.Bool? then Emitted(Encode(if v.b then PushTrue else PushFalse), pool, true)
      else Referring(env.h, pool, v, Constant(PoolByte(env.h, pool, v)))
    case Identifier(x) => GetVariable(env.h, locals, pool, x)
    case Unary(op, operand) =>
      (match CompileExpr(env, locals, pool, operand)
       case Failed => Failed
       case Emitted(code, pool1, exact) => Emitted(code + UnaryCode(op), pool1, exact))
    case Binary(_, _, _) => CompileBinary(env, locals, pool, e)
    case Assign(x, value) =>
      (match CompileExpr(env, locals, pool, value)
       case Failed => Failed
       case Emitted(code, pool1, exact) =>
         var store := SetVariable(env.h, locals, pool1, x);
         Emitted(code + store.code, store.pool, exact && store.exact))
    case Call(_, _) => CompileCall(env, locals, pool, e)
    case _ => Emitted([], pool, true)
  }

  /** An operator that is neither '!' nor '-' emits nothing. */
  function UnaryCode(op: Op): seq<byte> {
    if op == Bang then Encode(Not) else if op == Minus then Encode(Negate) else []
  }

  function CompileBinary(env: Env, locals: seq<Local>, pool: seq<Value>, e: Node): Emitted
    requires e.Binary?
    decreases e, 1
  {
    match CompileExpr(env, locals, pool, e.left)
    case Failed => Failed
    case Emitted(lcode, pool1, lexact) =>
      match CompileExpr(env, locals, pool1, e.right)
      case Failed => Failed
      case Emitted(rcode, pool2, rexact) =>
        Emitted(BinaryCode(e.op, lcode, rcode), pool2,
                lexact && rexact && (e.op == AndAnd || e.op == OrOr ==> 1 + |rcode| <= MAX_JUMP))
  }

  /** The two operands and what combines them; the right operand of && and || is jumped over. */
  function BinaryCode(op: Op, lcode: seq<byte>, rcode: seq<byte>): seq<byte> {
    if op == AndAnd then
      lcode + (Encode(JumpIfFalse((1 + |rcode|) % 65536)) + (Encode(Pop) + rcode))
    else if op == OrOr then
      lcode + (Encode(JumpIfFalse(3)) + (Encode(Jump((1 + |rcode|) % 65536)) + (Encode(Pop) + rcode)))
    else
      lcode + (rcode + (if HasOpCode(op) then Encode(BinaryOp(op)) else []))
  }

  /** A native command of the registry, or a call of a value on the stack. */
  function CompileCall(env: Env, locals: seq<Local>, pool: seq<Value>, e: Node): Emitted
    requires e.Call?
    decreases e, 1
  {
    match CompileArgs(env, locals, pool, e.args)
    case Failed => Failed
    case Emitted(code, pool1, exact) =>
      if e.name in env.cmds && env.cmds[e.name].Native? then
        var call := Invoke(env.h, pool1, e.name, |e.args|);
        Emitted(code + call.code, call.pool, exact && call.exact)
      else
        var get := GetVariable(env.h, locals, pool1, e.name);
        Emitted(code + (get.code + Encode(CallValue(|e.args| % 256))), get.pool,
                exact && get.exact && |e.args| < 256)
  }

  /** OP_CALL_COMMAND with the name's constant and the argument count. */
  function Invoke(h: Host, pool: seq<Value>, name: string, argc: nat): Emitted {
    var call := Referring(h, pool, Str(name), CallCommand(PoolByte(h, pool, Str(name)), argc % 256));
    call.(exact := call.exact && argc < 256)
  }

  function CompileArgs(env: Env, locals: seq<Local>, pool: seq<Value>, args: seq<Node>): Emitted
    decreases args, 0
  {
    if args == [] then Emitted([], pool, true)
    else
      match CompileExpr(env, locals, pool, args[0])
      case Failed => Failed
      case Emitted(code, pool1, exact) =>
        match CompileArgs(env, locals, pool1, args[1..])
        case Failed => Failed
        case Emitted(more, pool2, moreExact) => Emitted(code + more, pool2, exact && moreExact)
  }

  /** An expression, or null where the source leaves it out. */
  function CompileOptional(env: Env, locals: seq<Local>, pool: seq<Value>, e: Node): Emitted {
    if e.Nil? then Emitted(Encode(PushNull), pool, true) else CompileExpr(env, locals, pool, e)
  }

  /** compile_stmt */
  function CompileStmt(env: Env, locals: seq<Local>, depth: nat, pool: seq<Value>, n: Node): Compiled
    decreases n, 2
  {
    match n
    case VarDecl(x, _, init) =>
      (match CompileOptional(env, locals, pool, init)
       case Failed => Rejected
       case Emitted(code, pool1, exact) =>
         if depth > 0 then
           Compiled(code, pool1, exact && |locals| < MAX_LOCALS, AddLocal(locals, x, depth))
         else
           var def := Referring(env.h, pool1, Str(x), DefineGlobal(PoolByte(env.h, pool1, Str(x))));
           Compiled(code + def.code, def.pool, exact && def.exact, locals))
    case ExprStmt(e) =>
      (match CompileExpr(env, locals, pool, e)
       case Failed => Rejected
       case Emitted(code, pool1, exact) => Compiled(code + Encode(Pop), pool1, exact, locals))
    case Block(stmts) =>
      (match CompileStmts(env, locals, depth + 1, pool, stmts)
       case Rejected => Rejected
       case Compiled(code, pool1, exact, inner) =>
         var kept := KeepLocals(inner, depth);
         Compiled(code + Pops(|inner| - |kept|), pool1, exact, kept))
    case If(_, _, _) => CompileIf(env, locals, depth, pool, n)
    case While(_, _) => CompileWhile(env, locals, depth, pool, n)
    case Print(e, isRaw, _) =>
      (match CompileOptional(env, locals, pool, e)
       case Failed => Rejected
       case Emitted(code, pool1, exact) =>
         Compiled(code + Encode(if isRaw then PrintRaw else PrintLine), pool1, exact, locals))
    case Return(e) =>
      (match CompileOptional(env, locals, pool, e)
       case Failed => Rejected
       case Emitted(code, pool1, exact) => Compiled(code + Encode(ReturnTop), pool1, exact, locals))
    case CustomCall(name, args, _) =>
      (match CompileArgs(env, locals, pool, args)
       case Failed => Rejected
       case Emitted(code, pool1, exact) =>
         var call := Invoke(env.h, pool1, name, |args|);
         Compiled(code + (call.code + Encode(Pop)), call.pool, exact && call.exact, locals))
    case _ => Compiled([], pool, true, locals)
  }

  function CompileIf(env: Env, locals: seq<Local>, depth: nat, pool: seq<Value>, n: Node): Compiled
    requires n.If?
    decreases n, 1
  {
    match CompileExpr(env, locals, pool, n.cond)
    case Failed => Rejected
    case Emitted(ccode, pool1, cexact) =>
      match CompileBranches(env, locals, depth, pool1, n)
      case Rejected => Rejected
      case Compiled(code, pool2, exact, locals1) => Compiled(ccode + code, pool2, cexact && exact, locals1)
  }

  /** An if without else pops once more on the path through its branch than the source intends. */
  function CompileBranches(env: Env, locals: seq<Local>, depth: nat, pool: seq<Value>, n: Node): Compiled
    requires n.If?
    decreases n, 0
  {
    match CompileStmt(env, locals, depth, pool, n.thenBranch)
    case Rejected => Rejected
    case Compiled(tcode, pool1, texact, locals1) =>
      if n.elseBranch.Nil? then
        Compiled(IfCode(tcode), pool1, texact && 1 + |tcode| <= MAX_JUMP, locals1)
      else
        match CompileStmt(env, locals1, depth, pool1, n.elseBranch)
        case Rejected => Rejected
        case Compiled(ecode, pool2, eexact, locals2) =>
          Compiled(IfElseCode(tcode, ecode), pool2,
                   texact && eexact && |tcode| + 4 <= MAX_JUMP && 1 + |ecode| <= MAX_JUMP, locals2)
  }

  function IfCode(tcode: seq<byte>): seq<byte> {
    Encode(JumpIfFalse((1 + |tcode|) % 65536)) + (Encode(Pop) + (tcode + Encode(Pop)))
  }

  function IfElseCode(tcode: seq<byte>, ecode: seq<byte>): seq<byte> {
    Encode(JumpIfFalse((|tcode| + 4) % 65536)) + (Encode(Pop) + (tcode
      + (Encode(Jump((1 + |ecode|) % 65536)) + (Encode(Pop) + ecode))))
  }

  function CompileWhile(env: Env, locals: seq<Local>, depth: nat, pool: seq<Value>, n: Node): Compiled
    requires n.While?
    decreases n, 1
  {
    match CompileExpr(env, locals, pool, n.cond)
    case Failed => Rejected
    case Emitted(ccode, pool1, cexact) =>
      match CompileStmt(env, locals, depth, pool1, n.body)
      case Rejected => Rejected
      case Compiled(bcode, pool2, bexact, locals1) =>
        Compiled(WhileCode(ccode, bcode), pool2,
                 cexact && bexact && |bcode| + 4 <= MAX_JUMP && |ccode| + |bcode| + 7 <= MAX_JUMP, locals1)
  }

  /** The condition, the body, and a jump back over both. */
  function WhileCode(ccode: seq<byte>, bcode: seq<byte>): seq<byte> {
    ccode + (Encode(JumpIfFalse((|bcode| + 4) % 65536)) + (Encode(Pop) + (bcode
      + (Encode(Loop((|ccode| + |bcode| + 7) % 65536)) + Encode(Pop)))))
  }

  function CompileStmts(env: Env, locals: seq<Local>, depth: nat, pool: seq<Value>, stmts: seq<Node>): Compiled
    decreases stmts, 0
  {
    if stmts == [] then Compiled([], pool, true, locals)
    else
      match CompileStmt(env, locals, depth, pool, stmts[0])
      case Rejected => Rejected
      case Compiled(code, pool1, exact, locals1) =>
        match CompileStmts(env, locals1, depth, pool1, stmts[1..])
        case Rejected => Rejected
        case Compiled(more, pool2, moreExact, locals2) => Compiled(code + more, pool2, exact && moreExact, locals2)
  }

  /** bs_compile_ast: a top-level block opens no scope. */
  function CompileProgram(env: Env, program: Node): Compiled {
    if program.Nil? then Rejected
    else
      match (if program.Block? then CompileStmts(env, [], 0, [], program.stmts) else CompileStmt(env, [], 0, [], program))
      case Rejected => Rejected
      case Compiled(code, pool, exact, locals) => Compiled(code + Encode(Halt), pool, exact, locals)
  }

  // ----- The constant pool -----

  ghost predicate NoDuplicates(h: Host, pool: seq<Value>) {
    forall i, j :: 0 <= i < j < |pool| ==> !ValuesEqual(h, pool[i], pool[j])
  }

  /** The pool grows only at its end, and by no value it already holds. */
  ghost predicate Grows(h: Host, before: seq<Value>, after: seq<Value>) {
    before <= after && (NoDuplicates(h, before) ==> NoDuplicates(h, after))
  }

  lemma AddConstantGrows(h: Host, pool: seq<Value>, v: Value)
    ensures Grows(h, pool, AddConstant(h, pool, v))
    ensures var k := FindConstant(h, pool, v); k < |AddConstant(h, pool, v)|
    ensures var k := FindConstant(h, pool, v); k == |pool| || ValuesEqual(h, pool[k], v)
  {
    var after := AddConstant(h, pool, v);
    assert FindConstant(h, pool, v) == |pool| ==> after[..|pool|] == pool;
  }

  lemma VariablePool(env: Env, locals: seq<Local>, pool: seq<Value>, x: string)
    ensures var get := GetVariable(env.h, locals, pool, x); get.Emitted? && Grows(env.h, pool, get.pool)
    ensures var store := SetVariable(env.h, locals, pool, x); store.Emitted? && Grows(env.h, pool, store.pool)
  {
    AddConstantGrows(env.h, pool, Str(x));
  }

  lemma {:induction false} ExprPool(env: Env, locals: seq<Local>, pool: seq<Value>, e: Node)
    ensures var r := CompileExpr(env, locals, pool, e); r.Emitted? ==> Grows(env.h, pool, r.pool)
    decreases e, 1
  {
    hide CompileArgs, NoDuplicates, Resolve, FindConstant, Encode, BinaryCode, UnaryCode;
    if e.Literal? {
      AddConstantGrows(env.h, pool, e.lit);
    } else if e.Identifier? {
      VariablePool(env, locals, pool, e.name);
    } else if e.Unary? {
      ExprPool(env, locals, pool, e.operand);
    } else if e.Binary? {
      ExprPool(env, locals, pool, e.left);
      var l := CompileExpr(env, locals, pool, e.left);
      if l.Emitted? { ExprPool(env, locals, l.pool, e.right); }
    } else if e.Assign? {
      ExprPool(env, locals, pool, e.expr);
      var r := CompileExpr(env, locals, pool, e.expr);
      if r.Emitted? { VariablePool(env, locals, r.pool, e.name); }
    } else if e.Call? {
      ArgsPool(env, locals, pool, e.args);
      var r := CompileArgs(env, locals, pool, e.args);
      if r.Emitted? {
        VariablePool(env, locals, r.pool, e.name);
        AddConstantGrows(env.h, r.pool, Str(e.name));
      }
    }
  }

  lemma {:induction false} ArgsPool(env: Env, locals: seq<Local>, pool: seq<Value>, args: seq<Node>)
    ensures var r := CompileArgs(env, locals, pool, args); r.Emitted? ==> Grows(env.h, pool, r.pool)
    decreases args, 0
  {
    if args != [] {
      ExprPool(env, locals, pool, args[0]);
      var r := CompileExpr(env, locals, pool, args[0]);
      if r.Emitted? { ArgsPool(env, locals, r.pool, args[1..]); }
    }
  }

  lemma OptionalPool(env: Env, locals: seq<Local>, pool: seq<Value>, e: Node)
    ensures var r := CompileOptional(env, locals, pool, e); r.Emitted? ==> Grows(env.h, pool, r.pool)
  {
    ExprPool(env, locals, pool, e);
  }

  /** Over the compilation of any statement no pool entry is moved, changed or duplicated, so an
      operand byte emitted earlier still denotes the value it was emitted for. */
  lemma {:induction false} StmtPool(env: Env, locals: seq<Local>, depth: nat, pool: seq<Value>, n: Node)
    ensures var r := CompileStmt(env, locals, depth, pool, n); r.Compiled? ==> Grows(env.h, pool, r.pool)
    decreases n, 1
  {
    hide CompileArgs, CompileExpr, CompileStmts, NoDuplicates, FindConstant, Encode, Pops, KeepLocals,
         IfCode, IfElseCode, WhileCode;
    if n.VarDecl? {
      OptionalPool(env, locals, pool, n.expr);
      var r := CompileOptional(env, locals, pool, n.expr);
      if r.Emitted? { AddConstantGrows(env.h, r.pool, Str(n.name)); }
    } else if n.ExprStmt? {
      ExprPool(env, locals, pool, n.expr);
    } else if n.Block? {
      StmtsPool(env, locals, depth + 1, pool, n.stmts);
    } else if n.If? || n.While? {
      ExprPool(env, locals, pool, n.cond);
      var c := CompileExpr(env, locals, pool, n.cond);
      if c.Emitted? {
        var first := if n.If? then n.thenBranch else n.body;
        StmtPool(env, locals, depth, c.pool, first);
        var t := CompileStmt(env, locals, depth, c.pool, first);
        assert n.If? ==> CompileIf(env, locals, depth, pool, n).Compiled? == CompileBranches(env, locals, depth, c.pool, n).Compiled?;
        if n.If? && t.Compiled? { StmtPool(env, t.locals, depth, t.pool, n.elseBranch); }
      }
    } else if n.Print? || n.Return? {
      OptionalPool(env, locals, pool, n.expr);
    } else if n.CustomCall? {
      ArgsPool(env, locals, pool, n.args);
      var r := CompileArgs(env, locals, pool, n.args);
      if r.Emitted? { AddConstantGrows(env.h, r.pool, Str(n.name)); }
    }
  }

  lemma {:induction false} StmtsPool(env: Env, locals: seq<Local>, depth: nat, pool: seq<Value>, stmts: seq<Node>)
    ensures var r := CompileStmts(env, locals, depth, pool, stmts); r.Compiled? ==> Grows(env.h, pool, r.pool)
    decreases stmts, 0
  {
    if stmts != [] {
      StmtPool(env, locals, depth, pool, stmts[0]);
      var r := CompileStmt(env, locals, depth, pool, stmts[0]);
      if r.Compiled? { StmtsPool(env, r.locals, depth, r.pool, stmts[1..]); }
    }
  }

  /** The pool of a compiled program holds no value twice. */
  lemma ProgramPool(env: Env, program: Node)
    ensures var r := CompileProgram(env, program); r.Compiled? ==> NoDuplicates(env.h, r.pool)
  {
    if program.Block? { StmtsPool(env, [], 0, [], program.stmts); } else { StmtPool(env, [], 0, [], program); }
  }
}
