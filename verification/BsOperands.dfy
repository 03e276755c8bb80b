/** The constant operands of a compiled program: every instruction that carries one denotes, in the final pool, the value
    the tree has at that place, and no other instruction carries one. */
module BsOperands {
  import opened BsAst
  import opened BsValue
  import opened BsScopes
  import opened BsBytecode
  import opened BsVm
  import opened BsCodegen
  import opened BsSlots
  import opened BsWellFormed
  import opened BsLocals
  import opened BsLayout
  import opened BsHeights
  import opened BsSimExpr
  import opened BsSimOperators
  import opened BsSimStmt
  import opened BsDiscipline
  import opened BsStackSafety
  import opened BsCorrectness
  import opened BsProgramSafety
  import opened BsSweep
  import opened BsDisassembler

  // ----- What the tree means at an offset of its code -----

  function UseName(locals: seq<Local>, x: string): Option<Value> {
    if Resolve(locals, x) >= 0 then None else Some(Str(x))
  }

  /** The value the instruction at offset k of the code of e was emitted for, if it carries a constant. */
  function UseExpr(cmds: Registry, locals: seq<Local>, e: Node, k: nat): Option<Value>
    decreases e, 1
  {
    match e
    case Literal(v) => if v.Null? || v.Bool? then None else Some(v)
    case Identifier(x) => UseName(locals, x)
    case Unary(_, operand) => if k < Size(cmds, operand) then UseExpr(cmds, locals, operand, k) else None
    case Binary(op, left, right) =>
      var l := Size(cmds, left);
      var r := l + if op == AndAnd then 4 else if op == OrOr then 7 else 0;
      if k < l then UseExpr(cmds, locals, left, k)
      else if r <= k < r + Size(cmds, right) then UseExpr(cmds, locals, right, k - r)
      else None
    case Assign(x, value) =>
      if k < Size(cmds, value) then UseExpr(cmds, locals, value, k) else UseName(locals, x)
    case Call(name, args) =>
      var a := SizeArgs(cmds, args);
      if k < a then UseArgs(cmds, locals, args, k)
      else if IsNative(cmds, name) then Some(Str(name))
      else if k == a then UseName(locals, name)
      else None
    case _ => None
  }

  function UseArgs(cmds: Registry, locals: seq<Local>, args: seq<Node>, k: nat): Option<Value>
    decreases args, 0
  {
    if args == [] then None
    else
      var first := Size(cmds, args[0]);
      if k < first then UseExpr(cmds, locals, args[0], k) else UseArgs(cmds, locals, args[1..], k - first)
  }

  function UseOptional(cmds: Registry, locals: seq<Local>, e: Node, k: nat): Option<Value> {
    if e.Nil? then None else UseExpr(cmds, locals, e, k)
  }

  function UseStmt(cmds: Registry, locals: seq<Local>, depth: nat, n: Node, k: nat): Option<Value>
    decreases n, 1
  {
    match n
    case VarDecl(x, _, init) =>
      if k < SizeOptional(cmds, init) then UseOptional(cmds, locals, init, k)
      else if depth == 0 then Some(Str(x)) else None
    case ExprStmt(e) => if k < Size(cmds, e) then UseExpr(cmds, locals, e, k) else None
    case Block(stmts) =>
      if k < SizeStmts(cmds, stmts, depth + 1) then UseStmts(cmds, locals, depth + 1, stmts, k) else None
    case If(cond, thenBranch, elseBranch) =>
      var c, t := Size(cmds, cond), SizeStmt(cmds, thenBranch, depth);
      if k < c then UseExpr(cmds, locals, cond, k)
      else if c + 4 <= k < c + 4 + t then UseStmt(cmds, locals, depth, thenBranch, k - c - 4)
      else if !elseBranch.Nil? && k >= c + 8 + t then UseStmt(cmds, locals, depth, elseBranch, k - c - 8 - t)
      else None
    case While(cond, body) =>
      var c, b := Size(cmds, cond), SizeStmt(cmds, body, depth);
      if k < c then UseExpr(cmds, locals, cond, k)
      else if c + 4 <= k < c + 4 + b then UseStmt(cmds, locals, depth, body, k - c - 4)
      else None
    case Print(e, _, _) => if k < SizeOptional(cmds, e) then UseOptional(cmds, locals, e, k) else None
    case Return(e) => if k < SizeOptional(cmds, e) then UseOptional(cmds, locals, e, k) else None
    case CustomCall(name, args, _) =>
      var a := SizeArgs(cmds, args);
      if k < a then UseArgs(cmds, locals, args, k) else if k == a then Some(Str(name)) else None
    case _ => None
  }

  function UseStmts(cmds: Registry, locals: seq<Local>, depth: nat, stmts: seq<Node>, k: nat): Option<Value>
    decreases stmts, 0
  {
    if stmts == [] then None
    else
      var s := SizeStmt(cmds, stmts[0], depth);
      if k < s then UseStmt(cmds, locals, depth, stmts[0], k)
      else UseStmts(cmds, locals + NewLocals(stmts[0], depth), depth, stmts[1..], k - s)
  }

  function UseProgram(cmds: Registry, program: Node, k: nat): Option<Value> {
    if k >= SizeProgram(cmds, program) then None
    else if program.Block? then UseStmts(cmds, [], 0, program.stmts, k)
    else UseStmt(cmds, [], 0, program, k)
  }

  // ----- One instruction -----

  predicate CarriesConstant(i: Instr) {
    i.Constant? || i.DefineGlobal? || i.GetGlobal? || i.SetGlobal? || i.CallCommand?
  }

  /** The entry is the value, or one that the pool does not tell from it. */
  predicate SameConstant(h: Host, c: Value, v: Value) { c == v || ValuesEqual(h, c, v) }

  /** The instruction at ip carries a constant exactly if one is meant, and then the operand denotes it. */
  ghost predicate Denotes(m: Image, ip: nat, meant: Option<Value>) {
    var f := Fetch(m.code, ip);
    && f.Fetched?
    && (CarriesConstant(f.instr) <==> meant.Some?)
    && (meant.Some? ==> f.instr.index < |m.consts| && SameConstant(m.h, m.consts[f.instr.index], meant.value))
  }

  lemma DenotesNone(m: Image, ip: nat, i: Instr)
    requires Encodable(i) && CodeAt(m.code, ip, Encode(i)) && !CarriesConstant(i)
    ensures Denotes(m, ip, None)
  {
    hide Encode, CodeAt;
    FetchEncode(m.code, ip, i);
  }

  /** An operand emitted for v still denotes it in every pool that extends the one it was emitted with. */
  lemma DenotesSome(m: Image, pool: seq<Value>, v: Value, ip: nat, i: Instr)
    requires CarriesConstant(i) && i.index == PoolByte(m.h, pool, v) && CodeAt(m.code, ip, Encode(i))
    requires AddConstant(m.h, pool, v) <= m.consts && FindConstant(m.h, pool, v) < MAX_CONSTANTS
    ensures Denotes(m, ip, Some(v))
  {
    hide Encode, CodeAt, ValuesEqual;
    FetchEncode(m.code, ip, i);
    var k := FindConstant(m.h, pool, v);
    assert AddConstant(m.h, pool, v)[k] == m.consts[k];
  }

  lemma VariableUse(m: Image, r: Emitted, locals: seq<Local>, pool: seq<Value>, x: string, at: nat)
    requires r == GetVariable(m.h, locals, pool, x) || r == SetVariable(m.h, locals, pool, x)
    requires Placed(m, r, at)
    ensures Denotes(m, at, UseName(locals, x))
  {
    hide CodeAt, FindConstant, AddConstant, Encode, Denotes;
    var slot := Resolve(locals, x);
    var c := PoolByte(m.h, pool, Str(x));
    if slot >= 0 {
      DenotesNone(m, at, if r == GetVariable(m.h, locals, pool, x) then GetLocal(slot % 256) else SetLocal(slot % 256));
    } else {
      DenotesSome(m, pool, Str(x), at, if r == GetVariable(m.h, locals, pool, x) then GetGlobal(c) else SetGlobal(c));
    }
  }

  // ----- Expressions -----

  lemma {:induction false} ExprUse(m: Image, locals: seq<Local>, pool: seq<Value>, e: Node, at: nat, k: nat)
    requires WfExpr(e) && Placed(m, CompileExpr(EnvOf(m), locals, pool, e), at)
    requires k < Size(m.cmds, e) && Height(m.cmds, e, k) >= 0
    ensures Denotes(m, at + k, UseExpr(m.cmds, locals, e, k))
    decreases e, 2
  {
    hide Denotes, CodeAt, FindConstant, AddConstant, CompileArgs, CompileBinary, CompileCall;
    if e.Literal? || e.Identifier? {
      LeafUse(m, locals, pool, e, at);
    } else if e.Unary? {
      UnaryUse(m, locals, pool, e, at, k);
    } else if e.Assign? {
      AssignUse(m, locals, pool, e, at, k);
    } else if e.Binary? {
      BinaryUse(m, locals, pool, e, at, k);
    } else {
      CallUse(m, locals, pool, e, at, k);
    }
  }

  lemma LeafUse(m: Image, locals: seq<Local>, pool: seq<Value>, e: Node, at: nat)
    requires e.Literal? || e.Identifier?
    requires Placed(m, CompileExpr(EnvOf(m), locals, pool, e), at)
    ensures Denotes(m, at, UseExpr(m.cmds, locals, e, 0))
  {
    hide Denotes, CodeAt, FindConstant, AddConstant;
    if e.Literal? {
      if e.lit.Null? || e.lit.Bool? {
        DenotesNone(m, at, if e.lit.Null? then PushNull else if e.lit.b then PushTrue else PushFalse);
      } else {
        DenotesSome(m, pool, e.lit, at, Constant(PoolByte(m.h, pool, e.lit)));
      }
    } else {
      VariableUse(m, GetVariable(m.h, locals, pool, e.name), locals, pool, e.name, at);
    }
  }

  lemma {:induction false} UnaryUse(m: Image, locals: seq<Local>, pool: seq<Value>, e: Node, at: nat, k: nat)
    requires e.Unary? && WfExpr(e) && Placed(m, CompileExpr(EnvOf(m), locals, pool, e), at)
    requires k < Size(m.cmds, e) && Height(m.cmds, e, k) >= 0
    ensures Denotes(m, at + k, UseExpr(m.cmds, locals, e, k))
    decreases e, 1
  {
    hide Denotes, CodeAt, Encode;
    var c := CompileExpr(EnvOf(m), locals, pool, e.operand);
    SizeOfExpr(EnvOf(m), locals, pool, e.operand);
    CodeAtSplit(m.code, at, c.code, UnaryCode(e.op));
    if k < |c.code| {
      ExprUse(m, locals, pool, e.operand, at, k);
    } else {
      DenotesNone(m, at + k, if e.op == Bang then Not else Negate);
    }
  }

  lemma {:induction false} AssignUse(m: Image, locals: seq<Local>, pool: seq<Value>, e: Node, at: nat, k: nat)
    requires e.Assign? && WfExpr(e) && Placed(m, CompileExpr(EnvOf(m), locals, pool, e), at)
    requires k < Size(m.cmds, e) && Height(m.cmds, e, k) >= 0
    ensures Denotes(m, at + k, UseExpr(m.cmds, locals, e, k))
    decreases e, 1
  {
    hide Denotes, CodeAt, Encode, SetVariable;
    var c := CompileExpr(EnvOf(m), locals, pool, e.expr);
    var store := SetVariable(m.h, locals, c.pool, e.name);
    SizeOfExpr(EnvOf(m), locals, pool, e.expr);
    VariablePool(EnvOf(m), locals, c.pool, e.name);
    CodeAtSplit(m.code, at, c.code, store.code);
    if k < |c.code| {
      ExprUse(m, locals, pool, e.expr, at, k);
    } else {
      VariableUse(m, store, locals, c.pool, e.name, at + |c.code|);
    }
  }

  lemma {:induction false} BinaryUse(m: Image, locals: seq<Local>, pool: seq<Value>, e: Node, at: nat, k: nat)
    requires e.Binary? && WfExpr(e) && Placed(m, CompileExpr(EnvOf(m), locals, pool, e), at)
    requires k < Size(m.cmds, e) && Height(m.cmds, e, k) >= 0
    ensures Denotes(m, at + k, UseExpr(m.cmds, locals, e, k))
    decreases e, 1
  {
    hide Denotes, CodeAt, Encode, CompileExpr, BinaryCode, Height, UseExpr;
    BinaryMeans(m.cmds, locals, e, k);
    var l, r := PlacedOperands(m, locals, pool, e, at);
    var s := |l.code|;
    var right := s + if e.op == AndAnd then 4 else if e.op == OrOr then 7 else 0;
    if k < s {
      ExprUse(m, locals, pool, e.left, at, k);
    } else if right <= k < right + |r.code| {
      ExprUse(m, locals, l.pool, e.right, at + right, k - right);
    } else {
      BetweenUse(m, e, l.code, r.code, at, k);
    }
  }

  /** Where the operands of a binary operation stand, and what the tree means there. */
  lemma BinaryMeans(cmds: Registry, locals: seq<Local>, e: Node, k: nat)
    requires e.Binary? && WfExpr(e) && k < Size(cmds, e) && Height(cmds, e, k) >= 0
    ensures var l, r := Size(cmds, e.left), Size(cmds, e.right);
      var right := l + if e.op == AndAnd then 4 else if e.op == OrOr then 7 else 0;
      var use := UseExpr(cmds, locals, e, k);
      && (k < l ==> Height(cmds, e.left, k) >= 0 && use == UseExpr(cmds, locals, e.left, k))
      && (right <= k < right + r ==>
            Height(cmds, e.right, k - right) >= 0 && use == UseExpr(cmds, locals, e.right, k - right))
      && (l <= k && !(right <= k < right + r) ==> use == None)
  {
    HeightEnds(cmds, e.left);
    HeightEnds(cmds, e.right);
  }

  /** The jumps, pops and operators around the operands. */
  lemma BetweenUse(m: Image, e: Node, lcode: seq<byte>, rcode: seq<byte>, at: nat, k: nat)
    requires e.Binary? && (HasOpCode(e.op) || e.op == AndAnd || e.op == OrOr)
    requires CodeAt(m.code, at, BinaryCode(e.op, lcode, rcode))
    requires |lcode| == Size(m.cmds, e.left) && |rcode| == Size(m.cmds, e.right)
    requires e.op == AndAnd || e.op == OrOr ==> 1 + |rcode| <= MAX_JUMP
    requires |lcode| <= k < Size(m.cmds, e) && Height(m.cmds, e, k) >= 0
    requires var right := |lcode| + if e.op == AndAnd then 4 else if e.op == OrOr then 7 else 0;
      k < right || right + |rcode| <= k
    ensures Denotes(m, at + k, None)
  {
    hide Denotes, CodeAt, Encode, BinaryCode, Height, Size;
    BetweenStarts(m.cmds, e, k);
    if e.op == AndAnd {
      AndUse(m, lcode, rcode, at, k);
    } else if e.op == OrOr {
      OrUse(m, lcode, rcode, at, k);
    } else {
      OperatorLayout(m.code, at, e.op, lcode, rcode);
      DenotesNone(m, at + k, BinaryOp(e.op));
    }
  }

  lemma BetweenStarts(cmds: Registry, e: Node, k: nat)
    requires e.Binary? && (HasOpCode(e.op) || e.op == AndAnd || e.op == OrOr)
    requires Size(cmds, e.left) <= k < Size(cmds, e) && Height(cmds, e, k) >= 0
    ensures var l, r := Size(cmds, e.left), Size(cmds, e.right);
      && (e.op == AndAnd && !(l + 4 <= k < l + 4 + r) ==> k == l || k == l + 3)
      && (e.op == OrOr && !(l + 7 <= k < l + 7 + r) ==> k == l || k == l + 3 || k == l + 6)
      && (e.op != AndAnd && e.op != OrOr && k >= l + r ==> k == l + r)
  {
  }

  lemma AndUse(m: Image, lcode: seq<byte>, rcode: seq<byte>, at: nat, k: nat)
    requires CodeAt(m.code, at, BinaryCode(AndAnd, lcode, rcode)) && 1 + |rcode| <= MAX_JUMP
    requires k == |lcode| || k == |lcode| + 3
    ensures Denotes(m, at + k, None)
  {
    hide Denotes, CodeAt, Encode, BinaryCode;
    AndLayout(m.code, at, lcode, rcode);
    if k == |lcode| { DenotesNone(m, at + k, JumpIfFalse(1 + |rcode|)); } else { DenotesNone(m, at + k, Pop); }
  }

  lemma OrUse(m: Image, lcode: seq<byte>, rcode: seq<byte>, at: nat, k: nat)
    requires CodeAt(m.code, at, BinaryCode(OrOr, lcode, rcode)) && 1 + |rcode| <= MAX_JUMP
    requires k == |lcode| || k == |lcode| + 3 || k == |lcode| + 6
    ensures Denotes(m, at + k, None)
  {
    hide Denotes, CodeAt, Encode, BinaryCode;
    OrLayout(m.code, at, lcode, rcode);
    if k == |lcode| {
      DenotesNone(m, at + k, JumpIfFalse(3));
    } else if k == |lcode| + 3 {
      DenotesNone(m, at + k, Jump(1 + |rcode|));
    } else {
      DenotesNone(m, at + k, Pop);
    }
  }

  lemma {:induction false} CallUse(m: Image, locals: seq<Local>, pool: seq<Value>, e: Node, at: nat, k: nat)
    requires e.Call? && WfExpr(e) && Placed(m, CompileExpr(EnvOf(m), locals, pool, e), at)
    requires k < Size(m.cmds, e) && Height(m.cmds, e, k) >= 0
    ensures Denotes(m, at + k, UseExpr(m.cmds, locals, e, k))
    decreases e, 1
  {
    hide Denotes, CodeAt, Encode, CompileArgs, GetVariable, Invoke, HeightArgs, SizeArgs;
    PlacedArgs(m, locals, pool, e, at);
    PlacedInvocation(m, locals, pool, e, at);
    var c := CompileArgs(EnvOf(m), locals, pool, e.args);
    SizeOfArgs(EnvOf(m), locals, pool, e.args);
    if k < |c.code| {
      ArgsUse(m, locals, pool, e.args, at, k);
    } else if IsNative(m.cmds, e.name) {
      InvokeUse(m, c.pool, e.name, |e.args|, at + |c.code|);
    } else {
      ValueCallUse(m, locals, c.pool, e.name, |e.args|, at + |c.code|);
    }
  }

  lemma InvokeUse(m: Image, pool: seq<Value>, name: string, argc: nat, at: nat)
    requires Placed(m, Invoke(m.h, pool, name, argc), at)
    ensures Denotes(m, at, Some(Str(name)))
  {
    hide Denotes, CodeAt, FindConstant, AddConstant;
    DenotesSome(m, pool, Str(name), at, CallCommand(PoolByte(m.h, pool, Str(name)), argc % 256));
  }

  lemma ValueCallUse(m: Image, locals: seq<Local>, pool: seq<Value>, name: string, argc: byte, at: nat)
    requires var get := GetVariable(m.h, locals, pool, name);
      && get.Emitted? && get.exact && get.pool <= m.consts
      && CodeAt(m.code, at, get.code + Encode(CallValue(argc)))
    ensures Denotes(m, at, UseName(locals, name)) && Denotes(m, at + 2, None)
  {
    hide Denotes, CodeAt, GetVariable;
    var get := GetVariable(m.h, locals, pool, name);
    VariableSize(m.h, locals, pool, name);
    CodeAtSplit(m.code, at, get.code, Encode(CallValue(argc)));
    VariableUse(m, get, locals, pool, name, at);
    DenotesNone(m, at + 2, CallValue(argc));
  }

  lemma {:induction false} ArgsUse(m: Image, locals: seq<Local>, pool: seq<Value>, args: seq<Node>, at: nat, k: nat)
    requires WfArgs(args) && Placed(m, CompileArgs(EnvOf(m), locals, pool, args), at)
    requires k < SizeArgs(m.cmds, args) && HeightArgs(m.cmds, args, k) >= 0
    ensures Denotes(m, at + k, UseArgs(m.cmds, locals, args, k))
    decreases args, 0
  {
    hide Denotes, CodeAt, CompileExpr, CompileArgs, Height, Size, UseExpr;
    var c := PlacedFirst(m, locals, pool, args, at);
    if k < |c.code| {
      ExprUse(m, locals, pool, args[0], at, k);
    } else {
      HeightEnds(m.cmds, args[0]);
      HeightArgsEnds(m.cmds, args[1..]);
      ArgsUse(m, locals, c.pool, args[1..], at + |c.code|, k - |c.code|);
    }
  }

  lemma OptionalUse(m: Image, locals: seq<Local>, pool: seq<Value>, e: Node, at: nat, k: nat)
    requires e.Nil? || WfExpr(e)
    requires Placed(m, CompileOptional(EnvOf(m), locals, pool, e), at)
    requires k < SizeOptional(m.cmds, e) && OptionalHeight(m.cmds, e, k) >= 0
    ensures Denotes(m, at + k, UseOptional(m.cmds, locals, e, k))
  {
    hide Denotes, CodeAt, CompileExpr, WfExpr, Height, Size, UseExpr;
    if e.Nil? { DenotesNone(m, at, PushNull); } else { ExprUse(m, locals, pool, e, at, k); }
  }

  // ----- Statements -----

  lemma {:induction false} StmtUse(m: Image, locals: seq<Local>, depth: nat, pool: seq<Value>, n: Node, at: nat, k: nat)
    requires StmtInPlace(m, locals, depth, pool, n, at)
    requires k < SizeStmt(m.cmds, n, depth) && StmtPoint(m.cmds, n, depth, k).Start?
    ensures Denotes(m, at + k, UseStmt(m.cmds, locals, depth, n, k))
    decreases n, 3
  {
    hide Denotes, WfStmt, NeedStmt, CompileIf, CompileWhile, Size, SizeArgs, SizeStmts, Height, HeightArgs, StmtsPoint,
         IfPoint, WhilePoint, UseExpr, UseArgs, UseStmts;
    if n.VarDecl? {
      DeclUse(m, locals, depth, pool, n, at, k);
    } else if n.ExprStmt? || n.Print? || n.Return? {
      SimpleUse(m, locals, depth, pool, n, at, k);
    } else if n.CustomCall? {
      CommandUse(m, locals, depth, pool, n, at, k);
    } else if n.Block? {
      BlockUse(m, locals, depth, pool, n, at, k);
    } else if n.If? {
      IfUse(m, locals, depth, pool, n, at, k);
    } else if n.While? {
      WhileUse(m, locals, depth, pool, n, at, k);
    }
  }

  lemma SimpleUse(m: Image, locals: seq<Local>, depth: nat, pool: seq<Value>, n: Node, at: nat, k: nat)
    requires (n.ExprStmt? || n.Print? || n.Return?) && StmtInPlace(m, locals, depth, pool, n, at)
    requires k < SizeStmt(m.cmds, n, depth) && StmtPoint(m.cmds, n, depth, k).Start?
    ensures Denotes(m, at + k, UseStmt(m.cmds, locals, depth, n, k))
  {
    hide Denotes, CodeAt, Encode, CompileExpr, WfExpr, Height, Size, Need, UseExpr;
    var e := CompileOptional(EnvOf(m), locals, pool, n.expr);
    if n.expr.Nil? { NothingCompiled(EnvOf(m), locals, pool); }
    SizeOfOptional(EnvOf(m), locals, pool, n.expr);
    CodeAtSplit(m.code, at, e.code, Encode(LastOf(n)));
    if k < |e.code| { OptionalUse(m, locals, pool, n.expr, at, k); } else { DenotesNone(m, at + k, LastOf(n)); }
  }

  lemma DeclUse(m: Image, locals: seq<Local>, depth: nat, pool: seq<Value>, n: Node, at: nat, k: nat)
    requires n.VarDecl? && StmtInPlace(m, locals, depth, pool, n, at)
    requires k < SizeStmt(m.cmds, n, depth) && StmtPoint(m.cmds, n, depth, k).Start?
    ensures Denotes(m, at + k, UseStmt(m.cmds, locals, depth, n, k))
  {
    hide Denotes, CodeAt, CompileOptional, WfExpr, OptionalHeight, SizeOptional, Need, FindConstant, AddConstant, UseOptional;
    var e := CompileOptional(EnvOf(m), locals, pool, n.expr);
    SizeOfOptional(EnvOf(m), locals, pool, n.expr);
    OptionalEnds(m.cmds, n.expr);
    if depth == 0 {
      AddConstantGrows(m.h, e.pool, Str(n.name));
      var i := DefineGlobal(PoolByte(m.h, e.pool, Str(n.name)));
      CodeAtSplit(m.code, at, e.code, Encode(i));
      if k >= |e.code| { DenotesSome(m, e.pool, Str(n.name), at + |e.code|, i); }
    }
    if k < |e.code| { OptionalUse(m, locals, pool, n.expr, at, k); }
  }

  lemma CommandUse(m: Image, locals: seq<Local>, depth: nat, pool: seq<Value>, n: Node, at: nat, k: nat)
    requires n.CustomCall? && StmtInPlace(m, locals, depth, pool, n, at)
    requires k < SizeStmt(m.cmds, n, depth) && StmtPoint(m.cmds, n, depth, k).Start?
    ensures Denotes(m, at + k, UseStmt(m.cmds, locals, depth, n, k))
  {
    hide Denotes, CodeAt, CompileArgs, Invoke, WfArgs, NeedArgs, HeightArgs, SizeArgs, UseArgs;
    var c := PlacedCustomCall(m, locals, depth, pool, n, at);
    SizeOfArgs(EnvOf(m), locals, pool, n.args);
    HeightArgsEnds(m.cmds, n.args);
    InvokeSize(m.h, c.pool, n.name, |n.args|);
    if k < |c.code| {
      ArgsUse(m, locals, pool, n.args, at, k);
    } else if k == |c.code| {
      InvokeUse(m, c.pool, n.name, |n.args|, at + |c.code|);
    } else {
      DenotesNone(m, at + k, Pop);
    }
  }

  lemma {:induction false} BlockUse(m: Image, locals: seq<Local>, depth: nat, pool: seq<Value>, n: Node, at: nat, k: nat)
    requires n.Block? && StmtInPlace(m, locals, depth, pool, n, at)
    requires k < SizeStmt(m.cmds, n, depth) && StmtPoint(m.cmds, n, depth, k).Start?
    ensures Denotes(m, at + k, UseStmt(m.cmds, locals, depth, n, k))
    decreases n, 2
  {
    hide Denotes, CodeAt, Encode, CompileStmts, WfStmts, NeedStmts, StmtsPoint, SizeStmts, Pops, KeepLocals, UseStmts;
    var c, inner := PlacedBlock(m, locals, depth, pool, n, at);
    SizeOfStmts(EnvOf(m), locals, depth + 1, pool, n.stmts);
    if k < |c.code| {
      StmtsUse(m, locals, depth + 1, pool, n.stmts, at, k);
    } else {
      LocalsAfterAll(EnvOf(m), locals, depth + 1, pool, n.stmts);
      assert inner == c.locals[|locals|..] == DeclaredIn(n.stmts, depth + 1);
      PopInside(m.code, at + |c.code|, |inner|, k - |c.code|);
      DenotesNone(m, at + k, Pop);
    }
  }

  lemma {:induction false} StmtsUse(m: Image, locals: seq<Local>, depth: nat, pool: seq<Value>, stmts: seq<Node>, at: nat, k: nat)
    requires WfStmts(stmts, |locals|, depth) && DepthsOrdered(locals, depth)
    requires PlacedStmt(m, CompileStmts(EnvOf(m), locals, depth, pool, stmts), at)
    requires |locals| + NeedStmts(stmts, depth) <= MAX_STACK
    requires k < SizeStmts(m.cmds, stmts, depth) && StmtsPoint(m.cmds, stmts, depth, k).Start?
    ensures Denotes(m, at + k, UseStmts(m.cmds, locals, depth, stmts, k))
    decreases stmts, 0
  {
    hide Denotes, CodeAt, CompileStmt, CompileStmts, WfStmt, NeedStmt, StmtPoint, SizeStmt, UseStmt;
    var c := PlacedHead(m, locals, depth, pool, stmts, at);
    if k < |c.code| {
      StmtUse(m, locals, depth, pool, stmts[0], at, k);
    } else {
      StmtsUse(m, c.locals, depth, c.pool, stmts[1..], at + |c.code|, k - |c.code|);
    }
  }

  lemma {:induction false} IfUse(m: Image, locals: seq<Local>, depth: nat, pool: seq<Value>, n: Node, at: nat, k: nat)
    requires n.If? && WfStmt(n, |locals|, depth) && DepthsOrdered(locals, depth)
    requires PlacedStmt(m, CompileIf(EnvOf(m), locals, depth, pool, n), at) && |locals| + NeedStmt(n, depth) <= MAX_STACK
    requires k < SizeStmt(m.cmds, n, depth) && StmtPoint(m.cmds, n, depth, k).Start?
    ensures Denotes(m, at + k, UseStmt(m.cmds, locals, depth, n, k))
    decreases n, 2
  {
    hide Denotes, CodeAt, CompileExpr, CompileIf, CompileBranches, WfExpr, Height, Size, StmtPoint, UseExpr;
    var c := PlacedIf(m, locals, depth, pool, n, at);
    IfPoints(m.cmds, n, depth);
    if k < |c.code| {
      ExprUse(m, locals, pool, n.cond, at, k);
    } else if n.elseBranch.Nil? {
      ThenUse(m, locals, depth, c.pool, n, at + |c.code|, k);
    } else {
      ThenElseUse(m, locals, depth, c.pool, n, at + |c.code|, k);
    }
  }

  lemma {:induction false} ThenUse(m: Image, locals: seq<Local>, depth: nat, pool: seq<Value>, n: Node, a: nat, k: nat)
    requires n.If? && n.elseBranch.Nil? && WfStmt(n, |locals|, depth) && DepthsOrdered(locals, depth)
    requires PlacedStmt(m, CompileBranches(EnvOf(m), locals, depth, pool, n), a) && |locals| + NeedStmt(n, depth) <= MAX_STACK
    requires Size(m.cmds, n.cond) <= k < SizeStmt(m.cmds, n, depth) && IfPoint(m.cmds, n, depth, k).Start?
    ensures Denotes(m, a + k - Size(m.cmds, n.cond), UseStmt(m.cmds, locals, depth, n, k))
    decreases n, 1
  {
    hide Denotes, CodeAt, CompileStmt, IfCode, WfExpr, Height, Size, StmtPoint, Encode, UseExpr;
    var t := CompileStmt(EnvOf(m), locals, depth, pool, n.thenBranch);
    IfLayout(m.code, a, t.code);
    SizeOfStmt(EnvOf(m), locals, depth, pool, n.thenBranch);
    var d := k - Size(m.cmds, n.cond);
    if 4 <= d < 4 + |t.code| {
      StmtUse(m, locals, depth, pool, n.thenBranch, a + 4, d - 4);
    } else {
      DenotesNone(m, a + d, if d == 0 then JumpIfFalse(1 + |t.code|) else Pop);
    }
  }

  /** Where the parts of an if with else stand, and what the tree means there. */
  lemma ThenElseParts(cmds: Registry, locals: seq<Local>, depth: nat, n: Node, k: nat)
    requires n.If? && !n.elseBranch.Nil? && IfPoint(cmds, n, depth, k).Start?
    requires Size(cmds, n.cond) <= k < SizeStmt(cmds, n, depth)
    ensures var c, t := Size(cmds, n.cond), SizeStmt(cmds, n.thenBranch, depth);
      var use := UseStmt(cmds, locals, depth, n, k);
      && (c < k && c + 4 <= k < c + 4 + t ==>
            && StmtPoint(cmds, n.thenBranch, depth, k - c - 4).Start?
            && use == UseStmt(cmds, locals, depth, n.thenBranch, k - c - 4))
      && (k >= c + 8 + t ==>
            && StmtPoint(cmds, n.elseBranch, depth, k - c - 8 - t).Start?
            && k - c - 8 - t < SizeStmt(cmds, n.elseBranch, depth)
            && use == UseStmt(cmds, locals, depth, n.elseBranch, k - c - 8 - t))
      && (k < c + 4 || c + 4 + t <= k < c + 8 + t ==>
            use == None && (k == c || k == c + 3 || k == c + 4 + t || k == c + 7 + t))
  {
    hide Size, Height, UseExpr;
  }

  lemma {:induction false} ThenElseUse(m: Image, locals: seq<Local>, depth: nat, pool: seq<Value>, n: Node, a: nat, k: nat)
    requires n.If? && !n.elseBranch.Nil? && WfStmt(n, |locals|, depth) && DepthsOrdered(locals, depth)
    requires PlacedStmt(m, CompileBranches(EnvOf(m), locals, depth, pool, n), a) && |locals| + NeedStmt(n, depth) <= MAX_STACK
    requires Size(m.cmds, n.cond) <= k < SizeStmt(m.cmds, n, depth) && IfPoint(m.cmds, n, depth, k).Start?
    ensures Denotes(m, a + k - Size(m.cmds, n.cond), UseStmt(m.cmds, locals, depth, n, k))
    decreases n, 1
  {
    hide Denotes, CodeAt, CompileStmt, IfElseCode, WfExpr, Height, Size, SizeStmt, StmtPoint, IfPoint, Encode, UseExpr, UseStmt;
    ThenElseParts(m.cmds, locals, depth, n, k);
    var t := CompileStmt(EnvOf(m), locals, depth, pool, n.thenBranch);
    LocalsAfter(EnvOf(m), locals, depth, pool, n.thenBranch);
    assert t.locals == locals;
    var e := CompileStmt(EnvOf(m), locals, depth, t.pool, n.elseBranch);
    StmtPool(EnvOf(m), locals, depth, t.pool, n.elseBranch);
    IfElseLayout(m.code, a, t.code, e.code);
    SizeOfStmt(EnvOf(m), locals, depth, pool, n.thenBranch);
    var d := k - Size(m.cmds, n.cond);
    if 4 <= d < 4 + |t.code| {
      StmtUse(m, locals, depth, pool, n.thenBranch, a + 4, d - 4);
    } else if d >= 8 + |t.code| {
      StmtUse(m, locals, depth, t.pool, n.elseBranch, a + 8 + |t.code|, d - 8 - |t.code|);
    } else if d == 0 {
      DenotesNone(m, a, JumpIfFalse(|t.code| + 4));
    } else if d == 4 + |t.code| {
      DenotesNone(m, a + d, Jump(1 + |e.code|));
    } else {
      DenotesNone(m, a + d, Pop);
    }
  }

  lemma {:induction false} WhileUse(m: Image, locals: seq<Local>, depth: nat, pool: seq<Value>, n: Node, at: nat, k: nat)
    requires n.While? && WfStmt(n, |locals|, depth) && DepthsOrdered(locals, depth)
    requires PlacedStmt(m, CompileWhile(EnvOf(m), locals, depth, pool, n), at) && |locals| + NeedStmt(n, depth) <= MAX_STACK
    requires k < SizeStmt(m.cmds, n, depth) && StmtPoint(m.cmds, n, depth, k).Start?
    ensures Denotes(m, at + k, UseStmt(m.cmds, locals, depth, n, k))
    decreases n, 2
  {
    hide Denotes, CodeAt, CompileExpr, CompileStmt, WhileCode, WfExpr, Height, Size, StmtPoint, Encode, UseExpr;
    WhilePoints(m.cmds, n, depth);
    var c := CompileExpr(EnvOf(m), locals, pool, n.cond);
    var b := CompileStmt(EnvOf(m), locals, depth, c.pool, n.body);
    StmtPool(EnvOf(m), locals, depth, c.pool, n.body);
    WhileLayout(m.code, at, c.code, b.code);
    SizeOfExpr(EnvOf(m), locals, pool, n.cond);
    SizeOfStmt(EnvOf(m), locals, depth, c.pool, n.body);
    if k < |c.code| {
      ExprUse(m, locals, pool, n.cond, at, k);
    } else {
      var a, d := at + |c.code|, k - |c.code|;
      if 4 <= d < 4 + |b.code| {
        StmtUse(m, locals, depth, c.pool, n.body, a + 4, d - 4);
      } else {
        var i := if d == 0 then JumpIfFalse(|b.code| + 4) else if d == 4 + |b.code| then Loop(|c.code| + |b.code| + 7) else Pop;
        DenotesNone(m, a + d, i);
      }
    }
  }

  // ----- Whole programs -----

  /** Every instruction of a compiled program carries a constant exactly where the tree asks for one, and its operand
      byte denotes that value in the final pool, although later code may have added to the pool since. */
  lemma OperandsDenote(env: Env, program: Node, k: nat)
    requires Compilable(env, program)
    requires var m := ImageOf(env, program); k < |m.code| && Sweeps(m.code, 0, k)
    ensures Denotes(ImageOf(env, program), k, UseProgram(env.cmds, program, k))
  {
    hide CompileProgram, CompileStmts, CompileStmt, WfStmts, WfStmt, NeedStmts, NeedStmt, SizeStmt, SizeStmts,
         StmtPoint, StmtsPoint, Sweeps, CodeAt, Encode, Denotes, UseStmts, UseStmt;
    var m := ImageOf(env, program);
    ProgramPlaced(env, program);
    assert EnvOf(m) == env;
    if k == SizeProgram(env.cmds, program) {
      DenotesNone(m, k, Halt);
    } else {
      ProgramSweep(env, program, k);
      if program.Block? { StmtsUse(m, [], 0, [], program.stmts, 0, k); } else { StmtUse(m, [], 0, [], program, 0, k); }
    }
  }
}
