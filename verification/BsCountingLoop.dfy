/** A loop that counts: what it prints, in the interpreter and compiled. */
module BsCountingLoop {
  import opened BsAst
  import opened BsValue
  import opened BsScopes
  import opened BsInterpreter
  import opened BsBytecode
  import opened BsVm
  import opened BsCodegen
  import opened BsSlots
  import opened BsWellFormed
  import opened BsLocals
  import opened BsHeights
  import opened BsSimExpr
  import opened BsCorrectness

  /** i < n */
  function Condition(): Node { Binary(Less, Identifier("i"), Identifier("n")) }

  /** i = i + 1 */
  function Step(): Node { Assign("i", Binary(Plus, Identifier("i"), Literal(Int(1)))) }

  function PrintI(): Node { Print(Identifier("i"), false, true) }

  /** { print i; i = i + 1; } */
  function Body(): Node { Block([PrintI(), ExprStmt(Step())]) }

  function Loop(): Node { While(Condition(), Body()) }

  /** k, k + 1, ..., n - 1, one on each line. */
  function Numbers(h: Host, k: int, n: int): string
    decreases n - k
  {
    if k >= n then "" else PrintText(h, Int(k)) + "\n" + Numbers(h, k + 1, n)
  }

  /** The global scope with the two variables. */
  predicate Counting(g: Scope, k: int, n: int) {
    "i" in g && g["i"] == Binding(Int(k), false) && "n" in g && g["n"].value == Int(n)
  }

  lemma ConditionRuns(h: Host, fuel: nat, s: State, g: Scope, k: int, n: int)
    requires s.scopes == [g] && Counting(g, k, n)
    ensures EvalExpr(h, fuel, Condition(), s) == Result(Ok, Bool(k < n), s)
  {
    assert EvalExpr(h, fuel, Identifier("i"), s) == Result(Ok, Int(k), s);
    assert EvalExpr(h, fuel, Identifier("n"), s) == Result(Ok, Int(n), s);
    assert EvalBinary(h, fuel, Condition(), s) == Result(Ok, Bool(k < n), s);
  }

  lemma PrintRuns(h: Host, fuel: nat, s: State, g: Scope, k: int, n: int)
    requires s.scopes == [map[], g] && Counting(g, k, n)
    ensures EvalStmt(h, fuel, PrintI(), s) == Done(s.(out := s.out + PrintText(h, Int(k)) + "\n"))
  {
    assert s.scopes[1..] == [g] && Lookup([g], "i") == Some(g["i"]);
    assert EvalExpr(h, fuel, Identifier("i"), s) == Result(Ok, Int(k), s);
  }

  lemma StepRuns(h: Host, fuel: nat, s: State, g: Scope, k: int, n: int)
    requires s.scopes == [map[], g] && Counting(g, k, n)
    ensures EvalStmt(h, fuel, ExprStmt(Step()), s) == Done(s.(scopes := [map[], g["i" := Binding(Int(k + 1), false)]]))
  {
    assert s.scopes[1..] == [g] && Lookup([g], "i") == Some(g["i"]);
    var sum := Binary(Plus, Identifier("i"), Literal(Int(1)));
    assert EvalExpr(h, fuel, Identifier("i"), s) == Result(Ok, Int(k), s);
    assert EvalExpr(h, fuel, Literal(Int(1)), s) == Result(Ok, Int(1), s);
    assert EvalBinary(h, fuel, sum, s) == Result(Ok, Int(k + 1), s);
    assert [g][0 := g["i" := Binding(Int(k + 1), false)]] == [g["i" := Binding(Int(k + 1), false)]];
    assert AssignTo([g], "i", Int(k + 1)) == Some([g["i" := Binding(Int(k + 1), false)]]);
    assert [s.scopes[0]] + [g["i" := Binding(Int(k + 1), false)]] == [map[], g["i" := Binding(Int(k + 1), false)]];
    assert EvalExpr(h, fuel, Step(), s) == Result(Ok, Int(k + 1), s.(scopes := [map[], g["i" := Binding(Int(k + 1), false)]]));
  }

  lemma BodyRuns(h: Host, fuel: nat, s: State, g: Scope, k: int, n: int)
    requires s.scopes == [g] && Counting(g, k, n)
    ensures EvalStmt(h, fuel, Body(), s) ==
      Done(s.(scopes := [g["i" := Binding(Int(k + 1), false)]], out := s.out + PrintText(h, Int(k)) + "\n"))
  {
    hide PrintText;
    var inner := s.Push();
    assert inner.scopes == [map[], g];
    var g1 := g["i" := Binding(Int(k + 1), false)];
    var printed := inner.(out := s.out + PrintText(h, Int(k)) + "\n");
    var stepped := printed.(scopes := [map[], g1]);
    PrintRuns(h, fuel, inner, g, k, n);
    StepRuns(h, fuel, printed, g, k, n);
    BlockRuns(h, fuel, PrintI(), ExprStmt(Step()), s, printed, stepped);
    assert stepped.Pop().scopes == [g1];
  }

  lemma BlockRuns(h: Host, fuel: nat, a: Node, b: Node, s: State, mid: State, end: State)
    requires EvalStmt(h, fuel, a, s.Push()) == Done(mid) && EvalStmt(h, fuel, b, mid) == Done(end)
    ensures EvalStmt(h, fuel, Block([a, b]), s) == Done(end.Pop())
  {
    var stmts := [a, b];
    assert stmts[1..] == [b];
    assert EvalStmts(h, fuel, [b], mid) == Done(end);
    assert EvalStmts(h, fuel, stmts, s.Push()) == Done(end);
  }

  /** From i == k the loop prints k, ..., n - 1, ends normally with i at n (or where it was), and changes nothing else.
      It needs no more fuel than it makes rounds. */
  lemma {:induction false} LoopCounts(h: Host, fuel: nat, s: State, g: Scope, k: int, n: int)
    requires s.scopes == [g] && Counting(g, k, n) && fuel >= n - k
    ensures var end := if k < n then n else k;
      EvalStmt(h, fuel, Loop(), s) ==
        Done(s.(scopes := [g["i" := Binding(Int(end), false)]], out := s.out + Numbers(h, k, n)))
    decreases fuel
  {
    hide EvalExpr, Body, Condition, PrintText;
    ConditionRuns(h, fuel, s, g, k, n);
    if k < n {
      BodyRuns(h, fuel, s, g, k, n);
      var g1 := g["i" := Binding(Int(k + 1), false)];
      var s1 := s.(scopes := [g1], out := s.out + PrintText(h, Int(k)) + "\n");
      RoundRuns(h, fuel, s, s1, true);
      LoopCounts(h, fuel - 1, s1, g1, k + 1, n);
      assert g1["i" := Binding(Int(n), false)] == g["i" := Binding(Int(n), false)];
      assert s.out + PrintText(h, Int(k)) + "\n" + Numbers(h, k + 1, n) == s.out + Numbers(h, k, n);
    } else {
      RoundRuns(h, fuel, s, s, false);
      assert g["i" := Binding(Int(k), false)] == g;
      assert s.out + "" == s.out;
    }
  }

  lemma RoundRuns(h: Host, fuel: nat, s: State, s1: State, goes: bool)
    requires EvalExpr(h, fuel, Condition(), s) == Result(Ok, Bool(goes), s)
    requires goes ==> EvalStmt(h, fuel, Body(), s) == Done(s1)
    ensures !goes ==> EvalStmt(h, fuel, Loop(), s) == Done(s)
    ensures goes && fuel > 0 ==> EvalStmt(h, fuel, Loop(), s) == EvalStmt(h, fuel - 1, Loop(), s1)
  {
    hide EvalExpr, Body, Condition;
    var c, b := Condition(), Body();
    assert EvalCond(h, fuel, Loop(), c, s) == Result(Ok, Bool(goes), s);
    if goes {
      assert BsInterpreter.EvalBody(h, fuel, Loop(), Nil, b, s) == Again(s1);
      assert EvalRound(h, fuel, Loop(), c, Nil, b, s) == Again(s1);
    } else {
      assert EvalRound(h, fuel, Loop(), c, Nil, b, s) == Stop(Done(s));
    }
  }

  // ----- As a program -----

  function Declare(x: string, i: int): Node { VarDecl(x, false, Literal(Int(i))) }

  /** var i = k; var n = n; while (i < n) { print i; i = i + 1; } */
  function Program(k: int, n: int): Node { Block(Statements(k, n)) }

  function Statements(k: int, n: int): (r: seq<Node>)
    ensures |r| == 3 && r[0] == Declare("i", k) && r[1] == r[1..][0] == Declare("n", n)
    ensures r[2] == r[1..][1..][0] == Loop()
    ensures r[1..][1..][1..] == []
  {
    [Declare("i", k), Declare("n", n), Loop()]
  }

  /** The interpreter's run of the program. */
  lemma ProgramCounts(h: Host, fuel: nat, cmds: Registry, globals: Scope, k: int, n: int)
    requires "main" !in globals && fuel >= n - k
    ensures var g := globals["i" := Binding(Int(if k < n then n else k), false)]["n" := Binding(Int(n), false)];
      EvalProgram(h, fuel, Program(k, n), StartState(cmds, globals)) == Done(State([g], cmds, Numbers(h, k, n), true))
  {
    hide Loop, Numbers;
    var s := StartState(cmds, globals);
    var g1 := globals["i" := Binding(Int(k), false)];
    var g2 := g1["n" := Binding(Int(n), false)];
    var s1, s2 := s.(scopes := [g1]), s.(scopes := [g2]);
    DeclareRuns(h, fuel, s, globals, "i", k);
    DeclareRuns(h, fuel, s1, g1, "n", n);
    LoopCounts(h, fuel, s2, g2, k, n);
    var last := if k < n then n else k;
    var end := s2.(scopes := [g2["i" := Binding(Int(last), false)]], out := s2.out + Numbers(h, k, n));
    assert g2["i" := Binding(Int(last), false)]
        == globals["i" := Binding(Int(last), false)]["n" := Binding(Int(n), false)];
    assert "" + Numbers(h, k, n) == Numbers(h, k, n);
    hide EvalStmt;
    var rest := Statements(k, n)[1..];
    assert EvalTop(h, fuel, rest[1..], s2) == Done(end);
    assert EvalTop(h, fuel, rest, s1) == Done(end);
    assert EvalTop(h, fuel, Statements(k, n), s) == Done(end);
    NoMain(h, fuel, end);
  }

  lemma DeclareRuns(h: Host, fuel: nat, s: State, g: Scope, x: string, i: int)
    requires s.scopes == [g]
    ensures EvalStmt(h, fuel, Declare(x, i), s) == Done(s.(scopes := [g[x := Binding(Int(i), false)]]))
  {
    assert EvalExpr(h, fuel, Literal(Int(i)), s) == Result(Ok, Int(i), s);
    assert [g][0 := g[x := Binding(Int(i), false)]] == [g[x := Binding(Int(i), false)]];
  }

  lemma NoMain(h: Host, fuel: nat, s: State)
    requires |s.scopes| == 1 && "main" !in s.scopes[0]
    ensures CallMain(h, fuel, s) == Done(s)
  {
    assert s.scopes[1..] == [];
    assert Lookup(s.scopes[1..], "main") == None;
  }

  // ----- It compiles -----

  lemma ReferringSmall(h: Host, pool: seq<Value>, v: Value, i: Instr)
    requires |pool| < MAX_CONSTANTS
    ensures var r := Referring(h, pool, v, i); r.Emitted? && r.exact && |r.pool| <= |pool| + 1
  {
  }

  lemma LeafSmall(env: Env, pool: seq<Value>, x: string, i: int)
    requires |pool| < MAX_CONSTANTS
    ensures var r := CompileExpr(env, [], pool, Identifier(x)); r.Emitted? && r.exact && |r.pool| <= |pool| + 1
    ensures var r := CompileExpr(env, [], pool, Literal(Int(i))); r.Emitted? && r.exact && |r.pool| <= |pool| + 1
  {
    hide FindConstant, AddConstant;
    ReferringSmall(env.h, pool, Str(x), GetGlobal(PoolByte(env.h, pool, Str(x))));
    ReferringSmall(env.h, pool, Int(i), Constant(PoolByte(env.h, pool, Int(i))));
  }

  lemma OperatorSmall(env: Env, pool: seq<Value>, e: Node)
    requires e.Binary? && e.op != AndAnd && e.op != OrOr && |pool| + 1 < MAX_CONSTANTS
    requires e.left.Identifier? && (e.right.Identifier? || (e.right.Literal? && e.right.lit.Int?))
    ensures var r := CompileExpr(env, [], pool, e); r.Emitted? && r.exact && |r.pool| <= |pool| + 2
  {
    hide FindConstant, AddConstant, BinaryCode, Encode;
    LeafSmall(env, pool, e.left.name, 0);
    var l := CompileExpr(env, [], pool, e.left);
    LeafSmall(env, l.pool, if e.right.Identifier? then e.right.name else "", if e.right.Literal? then e.right.lit.i else 0);
    assert CompileBinary(env, [], pool, e) == CompileExpr(env, [], pool, e);
  }

  lemma StepSmall(env: Env, pool: seq<Value>)
    requires |pool| + 2 < MAX_CONSTANTS
    ensures var r := CompileStmt(env, [], 1, pool, ExprStmt(Step()));
      r.Compiled? && r.exact && |r.pool| <= |pool| + 3 && r.locals == []
  {
    hide FindConstant, AddConstant, BinaryCode, Encode, CompileBinary;
    var sum := Binary(Plus, Identifier("i"), Literal(Int(1)));
    OperatorSmall(env, pool, sum);
    var c := CompileExpr(env, [], pool, sum);
    ReferringSmall(env.h, c.pool, Str("i"), SetGlobal(PoolByte(env.h, c.pool, Str("i"))));
  }

  lemma PrintSmall(env: Env, pool: seq<Value>)
    requires |pool| < MAX_CONSTANTS
    ensures var r := CompileStmt(env, [], 1, pool, PrintI());
      r.Compiled? && r.exact && |r.pool| <= |pool| + 1 && r.locals == []
  {
    hide FindConstant, AddConstant, Encode;
    LeafSmall(env, pool, "i", 0);
  }

  lemma BodySmall(env: Env, pool: seq<Value>)
    requires |pool| + 3 < MAX_CONSTANTS
    ensures var r := CompileStmt(env, [], 0, pool, Body());
      r.Compiled? && r.exact && |r.pool| <= |pool| + 4 && r.locals == []
  {
    hide CompileStmt, PrintI, Step;
    PrintSmall(env, pool);
    var c := CompileStmt(env, [], 1, pool, PrintI());
    StepSmall(env, c.pool);
    var stmts := [PrintI(), ExprStmt(Step())];
    var none: seq<Node> := [];
    assert stmts[1..] == [ExprStmt(Step())] && stmts[1..][1..] == none;
    var d := CompileStmt(env, [], 1, c.pool, ExprStmt(Step()));
    assert CompileStmts(env, [], 1, d.pool, none) == Compiled([], d.pool, true, []);
    assert CompileStmts(env, [], 1, c.pool, stmts[1..]).exact;
    BlockSmall(env, pool, stmts);
  }

  lemma BlockSmall(env: Env, pool: seq<Value>, stmts: seq<Node>)
    requires var c := CompileStmts(env, [], 1, pool, stmts); c.Compiled? && c.exact && c.locals == []
    ensures var c := CompileStmts(env, [], 1, pool, stmts);
      var r := CompileStmt(env, [], 0, pool, Block(stmts)); r.Compiled? && r.exact && r.pool == c.pool && r.locals == []
  {
    hide CompileStmts;
  }

  lemma LoopSmall(env: Env, pool: seq<Value>)
    requires |pool| + 5 < MAX_CONSTANTS
    ensures var r := CompileStmt(env, [], 0, pool, Loop()); r.Compiled? && r.exact && r.locals == []
  {
    hide WhileCode, Condition, Body;
    ConditionSmall(env, pool);
    var c := CompileExpr(env, [], pool, Condition());
    BodySmall(env, c.pool);
    var b := CompileStmt(env, [], 0, c.pool, Body());
    BodyWellFormed();
    SizeOfExpr(env, [], pool, Condition());
    SizeOfStmt(env, [], 0, c.pool, Body());
    Sizes(env.cmds);
    hide CompileExpr, CompileStmt;
    LoopUnfold(env, pool);
  }

  lemma ConditionSmall(env: Env, pool: seq<Value>)
    requires |pool| + 1 < MAX_CONSTANTS
    ensures var r := CompileExpr(env, [], pool, Condition()); r.Emitted? && r.exact && |r.pool| <= |pool| + 2
  {
    OperatorSmall(env, pool, Condition());
  }

  lemma LoopUnfold(env: Env, pool: seq<Value>)
    requires var c := CompileExpr(env, [], pool, Condition());
      c.Emitted? && c.exact && |c.code| <= 100
      && var b := CompileStmt(env, [], 0, c.pool, Body()); b.Compiled? && b.exact && |b.code| <= 100 && b.locals == []
    ensures var r := CompileStmt(env, [], 0, pool, Loop()); r.Compiled? && r.exact && r.locals == []
  {
    hide WhileCode, Condition, Body, CompileExpr;
    var w := CompileWhile(env, [], 0, pool, Loop());
  }

  lemma Sizes(cmds: Registry)
    ensures Size(cmds, Condition()) <= 100 && SizeStmt(cmds, Body(), 0) <= 100
  {
    hide Size, SizeStmt, PrintI, Step, Condition;
    StepSize(cmds);
    SmallSizes(cmds);
    TwoSizes(cmds, PrintI(), ExprStmt(Step()));
  }

  lemma SmallSizes(cmds: Registry)
    ensures Size(cmds, Condition()) == 5 && SizeStmt(cmds, PrintI(), 1) == 3 && !PrintI().VarDecl?
  {
  }

  lemma StepSize(cmds: Registry)
    ensures SizeStmt(cmds, ExprStmt(Step()), 1) == 8
  {
    var sum := Binary(Plus, Identifier("i"), Literal(Int(1)));
    assert Size(cmds, sum) == 5;
    assert Size(cmds, Step()) == 7;
  }

  lemma TwoSizes(cmds: Registry, a: Node, b: Node)
    requires !a.VarDecl? && !b.VarDecl?
    ensures SizeStmt(cmds, Block([a, b]), 0) == SizeStmt(cmds, a, 1) + SizeStmt(cmds, b, 1)
  {
    var stmts := [a, b];
    TwoParts(cmds, stmts);
    NothingDeclared(stmts);
    hide SizeStmts, DeclaredIn;
  }

  lemma TwoParts(cmds: Registry, stmts: seq<Node>)
    requires |stmts| == 2
    ensures SizeStmts(cmds, stmts, 1) == SizeStmt(cmds, stmts[0], 1) + SizeStmt(cmds, stmts[1], 1)
  {
    hide SizeStmt;
    var rest := stmts[1..];
    assert rest[0] == stmts[1] && rest[1..] == [];
    assert SizeStmts(cmds, rest, 1) == SizeStmt(cmds, stmts[1], 1);
  }

  lemma NothingDeclared(stmts: seq<Node>)
    requires |stmts| == 2 && !stmts[0].VarDecl? && !stmts[1].VarDecl?
    ensures DeclaredIn(stmts, 1) == []
  {
    var rest := stmts[1..];
    assert rest[0] == stmts[1] && rest[1..] == [];
    assert DeclaredIn(rest, 1) == [];
  }

  lemma BodyWellFormed()
    ensures WfStmt(Body(), 0, 0) && NeedStmt(Body(), 0) <= 2
  {
    var stmts := [PrintI(), ExprStmt(Step())];
    var none: seq<Node> := [];
    assert stmts[1..] == [ExprStmt(Step())] && stmts[1..][1..] == none;
    var sum := Binary(Plus, Identifier("i"), Literal(Int(1)));
    assert WfExpr(sum) && Need(sum) == 2;
    assert WfStmt(ExprStmt(Step()), 0, 1) && NeedStmt(ExprStmt(Step()), 1) == 2;
    assert WfStmt(PrintI(), 0, 1) && NeedStmt(PrintI(), 1) == 1;
    hide WfExpr, Need;
    assert WfStmts(stmts[1..], 0, 1) && NeedStmts(stmts[1..], 1) <= 2;
    assert WfStmts(stmts, 0, 1) && NeedStmts(stmts, 1) <= 2;
  }

  lemma ProgramWellFormed(k: int, n: int)
    ensures WfProgram(Program(k, n)) && NeedProgram(Program(k, n)) <= 2
  {
    BodyWellFormed();
    hide Body;
    assert WfExpr(Condition()) && Need(Condition()) == 2;
    assert WfStmt(Loop(), 0, 0) && NeedStmt(Loop(), 0) <= 2;
    assert WfStmt(Declare("i", k), 0, 0) && NeedStmt(Declare("i", k), 0) == 1;
    assert WfStmt(Declare("n", n), 0, 0) && NeedStmt(Declare("n", n), 0) == 1;
    hide WfStmt, NeedStmt, Loop, Declare;
    ThreeWellFormed(Statements(k, n));
  }

  lemma ThreeWellFormed(stmts: seq<Node>)
    requires |stmts| == 3
    requires forall i :: 0 <= i < 3 ==> WfStmt(stmts[i], 0, 0) && NeedStmt(stmts[i], 0) <= 2
    ensures WfStmts(stmts, 0, 0) && NeedStmts(stmts, 0) <= 2
  {
    hide WfStmt, NeedStmt;
    var one := stmts[1..][1..];
    assert one[0] == stmts[2] && one[1..] == [] && stmts[1..][0] == stmts[1];
    assert WfStmts(one, 0, 0) && NeedStmts(one, 0) <= 2;
    assert WfStmts(stmts[1..], 0, 0) && NeedStmts(stmts[1..], 0) <= 2;
  }

  lemma DeclareSmall(env: Env, pool: seq<Value>, x: string, i: int)
    requires |pool| + 1 < MAX_CONSTANTS
    ensures var r := CompileStmt(env, [], 0, pool, Declare(x, i));
      r.Compiled? && r.exact && |r.pool| <= |pool| + 2 && r.locals == []
  {
    hide FindConstant, AddConstant, Encode;
    LeafSmall(env, pool, "", i);
    var c := CompileExpr(env, [], pool, Literal(Int(i)));
    assert CompileOptional(env, [], pool, Literal(Int(i))) == c;
    ReferringSmall(env.h, c.pool, Str(x), DefineGlobal(PoolByte(env.h, c.pool, Str(x))));
    hide CompileExpr, CompileOptional;
  }

  lemma ProgramCompiles(env: Env, k: int, n: int)
    ensures Compilable(env, Program(k, n))
  {
    hide CompileStmt, CompileStmts, WfProgram, NeedProgram, Loop, Declare;
    ProgramWellFormed(k, n);
    var empty: seq<Value> := [];
    DeclareSmall(env, empty, "i", k);
    var a := CompileStmt(env, [], 0, empty, Declare("i", k));
    DeclareSmall(env, a.pool, "n", n);
    LoopSmall(env, CompileStmt(env, [], 0, a.pool, Declare("n", n)).pool);
    ThreeCompile(env, Statements(k, n));
  }

  lemma ThreeCompile(env: Env, stmts: seq<Node>)
    requires |stmts| == 3
    requires var a := CompileStmt(env, [], 0, [], stmts[0]);
      a.Compiled? && a.exact && a.locals == []
      && var b := CompileStmt(env, [], 0, a.pool, stmts[1]);
         b.Compiled? && b.exact && b.locals == []
         && var c := CompileStmt(env, [], 0, b.pool, stmts[2]); c.Compiled? && c.exact && c.locals == []
    ensures var all := CompileStmts(env, [], 0, [], stmts); all.Compiled? && all.exact
  {
    hide CompileStmt;
    var one := stmts[1..][1..];
    assert one[0] == stmts[2] && one[1..] == [] && stmts[1..][0] == stmts[1];
    var a := CompileStmt(env, [], 0, [], stmts[0]);
    var b := CompileStmt(env, [], 0, a.pool, stmts[1]);
    var c := CompileStmt(env, [], 0, b.pool, stmts[2]);
    assert CompileStmts(env, [], 0, c.pool, one[1..]) == Compiled([], c.pool, true, []);
    var last := CompileStmts(env, [], 0, b.pool, one);
    assert last.Compiled? && last.exact;
    var more := CompileStmts(env, [], 0, a.pool, stmts[1..]);
    assert more.Compiled? && more.exact;
  }

  /** The compiled program, from whatever globals: the machine halts, and whenever it stops it has printed exactly
      k, ..., n - 1. */
  lemma MachineCounts(env: Env, globals: Scope, machineGlobals: Scope, k: int, n: int)
    requires "main" !in globals && GlobalsAgree(globals, machineGlobals)
    ensures Compilable(env, Program(k, n))
    ensures var m := ImageOf(env, Program(k, n));
      && (exists end :: Reaches(m, StartVm(machineGlobals), Halted(end)))
      && forall o :: Reaches(m, StartVm(machineGlobals), o) && !o.Running? ==>
           o.Halted? && o.vm.out == Numbers(env.h, k, n)
  {
    hide EvalProgram, CompileProgram, Compilable, Program, GlobalsAgree, Reaches, Runs, Numbers;
    var fuel: nat := if k < n then n - k else 0;
    ProgramCounts(env.h, fuel, env.cmds, globals, k, n);
    ProgramCompiles(env, k, n);
    CompilerCorrect(env, Program(k, n), fuel, globals, machineGlobals);
  }
}
