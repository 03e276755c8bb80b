/** Laws of the interpreter beside those that the machine shares: scopes, printing, calls with their parameters and
    returned values, and loops. */
module BsInterpreterLaws {
  import opened BsAst
  import opened BsValue
  import opened BsScopes
  import opened BsInterpreter
  import opened BsMacros
  import opened BsSubstitution
  import opened BsCountingLoop

  // ----- Scopes and printing -----

  /** What was defined is found, with its constness, and no other name is touched. */
  lemma DefinedIsFound(scopes: seq<Scope>, x: string, y: string, v: Value, isConst: bool)
    requires scopes != []
    ensures Lookup(Define(scopes, x, v, isConst), x) == Some(Binding(v, isConst))
    ensures y != x ==> Lookup(Define(scopes, x, v, isConst), y) == Lookup(scopes, y)
  {
  }

  /** A name is assignable exactly if its innermost binding is no constant; then the new value is found and no other name
      is touched. */
  lemma {:induction false} AssignedIsFound(scopes: seq<Scope>, x: string, y: string, v: Value)
    ensures AssignTo(scopes, x, v).Some? <==> Lookup(scopes, x).Some? && !Lookup(scopes, x).value.isConst
    ensures AssignTo(scopes, x, v).Some? ==>
      && Lookup(AssignTo(scopes, x, v).value, x) == Some(Binding(v, false))
      && (y != x ==> Lookup(AssignTo(scopes, x, v).value, y) == Lookup(scopes, y))
    decreases scopes
  {
    if scopes != [] && x !in scopes[0] {
      AssignedIsFound(scopes[1..], x, y, v);
      var r := AssignTo(scopes[1..], x, v);
      if r.Some? { assert ([scopes[0]] + r.value)[1..] == r.value; }
    }
  }

  /** A new scope hides nothing, and a name defined in it hides the outer one until it is popped. */
  lemma ScopesHide(scopes: seq<Scope>, x: string, v: Value)
    requires scopes != []
    ensures Lookup(PushScope(scopes), x) == Lookup(scopes, x)
    ensures Lookup(Define(PushScope(scopes), x, v, false), x) == Some(Binding(v, false))
    ensures PopScope(Define(PushScope(scopes), x, v, false)) == scopes
  {
    assert PushScope(scopes)[1..] == scopes;
  }

  /** print writes the text of its value, with a line break or without. */
  lemma PrintWrites(h: Host, fuel: nat, e: Node, isRaw: bool, s: State)
    requires !e.Nil? && EvalExpr(h, fuel, e, s).status.Ok?
    ensures var r := EvalExpr(h, fuel, e, s);
      EvalStmt(h, fuel, Print(e, isRaw, !isRaw), s)
        == Done(r.st.(out := r.st.out + PrintText(h, r.value) + if isRaw then "" else "\n"))
  {
    hide EvalExpr, PrintText;
    var r := EvalExpr(h, fuel, e, s);
    assert r.st.out + PrintText(h, r.value) + "" == r.st.out + PrintText(h, r.value);
  }

  // ----- Calls -----

  /** The scope of a call binds the i-th parameter to the i-th argument. */
  lemma ParameterIsArgument(params: seq<string>, args: seq<Value>, i: nat, rest: seq<Scope>)
    requires i < |params| <= |args| && Distinct(params)
    ensures Lookup(DefineParams([map[]] + rest, params, args), params[i]) == Some(Binding(args[i], false))
  {
    CallScope(params, args, rest);
    var k := IndexOf(params, params[i]);
    assert k == i;
    hide IndexOf, DefineParams;
    assert params[i] in Binder(params, args).Bound();
  }

  /** A function whose body is "return e" has the value that e has where its parameters are bound to the arguments; its
      caller sees none of its scopes, and what it prints is printed. */
  lemma ReturningCall(h: Host, fuel: nat, params: seq<string>, e: Node, args: seq<Value>, s: State, isCommand: bool)
    requires fuel > 0 && Distinct(params) && |params| <= |args| && !e.Nil? && s.scopes != []
    ensures var bound := Binder(params, args).Bound();
      var inside := s.(scopes := [map[], bound] + s.scopes, clean := false);
      var r := EvalExpr(h, fuel - 1, e, inside);
      var q := CallBody(h, fuel, params, Block([Return(e)]), args, s, isCommand);
      && (r.status.Ok? ==> q == Result(Ok, r.value, r.st.Pop().Pop()))
      && (r.status.Timeout? ==> q.status.Timeout?)
      && (r.status.Error? ==> q.status.Ok? && q.value == Null && q.st.out == r.st.out)
  {
    hide EvalExpr, EvalStmt, DefineParams, Binder.Bound, CallBody;
    var bound := Binder(params, args).Bound();
    CallScope(params, args, s.scopes);
    var s1 := s.(scopes := [bound] + s.scopes);
    CallUnfold(h, fuel, params, Block([Return(e)]), args, s, isCommand);
    ReturnBlock(h, fuel - 1, e, s1);
    assert s1.Push().scopes == [map[], bound] + s.scopes;
  }

  lemma CallUnfold(h: Host, fuel: nat, params: seq<string>, body: Node, args: seq<Value>, s: State, isCommand: bool)
    requires fuel > 0
    ensures var r := EvalStmt(h, fuel - 1, body, s.(scopes := DefineParams([map[]] + s.scopes, params, args)));
      CallBody(h, fuel, params, body, args, s, isCommand) ==
        if r.status.Timeout? then Result(Timeout, Null, r.st.Pop())
        else Result(Ok, if r.status.Returned? || (isCommand && r.status.Ok?) then r.value else Null, r.st.Pop())
  {
    hide EvalStmt, DefineParams;
  }

  lemma ReturnBlock(h: Host, fuel: nat, e: Node, s: State)
    requires !e.Nil?
    ensures var r := EvalExpr(h, fuel, e, s.Push().Check(false));
      EvalStmt(h, fuel, Block([Return(e)]), s) ==
        if r.status.Ok? then Result(Returned, r.value, r.st.Pop()) else r.(st := r.st.Pop())
  {
    hide EvalExpr;
    var stmts := [Return(e)];
    assert EvalStmts(h, fuel, stmts, s.Push()) == EvalStmt(h, fuel, Return(e), s.Push());
  }

  /** A call by name: commands come first, then a function value in scope; its arguments are evaluated from left to right
      before its body, and a name that is neither is an error. */
  lemma CallsFind(h: Host, fuel: nat, n: Node, s: State)
    requires n.Call?
    ensures var f := Lookup(s.scopes, n.name);
      var a := EvalArgs(h, fuel, n.args, s.Check(false));
      n.name !in s.cmds ==>
        && (f.Some? && f.value.value.Function? && a.status.Ok? ==>
              EvalExpr(h, fuel, n, s)
                == CallBody(h, fuel, f.value.value.params, f.value.value.body, a.values, a.st, false))
        && (!(f.Some? && f.value.value.Function?) ==> EvalExpr(h, fuel, n, s).status.Error?)
  {
    hide EvalArgs, CallBody, Lookup;
  }

  // ----- For loops -----

  /** The rounds of a loop do not depend on the statement they belong to. */
  lemma {:induction false} AnyLoop(h: Host, fuel: nat, w: Node, v: Node, cond: Node, body: Node, s: State)
    requires cond < w && body < w && cond < v && body < v && !cond.Nil?
    ensures EvalLoop(h, fuel, w, cond, Nil, body, s) == EvalLoop(h, fuel, v, cond, Nil, body, s)
    decreases fuel
  {
    hide EvalRound, EvalLoop;
    AnyRound(h, fuel, w, v, cond, body, s);
    RoundsUnfold(h, fuel, w, cond, Nil, body, s);
    RoundsUnfold(h, fuel, v, cond, Nil, body, s);
    var r := EvalRound(h, fuel, w, cond, Nil, body, s);
    if r.Again? && fuel > 0 { AnyLoop(h, fuel - 1, w, v, cond, body, r.st); }
  }

  lemma AnyRound(h: Host, fuel: nat, w: Node, v: Node, cond: Node, body: Node, s: State)
    requires cond < w && body < w && cond < v && body < v && !cond.Nil?
    ensures EvalRound(h, fuel, w, cond, Nil, body, s) == EvalRound(h, fuel, v, cond, Nil, body, s)
  {
    hide EvalRound, EvalExpr, EvalStmt, EvalBody, Ending;
    RoundUnfold(h, fuel, w, cond, body, s);
    RoundUnfold(h, fuel, v, cond, body, s);
  }

  lemma RoundUnfold(h: Host, fuel: nat, whole: Node, cond: Node, body: Node, s: State)
    requires cond < whole && body < whole && !cond.Nil?
    ensures var c := EvalExpr(h, fuel, cond, s);
      var b := EvalStmt(h, fuel, body, c.st);
      EvalRound(h, fuel, whole, cond, Nil, body, s) ==
        if !c.status.Ok? then Stop(c) else if !BsValue.Truthy(h, c.value) then Stop(Done(c.st)) else Ending(b, Done(b.st))
  {
    hide EvalExpr, EvalStmt, EvalBody, Ending, BsValue.Truthy;
    BodyUnfold(h, fuel, whole, Nil, body, EvalExpr(h, fuel, cond, s).st);
  }

  /** A for loop without an update is its init and a while loop in one block, continue and break included.  (The flag
      of agreement with the machine, which a for loop takes down, is down already.) */
  lemma ForWithoutUpdate(h: Host, fuel: nat, init: Node, cond: Node, body: Node, s: State)
    requires !cond.Nil? && !s.clean
    ensures EvalStmt(h, fuel, For(init, cond, Nil, body), s) == EvalStmt(h, fuel, Block([init, While(cond, body)]), s)
  {
    hide EvalExpr, EvalLoop;
    var n, w := For(init, cond, Nil, body), While(cond, body);
    var stmts := [init, w];
    assert stmts[1..] == [w];
    assert s.Push().Check(false) == s.Push();
    var i := EvalStmt(h, fuel, init, s.Push());
    if i.status.Ok? {
      AnyLoop(h, fuel, n, w, cond, body, i.st);
      assert EvalStmts(h, fuel, stmts[1..], i.st) == EvalStmt(h, fuel, w, i.st);
    }
  }

  /** A round whose condition holds: break ends the loop normally, continue and a normal end go on with the next round,
      a return or an error ends the loop and passes on; without the condition the loop is over. */
  lemma LoopControl(h: Host, fuel: nat, cond: Node, body: Node, s: State)
    requires !cond.Nil? && EvalExpr(h, fuel, cond, s).status.Ok?
    ensures var c := EvalExpr(h, fuel, cond, s);
      var b := EvalStmt(h, fuel, body, c.st);
      var all := EvalStmt(h, fuel, While(cond, body), s);
      && (!BsValue.Truthy(h, c.value) ==> all == Done(c.st))
      && (BsValue.Truthy(h, c.value) && b.status.Broke? ==> all == Done(b.st))
      && (BsValue.Truthy(h, c.value) && (b.status.Ok? || b.status.Continued?) && fuel > 0 ==>
            all == EvalStmt(h, fuel - 1, While(cond, body), b.st))
      && (BsValue.Truthy(h, c.value) && (b.status.Returned? || b.status.Error? || b.status.Timeout?) ==> all == b)
  {
    hide EvalExpr, EvalLoop, EvalRound, BsValue.Truthy;
    var w := While(cond, body);
    RoundUnfold(h, fuel, w, cond, body, s);
    RoundsUnfold(h, fuel, w, cond, Nil, body, s);
  }

  /** A conditional runs the one branch its condition chooses. */
  lemma BranchTaken(h: Host, fuel: nat, cond: Node, thenBranch: Node, elseBranch: Node, s: State)
    requires EvalExpr(h, fuel, cond, s).status.Ok?
    ensures var c := EvalExpr(h, fuel, cond, s);
      && (BsValue.Truthy(h, c.value) ==>
            EvalStmt(h, fuel, If(cond, thenBranch, elseBranch), s) == EvalStmt(h, fuel, thenBranch, c.st))
      && (!BsValue.Truthy(h, c.value) ==>
            EvalStmt(h, fuel, If(cond, thenBranch, elseBranch), s) == EvalStmt(h, fuel, elseBranch, c.st))
  {
    hide EvalExpr, BsValue.Truthy;
  }

  /** for (var i = k; i < n; i = i + 1) { print i; } */
  function ForLoop(k: int): Node { For(Declare("i", k), Condition(), Step(), Block([PrintI()])) }

  /** It prints what the while loop prints, and its variable is gone behind it. */
  lemma ForCounts(h: Host, fuel: nat, s: State, k: int, n: int)
    requires |s.scopes| >= 1 && Lookup(s.scopes, "n").Some? && Lookup(s.scopes, "n").value.value == Int(n)
    requires fuel >= n - k
    ensures EvalStmt(h, fuel, ForLoop(k), s) == Done(s.(out := s.out + Numbers(h, k, n), clean := false))
  {
    hide EvalLoop, Numbers, Condition, Step, PrintI;
    var inner := s.Push().Check(false);
    var own: Scope := map["i" := Binding(Int(k), false)];
    assert inner.scopes == [map[]] + s.scopes;
    assert Define(inner.scopes, "i", Int(k), false) == [own] + s.scopes;
    var s1 := inner.(scopes := [own] + s.scopes);
    assert EvalExpr(h, fuel, Literal(Int(k)), inner) == Result(Ok, Int(k), inner);
    assert EvalStmt(h, fuel, Declare("i", k), inner) == Done(s1);
    RoundsCount(h, fuel, ForLoop(k), s1, s.scopes, k, n);
    var last := if k < n then n else k;
    var end := s1.(scopes := [map["i" := Binding(Int(last), false)]] + s.scopes, out := s1.out + Numbers(h, k, n));
    assert EvalLoop(h, fuel, ForLoop(k), Condition(), Step(), Block([PrintI()]), s1) == Done(end);
    assert end.Pop().scopes == s.scopes;
  }

  function At(k: int, rest: seq<Scope>): seq<Scope> { [map["i" := Binding(Int(k), false)]] + rest }

  lemma {:induction false} RoundsCount(h: Host, fuel: nat, whole: Node, s: State, rest: seq<Scope>, k: int, n: int)
    requires whole.For? && whole.cond == Condition() && whole.update == Step() && whole.body == Block([PrintI()])
    requires s.scopes == At(k, rest) && Lookup(rest, "n").Some? && Lookup(rest, "n").value.value == Int(n) && fuel >= n - k
    ensures Condition() < whole && Step() < whole && Block([PrintI()]) < whole
    ensures EvalLoop(h, fuel, whole, Condition(), Step(), Block([PrintI()]), s) ==
      Done(s.(scopes := At(if k < n then n else k, rest), out := s.out + Numbers(h, k, n)))
    decreases fuel
  {
    hide EvalRound, PrintText, At;
    if k < n {
      var s1 := s.(scopes := At(k + 1, rest), out := s.out + PrintText(h, Int(k)) + "\n");
      OneRound(h, fuel, whole, s, rest, k, n);
      RoundsCount(h, fuel - 1, whole, s1, rest, k + 1, n);
      assert s.out + PrintText(h, Int(k)) + "\n" + Numbers(h, k + 1, n) == s.out + Numbers(h, k, n);
    } else {
      OneRound(h, fuel, whole, s, rest, k, n);
      assert s.out + "" == s.out;
    }
  }

  lemma OneRound(h: Host, fuel: nat, whole: Node, s: State, rest: seq<Scope>, k: int, n: int)
    requires whole.For? && whole.cond == Condition() && whole.update == Step() && whole.body == Block([PrintI()])
    requires s.scopes == At(k, rest) && Lookup(rest, "n").Some? && Lookup(rest, "n").value.value == Int(n)
    ensures Condition() < whole && Step() < whole && Block([PrintI()]) < whole
    ensures var r := EvalRound(h, fuel, whole, Condition(), Step(), Block([PrintI()]), s);
      if k < n then r == Again(s.(scopes := At(k + 1, rest), out := s.out + PrintText(h, Int(k)) + "\n"))
      else r == Stop(Done(s))
  {
    ConditionInside(h, fuel, s, rest, k, n);
    PrintInside(h, fuel, s, rest, k);
    var s1 := s.(out := s.out + PrintText(h, Int(k)) + "\n");
    StepInside(h, fuel, s1, rest, k);
    hide EvalExpr, EvalStmt, PrintText, At, Condition, Step, PrintI;
    assert EvalCond(h, fuel, whole, Condition(), s) == Result(Ok, Bool(k < n), s);
  }

  lemma ConditionInside(h: Host, fuel: nat, s: State, rest: seq<Scope>, k: int, n: int)
    requires s.scopes == At(k, rest) && Lookup(rest, "n").Some? && Lookup(rest, "n").value.value == Int(n)
    ensures EvalExpr(h, fuel, Condition(), s) == Result(Ok, Bool(k < n), s)
  {
    assert s.scopes[1..] == rest;
    assert EvalExpr(h, fuel, Identifier("i"), s) == Result(Ok, Int(k), s);
    assert EvalExpr(h, fuel, Identifier("n"), s) == Result(Ok, Int(n), s);
    assert EvalBinary(h, fuel, Condition(), s) == Result(Ok, Bool(k < n), s);
  }

  lemma PrintInside(h: Host, fuel: nat, s: State, rest: seq<Scope>, k: int)
    requires s.scopes == At(k, rest)
    ensures EvalStmt(h, fuel, Block([PrintI()]), s) == Done(s.(out := s.out + PrintText(h, Int(k)) + "\n"))
  {
    hide PrintText;
    var inner := s.Push();
    assert inner.scopes[1..] == s.scopes;
    assert Lookup(s.scopes, "i") == Some(Binding(Int(k), false));
    assert EvalExpr(h, fuel, Identifier("i"), inner) == Result(Ok, Int(k), inner);
    var done := inner.(out := s.out + PrintText(h, Int(k)) + "\n");
    assert EvalStmt(h, fuel, PrintI(), inner) == Done(done);
    assert EvalStmts(h, fuel, [PrintI()], inner) == Done(done);
    assert done.Pop().scopes == s.scopes;
  }

  lemma StepInside(h: Host, fuel: nat, s: State, rest: seq<Scope>, k: int)
    requires s.scopes == At(k, rest)
    ensures EvalExpr(h, fuel, Step(), s) == Result(Ok, Int(k + 1), s.(scopes := At(k + 1, rest)))
  {
    var sum := Binary(Plus, Identifier("i"), Literal(Int(1)));
    assert EvalExpr(h, fuel, Identifier("i"), s) == Result(Ok, Int(k), s);
    assert EvalExpr(h, fuel, Literal(Int(1)), s) == Result(Ok, Int(1), s);
    assert EvalBinary(h, fuel, sum, s) == Result(Ok, Int(k + 1), s);
    var own, next: Scope := map["i" := Binding(Int(k), false)], map["i" := Binding(Int(k + 1), false)];
    assert own["i" := Binding(Int(k + 1), false)] == next;
    assert s.scopes[0 := next] == At(k + 1, rest);
  }
}
