/** A for loop is its init and a while loop whose body ends with the update.  The update runs in the scope of the loop
    itself, behind continue as well; the while form runs it one scope further in, and continue skips it.  So the two
    agree for bodies that do not continue the loop, as long as condition and update define no name. */
module BsForLoops {
  import opened BsAst
  import opened BsValue
  import opened BsScopes
  import opened BsInterpreter
  import opened BsScopeDiscipline
  import opened BsMacros
  import opened BsAssignments
  import opened BsSubstitution

  // ----- How evaluations end -----

  lemma {:induction false} ExprEnds(h: Host, fuel: nat, e: Node, s: State)
    ensures var t := EvalExpr(h, fuel, e, s).status; t.Ok? || t.Error? || t.Timeout?
    decreases e
  {
    hide Lookup, AssignTo, Define, InterpBinary, EnginesAgree, Truthy;
    match e
    case Unary(_, operand) => ExprEnds(h, fuel, operand, s);
    case Assign(_, value) => ExprEnds(h, fuel, value, s);
    case Binary(_, left, right) =>
      ExprEnds(h, fuel, left, s);
      ExprEnds(h, fuel, right, EvalExpr(h, fuel, left, s).st);
    case Call(_, args) =>
      hide CallBody;
      ArgsEnd(h, fuel, args, s);
      ArgsEnd(h, fuel, args, s.Check(false));
      CallsEnd(h, fuel, e, s);
    case _ =>
  }

  lemma {:induction false} ArgsEnd(h: Host, fuel: nat, args: seq<Node>, s: State)
    ensures var t := EvalArgs(h, fuel, args, s).status; t.Ok? || t.Error? || t.Timeout?
    decreases args
  {
    hide EvalExpr;
    if args != [] {
      ExprEnds(h, fuel, args[0], s);
      ArgsEnd(h, fuel, args[1..], EvalExpr(h, fuel, args[0], s).st);
    }
  }

  lemma BodyEnds(h: Host, fuel: nat, params: seq<string>, body: Node, args: seq<Value>, s: State, isCommand: bool)
    ensures var t := CallBody(h, fuel, params, body, args, s, isCommand).status; t.Ok? || t.Timeout?
  {
    hide EvalStmt, DefineParams;
  }

  lemma CommandEnds(h: Host, fuel: nat, name: string, cmd: Command, args: seq<Value>, s: State)
    ensures var t := RunCommand(h, fuel, name, cmd, args, s).status; t.Ok? || t.Timeout?
  {
    hide CallBody;
    if cmd.AstCommand? { BodyEnds(h, fuel, cmd.params, cmd.body, args, s.Check(false), true); }
  }

  lemma CallsEnd(h: Host, fuel: nat, e: Node, s: State)
    requires e.Call?
    requires var t := EvalArgs(h, fuel, e.args, s).status; t.Ok? || t.Error? || t.Timeout?
    requires var t := EvalArgs(h, fuel, e.args, s.Check(false)).status; t.Ok? || t.Error? || t.Timeout?
    ensures var t := EvalExpr(h, fuel, e, s).status; t.Ok? || t.Error? || t.Timeout?
  {
    hide EvalArgs, CallBody, RunCommand, Lookup;
    var a := EvalArgs(h, fuel, e.args, s);
    if e.name in s.cmds { CommandEnds(h, fuel, e.name, s.cmds[e.name], a.values, a.st); }
    var f := Lookup(s.scopes, e.name);
    if f.Some? && f.value.value.Function? {
      var b := EvalArgs(h, fuel, e.args, s.Check(false));
      BodyEnds(h, fuel, f.value.value.params, f.value.value.body, b.values, b.st, false);
    }
  }

  /** A continue that would reach the loop around the statement: not one inside another loop, or in a function. */
  predicate MayContinue(n: Node) {
    match n
    case Continue => true
    case Block(stmts) => exists i :: 0 <= i < |stmts| && MayContinue(stmts[i])
    case If(_, thenBranch, elseBranch) => MayContinue(thenBranch) || MayContinue(elseBranch)
    case For(init, _, _, _) => MayContinue(init)
    case CustomCall(_, _, body) => MayContinue(body)
    case _ => false
  }

  /** Only such a statement ends with the status of a continue. */
  lemma {:induction false} ContinuesOnly(h: Host, fuel: nat, n: Node, s: State)
    ensures EvalStmt(h, fuel, n, s).status.Continued? ==> MayContinue(n)
    decreases n, 1
  {
    hide EvalStmt, EvalExpr, EvalLoop, Truthy;
    match n
    case Block(stmts) =>
      BlockUnfold(h, fuel, n, s);
      StmtsContinueOnly(h, fuel, stmts, s.Push());
    case If(cond, a, b) =>
      IfUnfold(h, fuel, n, s);
      ExprEnds(h, fuel, cond, s);
      var c := EvalExpr(h, fuel, cond, s);
      ContinuesOnly(h, fuel, a, c.st);
      ContinuesOnly(h, fuel, b, c.st);
    case For(init, cond, update, body) =>
      ForUnfold(h, fuel, n, s);
      ContinuesOnly(h, fuel, init, s.Push().Check(false));
      LoopEnds(h, fuel, n, cond, update, body, EvalStmt(h, fuel, init, s.Push().Check(false)).st);
    case CustomCall(_, args, body) =>
      CustomUnfold(h, fuel, n, s);
      forall t: State ensures EvalStmt(h, fuel, body, t).status.Continued? ==> MayContinue(body) {
        ContinuesOnly(h, fuel, body, t);
      }
    case _ => SimpleEnds(h, fuel, n, s);
  }

  lemma SimpleEnds(h: Host, fuel: nat, n: Node, s: State)
    requires !n.Block? && !n.If? && !n.For? && !n.CustomCall?
    ensures EvalStmt(h, fuel, n, s).status.Continued? ==> n.Continue?
  {
    hide EvalExpr, EvalLoop, PrintText, Define;
    match n
    case VarDecl(_, _, e) => ExprEnds(h, fuel, e, s);
    case ExprStmt(e) => ExprEnds(h, fuel, e, s);
    case Print(e, _, _) => ExprEnds(h, fuel, e, s);
    case Return(e) => ExprEnds(h, fuel, e, s.Check(false));
    case While(cond, body) => LoopEnds(h, fuel, n, cond, Nil, body, s);
    case _ =>
  }

  lemma BlockUnfold(h: Host, fuel: nat, n: Node, s: State)
    requires n.Block?
    ensures EvalStmt(h, fuel, n, s).status == EvalStmts(h, fuel, n.stmts, s.Push()).status
  {
    hide EvalStmts;
  }

  lemma IfUnfold(h: Host, fuel: nat, n: Node, s: State)
    requires n.If?
    ensures var c := EvalExpr(h, fuel, n.cond, s);
      EvalStmt(h, fuel, n, s) ==
        if !c.status.Ok? then c
        else if Truthy(h, c.value) then EvalStmt(h, fuel, n.thenBranch, c.st)
        else EvalStmt(h, fuel, n.elseBranch, c.st)
  {
  }

  lemma ForUnfold(h: Host, fuel: nat, n: Node, s: State)
    requires n.For?
    ensures var i := EvalStmt(h, fuel, n.init, s.Push().Check(false));
      var r := if i.status.Ok? then EvalLoop(h, fuel, n, n.cond, n.update, n.body, i.st) else i;
      EvalStmt(h, fuel, n, s) == r.(st := r.st.Pop())
  {
    hide EvalLoop;
  }

  lemma CustomUnfold(h: Host, fuel: nat, n: Node, s: State)
    requires n.CustomCall?
    ensures var r := EvalStmt(h, fuel, n, s);
      r.status.Ok? || r.status.Error? || r.status.Timeout? || exists t: State :: r == EvalStmt(h, fuel, n.body, t)
  {
    hide EvalArgs, RunCommand, CallBody, Lookup;
    var c := s.Check(n.body.Nil?);
    ArgsEnd(h, fuel, n.args, c);
    ArgsEnd(h, fuel, n.args, s.Check(false));
    if n.name in s.cmds {
      var a := EvalArgs(h, fuel, n.args, c);
      CommandEnds(h, fuel, n.name, s.cmds[n.name], a.values, a.st);
      var r := RunCommand(h, fuel, n.name, s.cmds[n.name], a.values, a.st);
      if a.status.Ok? && r.status.Ok? { assert EvalStmt(h, fuel, n, s) == EvalStmt(h, fuel, n.body, r.st); }
    } else {
      var f := Lookup(s.scopes, n.name);
      if f.Some? && f.value.value.Function? {
        var b := EvalArgs(h, fuel, n.args, s.Check(false));
        BodyEnds(h, fuel, f.value.value.params, f.value.value.body, b.values, b.st, false);
      }
    }
  }

  lemma {:induction false} StmtsContinueOnly(h: Host, fuel: nat, stmts: seq<Node>, s: State)
    ensures EvalStmts(h, fuel, stmts, s).status.Continued? ==> exists i :: 0 <= i < |stmts| && MayContinue(stmts[i])
    decreases stmts
  {
    hide EvalStmt, MayContinue;
    if stmts != [] {
      ContinuesOnly(h, fuel, stmts[0], s);
      var r := EvalStmt(h, fuel, stmts[0], s);
      StmtsContinueOnly(h, fuel, stmts[1..], r.st);
      if i :| 0 <= i < |stmts[1..]| && MayContinue(stmts[1..][i]) { assert MayContinue(stmts[i + 1]); }
    }
  }

  lemma {:induction false} LoopEnds(h: Host, fuel: nat, whole: Node, cond: Node, update: Node, body: Node, s: State)
    requires cond < whole && body < whole && (update.Nil? || update < whole)
    ensures !EvalLoop(h, fuel, whole, cond, update, body, s).status.Continued?
    decreases fuel
  {
    hide EvalLoop, EvalRound;
    RoundsUnfold(h, fuel, whole, cond, update, body, s);
    RoundEnds(h, fuel, whole, cond, update, body, s);
    var r := EvalRound(h, fuel, whole, cond, update, body, s);
    if r.Again? && fuel > 0 { LoopEnds(h, fuel - 1, whole, cond, update, body, r.st); }
  }

  lemma RoundEnds(h: Host, fuel: nat, whole: Node, cond: Node, update: Node, body: Node, s: State)
    requires cond < whole && body < whole && (update.Nil? || update < whole)
    ensures var r := EvalRound(h, fuel, whole, cond, update, body, s); r.Stop? ==> !r.result.status.Continued?
  {
    hide EvalExpr, EvalStmt, Truthy;
    ExprEnds(h, fuel, cond, s);
    var c := EvalCond(h, fuel, whole, cond, s);
    var b := EvalStmt(h, fuel, body, c.st);
    ExprEnds(h, fuel, update, b.st);
  }

  // ----- Evaluations that define no name -----

  /** Every name the expression assigns is bound, and not as a constant. */
  predicate AssignsPermitted(e: Node, scopes: seq<Scope>)
    decreases e
  {
    && (e.Assign? ==> Permitted(scopes, e.name))
    && forall i :: 0 <= i < |Kids(e)| ==> AssignsPermitted(Kids(e)[i], scopes)
  }

  lemma {:induction false} PermittedKept(a: seq<Scope>, b: seq<Scope>, x: string)
    requires SameBindings(a, b)
    ensures Permitted(a, x) == Permitted(b, x)
    decreases |a|
  {
    if a != [] {
      assert SameNames(a[0], b[0]);
      forall i | 0 <= i < |a[1..]| ensures SameNames(a[1..][i], b[1..][i]) { assert SameNames(a[i + 1], b[i + 1]); }
      PermittedKept(a[1..], b[1..], x);
    }
  }

  lemma {:induction false} AssignsKept(e: Node, a: seq<Scope>, b: seq<Scope>)
    requires SameBindings(a, b) && AssignsPermitted(e, a)
    ensures AssignsPermitted(e, b)
    decreases e
  {
    hide Permitted, SameBindings;
    if e.Assign? { PermittedKept(a, b, e.name); }
    forall i | 0 <= i < |Kids(e)| ensures AssignsPermitted(Kids(e)[i], b) { AssignsKept(Kids(e)[i], a, b); }
  }

  lemma SameRefl(a: seq<Scope>)
    ensures SameBindings(a, a)
  {
  }

  /** Such an expression leaves every scope with its names, its own included. */
  lemma {:induction false} Settled(h: Host, fuel: nat, e: Node, s: State)
    requires s.scopes != [] && AssignsPermitted(e, s.scopes)
    ensures SameBindings(s.scopes, EvalExpr(h, fuel, e, s).st.scopes)
    decreases e
  {
    hide SameBindings, Permitted, Lookup, AssignTo, Define, InterpBinary, EnginesAgree, Truthy, EvalBinary, EvalCall,
         AssignsPermitted;
    SameRefl(s.scopes);
    KidsPermitted(e, s.scopes);
    match e
    case Unary(_, operand) => Settled(h, fuel, operand, s);
    case Assign(x, value) =>
      Settled(h, fuel, value, s);
      var r := EvalExpr(h, fuel, value, s);
      PermittedKept(s.scopes, r.st.scopes, x);
      PermittedIsAssigned(r.st.scopes, x, r.value);
      AssignBindings(r.st.scopes, x, r.value);
      if r.status.Ok? { SameBindingsTrans(s.scopes, r.st.scopes, AssignTo(r.st.scopes, x, r.value).value); }
    case Binary(_, left, right) =>
      Settled(h, fuel, left, s);
      var l := EvalExpr(h, fuel, left, s);
      AssignsKept(right, s.scopes, l.st.scopes);
      NotEmpty(s.scopes, l.st.scopes);
      Settled(h, fuel, right, l.st);
      var r := EvalExpr(h, fuel, right, l.st);
      SameBindingsTrans(s.scopes, l.st.scopes, r.st.scopes);
      BinaryScopes(h, fuel, e, s);
    case Call(_, args) =>
      SettledArgs(h, fuel, args, s);
      SettledArgs(h, fuel, args, s.Check(false));
      SettledCall(h, fuel, e, s);
    case _ =>
  }

  lemma NotEmpty(a: seq<Scope>, b: seq<Scope>)
    requires SameBindings(a, b)
    ensures a != [] ==> b != []
  {
  }

  lemma KidsPermitted(e: Node, scopes: seq<Scope>)
    requires AssignsPermitted(e, scopes)
    ensures e.Assign? ==> Permitted(scopes, e.name) && AssignsPermitted(e.expr, scopes)
    ensures e.Unary? ==> AssignsPermitted(e.operand, scopes)
    ensures e.Binary? ==> AssignsPermitted(e.left, scopes) && AssignsPermitted(e.right, scopes)
    ensures e.Call? ==> forall i :: 0 <= i < |e.args| ==> AssignsPermitted(e.args[i], scopes)
  {
    hide Permitted;
    if e.Assign? { assert Kids(e)[0] == e.expr; }
    if e.Unary? { assert Kids(e)[0] == e.operand; }
    if e.Binary? { assert Kids(e)[0] == e.left && Kids(e)[1] == e.right; }
    if e.Call? { assert Kids(e) == e.args; }
  }

  lemma BinaryScopes(h: Host, fuel: nat, e: Node, s: State)
    requires e.Binary?
    ensures var l := EvalExpr(h, fuel, e.left, s);
      var r := EvalExpr(h, fuel, e.right, l.st);
      var q := EvalExpr(h, fuel, e, s).st.scopes;
      q == l.st.scopes || q == r.st.scopes
  {
    hide InterpBinary, EnginesAgree, Truthy;
  }

  lemma {:induction false} SettledArgs(h: Host, fuel: nat, args: seq<Node>, s: State)
    requires s.scopes != [] && forall i :: 0 <= i < |args| ==> AssignsPermitted(args[i], s.scopes)
    ensures SameBindings(s.scopes, EvalArgs(h, fuel, args, s).st.scopes)
    decreases args
  {
    hide SameBindings, AssignsPermitted, EvalExpr;
    SameRefl(s.scopes);
    if args != [] {
      Settled(h, fuel, args[0], s);
      var r := EvalExpr(h, fuel, args[0], s);
      NotEmpty(s.scopes, r.st.scopes);
      forall i | 0 <= i < |args[1..]| ensures AssignsPermitted(args[1..][i], r.st.scopes) {
        AssignsKept(args[i + 1], s.scopes, r.st.scopes);
      }
      SettledArgs(h, fuel, args[1..], r.st);
      SameBindingsTrans(s.scopes, r.st.scopes, EvalArgs(h, fuel, args[1..], r.st).st.scopes);
    }
  }

  lemma InsideBindings(s: State, t: State)
    requires EvolvesInside(s, t) && s.scopes != []
    ensures SameBindings(s.scopes, t.scopes)
  {
  }

  lemma SettledBody(h: Host, fuel: nat, params: seq<string>, body: Node, args: seq<Value>, s: State, isCommand: bool)
    requires s.scopes != []
    ensures SameBindings(s.scopes, CallBody(h, fuel, params, body, args, s, isCommand).st.scopes)
  {
    hide EvolvesInside, Evolves, SameBindings, CallBody;
    BodyEvolves(h, fuel, params, body, args, s, isCommand);
    InsideBindings(s, CallBody(h, fuel, params, body, args, s, isCommand).st);
  }

  lemma SettledCommand(h: Host, fuel: nat, name: string, cmd: Command, args: seq<Value>, s: State)
    requires s.scopes != []
    ensures SameBindings(s.scopes, RunCommand(h, fuel, name, cmd, args, s).st.scopes)
  {
    hide SameBindings, CallBody;
    SameRefl(s.scopes);
    if cmd.AstCommand? { SettledBody(h, fuel, cmd.params, cmd.body, args, s.Check(false), true); }
  }

  lemma SettledCall(h: Host, fuel: nat, e: Node, s: State)
    requires e.Call? && s.scopes != []
    requires SameBindings(s.scopes, EvalArgs(h, fuel, e.args, s).st.scopes)
    requires SameBindings(s.scopes, EvalArgs(h, fuel, e.args, s.Check(false)).st.scopes)
    ensures SameBindings(s.scopes, EvalExpr(h, fuel, e, s).st.scopes)
  {
    hide SameBindings, CallBody, RunCommand, EvalArgs, Lookup;
    SameRefl(s.scopes);
    var a := EvalArgs(h, fuel, e.args, s);
    var b := EvalArgs(h, fuel, e.args, s.Check(false));
    NotEmpty(s.scopes, a.st.scopes);
    NotEmpty(s.scopes, b.st.scopes);
    if e.name in s.cmds {
      var cmd := s.cmds[e.name];
      SettledCommand(h, fuel, e.name, cmd, a.values, a.st);
      SameBindingsTrans(s.scopes, a.st.scopes, RunCommand(h, fuel, e.name, cmd, a.values, a.st).st.scopes);
    }
    var f := Lookup(s.scopes, e.name);
    if f.Some? && f.value.value.Function? {
      var v := f.value.value;
      SettledBody(h, fuel, v.params, v.body, b.values, b.st, false);
      SameBindingsTrans(s.scopes, b.st.scopes, CallBody(h, fuel, v.params, v.body, b.values, b.st, false).st.scopes);
    }
  }

  // ----- One more empty scope makes no difference -----

  /** With no names to speak of, nothing mentions one. */
  lemma {:induction false} NothingMentioned(n: Node)
    ensures Unmentioned(n, [])
    decreases n
  {
    forall i | 0 <= i < |Kids(n)| ensures Unmentioned(Kids(n)[i], []) { NothingMentioned(Kids(n)[i]); }
    if n.Literal? && n.lit.Function? { NothingMentioned(n.lit.body); }
  }

  lemma NoFunctionMentions(v: Value)
    ensures ValueApart(v, [])
  {
    hide Unmentioned;
    if v.Function? { NothingMentioned(v.body); }
  }

  lemma NothingOutside(h: Host, s: State)
    ensures Outside(h, []) && StateApart(s, [])
  {
    hide ValueApart, Unmentioned;
    forall name, args ensures ValueApart(h.natives(name, args).0, []) { NoFunctionMentions(h.natives(name, args).0); }
    forall a, b ensures ValueApart(h.floatDiv(a, b), []) { NoFunctionMentions(h.floatDiv(a, b)); }
    forall j | 0 <= j < |s.scopes| ensures ScopeApart(s.scopes[j], []) {
      forall x | x in s.scopes[j] ensures ValueApart(s.scopes[j][x].value, []) { NoFunctionMentions(s.scopes[j][x].value); }
    }
    forall c | c in s.cmds && s.cmds[c].AstCommand? ensures Unmentioned(s.cmds[c].body, []) {
      NothingMentioned(s.cmds[c].body);
    }
  }

  function NoNames(): Binder { Binder([], []) }

  lemma NothingBound(n: Node)
    ensures NoNames().Valid() && NoNames().Bound() == map[] && NoNames().In(n) == n && UsesOnly(n, [])
  {
    hide Subst, UsesOnly, Unmentioned;
    SubstNothing(n);
    NothingMentioned(n);
    UnmentionedUses(n, []);
    assert NoNames().Literals() == [];
  }

  /** The state t is s with an empty scope on top. */
  ghost predicate Under(s: State, t: State) {
    s.scopes != [] && t == s.(scopes := [map[]] + s.scopes)
  }

  lemma UnderMatches(h: Host, s: State, t: State)
    requires Under(s, t)
    ensures Outside(h, []) && Matches(NoNames(), 0, s, t)
  {
    hide Outside, StateApart;
    NothingOutside(h, s);
    NothingBound(Nil);
    forall x ensures Get(s.scopes[0], x) == Get(t.scopes[1], x) {}
  }

  lemma MatchesUnder(s: State, t: State)
    requires Matches(NoNames(), 0, s, t) && t.scopes[0] == map[] && s.clean == t.clean
    ensures Under(s, t)
  {
    hide StateApart;
    NothingBound(Nil);
    var a, b := s.scopes[0], t.scopes[1];
    forall x ensures Get(a, x) == Get(b, x) {}
    SameScope(a, b);
    forall j | 0 <= j < |t.scopes| ensures t.scopes[j] == ([map[]] + s.scopes)[j] {
      if j > 1 { assert s.scopes[j - 1] == t.scopes[j]; }
    }
    assert t.scopes == [map[]] + s.scopes;
  }

  lemma SameScope(a: Scope, b: Scope)
    requires forall x :: Get(a, x) == Get(b, x)
    ensures a == b
  {
    forall x ensures x in a <==> x in b { assert Get(a, x) == Get(b, x); }
    forall x | x in a ensures a[x] == b[x] { assert Get(a, x) == Get(b, x); }
  }

  lemma StillEmpty(t: State, u: State)
    requires t.scopes != [] && t.scopes[0] == map[] && SameBindings(t.scopes, u.scopes)
    ensures u.scopes != [] && u.scopes[0] == map[]
  {
    assert SameNames(t.scopes[0], u.scopes[0]);
    assert u.scopes[0].Keys == {};
  }

  lemma StaysUnclean(s: State, t: State)
    requires Evolves(s, t) && !s.clean
    ensures !t.clean
  {
  }

  ghost predicate SameUnder(r: Result, q: Result) {
    r.status == q.status && r.value == q.value && Under(r.st, q.st)
  }

  lemma BlockUnder(h: Host, fuel: nat, n: Node, s: State, t: State)
    requires n.Block? && Under(s, t) && !s.clean
    ensures SameUnder(EvalStmt(h, fuel, n, s), EvalStmt(h, fuel, n, t))
    ensures SameBindings(s.scopes, EvalStmt(h, fuel, n, s).st.scopes) && !EvalStmt(h, fuel, n, s).st.clean
  {
    hide EvalStmt, Matches, Outside, UsesOnly, SameBindings, Evolves, EvolvesInside;
    var r, q := EvalStmt(h, fuel, n, s), EvalStmt(h, fuel, n, t);
    NothingBound(n);
    UnderMatches(h, s, t);
    StmtMeans(h, NoNames(), fuel, n, 0, s, t);
    BlockEvolves(h, fuel, n, s);
    BlockEvolves(h, fuel, n, t);
    InsideBindings(s, r.st);
    InsideBindings(t, q.st);
    InsideEvolves(s, r.st);
    InsideEvolves(t, q.st);
    StaysUnclean(s, r.st);
    StaysUnclean(t, q.st);
    StillEmpty(t, q.st);
    MatchesUnder(r.st, q.st);
  }

  lemma ExprUnder(h: Host, fuel: nat, e: Node, s: State, t: State)
    requires Under(s, t) && !s.clean && AssignsPermitted(e, s.scopes)
    ensures SameUnder(EvalExpr(h, fuel, e, s), EvalExpr(h, fuel, e, t))
    ensures SameBindings(s.scopes, EvalExpr(h, fuel, e, s).st.scopes) && !EvalExpr(h, fuel, e, s).st.clean
  {
    hide EvalExpr, Matches, Outside, UsesOnly, SameBindings, Evolves, AssignsPermitted;
    var r, q := EvalExpr(h, fuel, e, s), EvalExpr(h, fuel, e, t);
    NothingBound(e);
    UnderMatches(h, s, t);
    ExprMeans(h, NoNames(), fuel, e, 0, s, t);
    AssignsUnder(e, s.scopes);
    Settled(h, fuel, e, s);
    Settled(h, fuel, e, t);
    ExprEvolves(h, fuel, e, s);
    ExprEvolves(h, fuel, e, t);
    StaysUnclean(s, r.st);
    StaysUnclean(t, q.st);
    StillEmpty(t, q.st);
    MatchesUnder(r.st, q.st);
  }

  lemma {:induction false} AssignsUnder(e: Node, scopes: seq<Scope>)
    requires AssignsPermitted(e, scopes)
    ensures AssignsPermitted(e, [map[]] + scopes)
    decreases e
  {
    assert ([map[]] + scopes)[1..] == scopes;
    forall i | 0 <= i < |Kids(e)| ensures AssignsPermitted(Kids(e)[i], [map[]] + scopes) { AssignsUnder(Kids(e)[i], scopes); }
  }

  // ----- The two forms -----

  /** The while loop of a for loop: its body ends with the update, and a missing condition is true. */
  function Test(cond: Node): Node { if cond.Nil? then Literal(Bool(true)) else cond }
  function Updating(body: Node, update: Node): Node { Block([body, ExprStmt(update)]) }
  function WhileOf(n: Node): Node requires n.For? { While(Test(n.cond), Updating(n.body, n.update)) }

  /** The body of the while loop, from any state. */
  lemma UpdatingUnfold(h: Host, fuel: nat, body: Node, update: Node, s: State)
    ensures var b := EvalStmt(h, fuel, body, s.Push());
      var u := EvalExpr(h, fuel, update, b.st);
      EvalStmt(h, fuel, Updating(body, update), s) ==
        if !b.status.Ok? then b.(st := b.st.Pop())
        else if !u.status.Ok? then u.(st := u.st.Pop())
        else Done(u.st.Pop())
  {
    hide EvalExpr;
    var stmts := [body, ExprStmt(update)];
    assert stmts[1..] == [ExprStmt(update)];
    var b := EvalStmt(h, fuel, body, s.Push());
    assert EvalStmts(h, fuel, stmts[1..], b.st) == EvalStmt(h, fuel, ExprStmt(update), b.st);
  }

  lemma UnderPops(s: State, t: State)
    requires Under(s, t)
    ensures t.Pop() == s
  {
    assert ([map[]] + s.scopes)[1..] == s.scopes;
  }

  /** Body and update behave alike in both forms. */
  lemma SameEnding(h: Host, fuel: nat, body: Node, update: Node, s: State)
    requires s.scopes != [] && !s.clean && body.Block? && !MayContinue(body) && AssignsPermitted(update, s.scopes)
    ensures var b := EvalStmt(h, fuel, body, s);
      var u := EvalExpr(h, fuel, update, b.st);
      var w := EvalStmt(h, fuel, Updating(body, update), s);
      && Ending(w, Done(w.st)) == Ending(b, u)
      && (Ending(b, u).Again? ==> SameBindings(s.scopes, u.st.scopes) && !u.st.clean)
  {
    hide EvalStmt, EvalExpr, Updating, SameBindings, AssignsPermitted, MayContinue;
    var t := s.Push();
    var b, k := EvalStmt(h, fuel, body, s), EvalStmt(h, fuel, body, t);
    BlockUnder(h, fuel, body, s, t);
    UpdatingUnfold(h, fuel, body, update, s);
    UnderPops(b.st, k.st);
    ContinuesOnly(h, fuel, body, s);
    AssignsKept(update, s.scopes, b.st.scopes);
    var u, w := EvalExpr(h, fuel, update, b.st), EvalExpr(h, fuel, update, k.st);
    ExprUnder(h, fuel, update, b.st, k.st);
    ExprEnds(h, fuel, update, b.st);
    UnderPops(u.st, w.st);
    SameBindingsTrans(s.scopes, b.st.scopes, u.st.scopes);
  }

  lemma ForRound(h: Host, fuel: nat, n: Node, s: State)
    requires n.For? && !n.update.Nil?
    ensures var c := EvalExpr(h, fuel, Test(n.cond), s);
      var b := EvalStmt(h, fuel, n.body, c.st);
      EvalRound(h, fuel, n, n.cond, n.update, n.body, s) ==
        if !c.status.Ok? then Stop(c) else if !Truthy(h, c.value) then Stop(Done(c.st))
        else Ending(b, EvalExpr(h, fuel, n.update, b.st))
  {
    hide EvalExpr, EvalStmt, EvalBody, Ending, Truthy;
    TestHolds(h, fuel, n, s);
    BodyUnfold(h, fuel, n, n.update, n.body, EvalExpr(h, fuel, Test(n.cond), s).st);
  }

  lemma TestHolds(h: Host, fuel: nat, n: Node, s: State)
    requires n.For?
    ensures EvalCond(h, fuel, n, n.cond, s) == EvalExpr(h, fuel, Test(n.cond), s)
  {
  }

  lemma WhileRound(h: Host, fuel: nat, n: Node, s: State)
    requires n.For?
    ensures Test(n.cond) < WhileOf(n) && Updating(n.body, n.update) < WhileOf(n)
    ensures var c := EvalExpr(h, fuel, Test(n.cond), s);
      var w := EvalStmt(h, fuel, Updating(n.body, n.update), c.st);
      EvalRound(h, fuel, WhileOf(n), Test(n.cond), Nil, Updating(n.body, n.update), s) ==
        if !c.status.Ok? then Stop(c) else if !Truthy(h, c.value) then Stop(Done(c.st)) else Ending(w, Done(w.st))
  {
    hide EvalExpr, EvalStmt, EvalBody, Ending, Truthy;
    BodyUnfold(h, fuel, WhileOf(n), Nil, Updating(n.body, n.update), EvalExpr(h, fuel, Test(n.cond), s).st);
  }

  lemma {:induction false} SameLoop(h: Host, fuel: nat, n: Node, s: State)
    requires n.For? && !n.update.Nil? && n.body.Block? && !MayContinue(n.body) && s.scopes != [] && !s.clean
    requires AssignsPermitted(Test(n.cond), s.scopes) && AssignsPermitted(n.update, s.scopes)
    ensures Test(n.cond) < WhileOf(n) && Updating(n.body, n.update) < WhileOf(n)
    ensures EvalLoop(h, fuel, n, n.cond, n.update, n.body, s)
         == EvalLoop(h, fuel, WhileOf(n), Test(n.cond), Nil, Updating(n.body, n.update), s)
    decreases fuel
  {
    hide EvalLoop, EvalRound, EvalExpr, EvalStmt, Truthy, Ending, SameBindings, AssignsPermitted, MayContinue, Evolves, Test;
    ForRound(h, fuel, n, s);
    WhileRound(h, fuel, n, s);
    var test, whole, body := Test(n.cond), WhileOf(n), Updating(n.body, n.update);
    RoundsUnfold(h, fuel, n, n.cond, n.update, n.body, s);
    RoundsUnfold(h, fuel, whole, test, Nil, body, s);
    var c := EvalExpr(h, fuel, test, s);
    Settled(h, fuel, test, s);
    ExprEvolves(h, fuel, test, s);
    StaysUnclean(s, c.st);
    NotEmpty(s.scopes, c.st.scopes);
    AssignsKept(test, s.scopes, c.st.scopes);
    AssignsKept(n.update, s.scopes, c.st.scopes);
    SameEnding(h, fuel, n.body, n.update, c.st);
    var r := EvalRound(h, fuel, n, n.cond, n.update, n.body, s);
    if r.Again? && fuel > 0 {
      AgainStates(h, fuel, n, s, c, r.st);
      AssignsKept(test, c.st.scopes, r.st.scopes);
      AssignsKept(n.update, c.st.scopes, r.st.scopes);
      NotEmpty(c.st.scopes, r.st.scopes);
      SameLoop(h, fuel - 1, n, r.st);
    }
  }

  lemma AgainStates(h: Host, fuel: nat, n: Node, s: State, c: Result, t: State)
    requires n.For? && c == EvalExpr(h, fuel, Test(n.cond), s)
    requires var b := EvalStmt(h, fuel, n.body, c.st);
      var e := Ending(b, EvalExpr(h, fuel, n.update, b.st));
      Again(t) == if !c.status.Ok? then Stop(c) else if !Truthy(h, c.value) then Stop(Done(c.st)) else e
    ensures var b := EvalStmt(h, fuel, n.body, c.st);
      var u := EvalExpr(h, fuel, n.update, b.st);
      Ending(b, u).Again? && t == u.st
  {
    hide EvalStmt, EvalExpr, Truthy;
  }

  /** A for loop does exactly what its init and its while loop do in a block: same end, same output, same scopes.  The
      body is a block that does not continue the loop, and where the loop starts the names that condition and update
      assign are bound and no constants.  (The flag of agreement with the machine, which a for loop takes down, is down
      already.) */
  lemma ForIsWhile(h: Host, fuel: nat, n: Node, s: State)
    requires n.For? && !n.update.Nil? && n.body.Block? && !MayContinue(n.body) && s.scopes != [] && !s.clean
    requires var i := EvalStmt(h, fuel, n.init, s.Push());
      i.status.Ok? ==> AssignsPermitted(Test(n.cond), i.st.scopes) && AssignsPermitted(n.update, i.st.scopes)
    ensures EvalStmt(h, fuel, n, s) == EvalStmt(h, fuel, Block([n.init, WhileOf(n)]), s)
  {
    hide EvalExpr, EvalLoop, AssignsPermitted, MayContinue, Evolves, Test, Updating;
    assert s.Push().Check(false) == s.Push();
    var i := EvalStmt(h, fuel, n.init, s.Push());
    StmtEvolves(h, fuel, n.init, s.Push());
    InitKeeps(s.Push(), i.st);
    var stmts := [n.init, WhileOf(n)];
    assert stmts[1..] == [WhileOf(n)];
    if i.status.Ok? {
      SameLoop(h, fuel, n, i.st);
      assert EvalStmts(h, fuel, stmts[1..], i.st) == EvalStmt(h, fuel, WhileOf(n), i.st);
    }
  }

  lemma InitKeeps(s: State, t: State)
    requires Evolves(s, t) && s.scopes != [] && !s.clean
    ensures t.scopes != [] && !t.clean
  {
  }

  // ----- Where they part -----

  /** for (var i = 0; i < 1; i = i + 1) { continue; } */
  function Skipping(): Node { For(VarDecl("i", false, Literal(Int(0))), Below(), Up(), Block([Continue])) }
  function Below(): Node { Binary(Less, Identifier("i"), Literal(Int(1))) }
  function Up(): Node { Assign("i", Binary(Plus, Identifier("i"), Literal(Int(1)))) }

  /** The for loop ends after one round; its while loop skips the update and never ends. */
  lemma ContinueSkipsUpdate(h: Host, fuel: nat, s: State)
    requires s.scopes != [] && !s.clean && fuel > 0
    ensures EvalStmt(h, fuel, Skipping(), s) == Done(s)
    ensures EvalStmt(h, fuel, Block([Skipping().init, WhileOf(Skipping())]), s).status.Timeout?
  {
    hide EvalLoop, Up, Below;
    var n := Skipping();
    var i := s.(scopes := [map["i" := Binding(Int(0), false)]] + s.scopes);
    assert s.Push().Check(false) == s.Push() && s.Push().scopes == [map[]] + s.scopes;
    assert EvalExpr(h, fuel, Literal(Int(0)), s.Push()) == Result(Ok, Int(0), s.Push());
    assert Define(s.Push().scopes, "i", Int(0), false) == i.scopes;
    assert EvalStmt(h, fuel, n.init, s.Push()) == Done(i);
    SkippingEnds(h, fuel, s, i);
    SkippingLoops(h, fuel, i, s.scopes);
    var stmts := [n.init, WhileOf(n)];
    assert stmts[1..] == [WhileOf(n)];
    assert EvalStmts(h, fuel, stmts[1..], i) == EvalStmt(h, fuel, WhileOf(n), i);
    assert s.scopes == ([map["i" := Binding(Int(1), false)]] + s.scopes)[1..];
  }

  lemma BelowRuns(h: Host, fuel: nat, s: State, k: int)
    requires s.scopes != [] && "i" in s.scopes[0] && s.scopes[0]["i"] == Binding(Int(k), false)
    ensures EvalExpr(h, fuel, Below(), s) == Result(Ok, Bool(k < 1), s)
  {
    assert EvalExpr(h, fuel, Identifier("i"), s) == Result(Ok, Int(k), s);
    assert EvalExpr(h, fuel, Literal(Int(1)), s) == Result(Ok, Int(1), s);
    assert EvalBinary(h, fuel, Below(), s) == Result(Ok, Bool(k < 1), s);
  }

  lemma ContinueRuns(h: Host, fuel: nat, s: State)
    requires s.scopes != [] && !s.clean
    ensures EvalStmt(h, fuel, Block([Continue]), s) == Result(Continued, Null, s)
  {
    assert s.Push().Pop().scopes == s.scopes;
    assert EvalStmts(h, fuel, [Continue], s.Push()) == Result(Continued, Null, s.Push().Check(false));
  }

  lemma UpRuns(h: Host, fuel: nat, s: State, rest: seq<Scope>)
    requires s.scopes == [map["i" := Binding(Int(0), false)]] + rest
    ensures EvalExpr(h, fuel, Up(), s) == Result(Ok, Int(1), s.(scopes := [map["i" := Binding(Int(1), false)]] + rest))
  {
    var sum := Binary(Plus, Identifier("i"), Literal(Int(1)));
    assert EvalExpr(h, fuel, Identifier("i"), s) == Result(Ok, Int(0), s);
    assert EvalBinary(h, fuel, sum, s) == Result(Ok, Int(1), s);
    assert s.scopes[0 := map["i" := Binding(Int(1), false)]] == [map["i" := Binding(Int(1), false)]] + rest;
    assert s.scopes[0]["i" := Binding(Int(1), false)] == map["i" := Binding(Int(1), false)];
  }

  lemma SkippingEnds(h: Host, fuel: nat, s: State, i: State)
    requires !s.clean && fuel > 0 && i == s.(scopes := [map["i" := Binding(Int(0), false)]] + s.scopes)
    ensures Below() < Skipping() && Up() < Skipping() && Block([Continue]) < Skipping()
    ensures EvalLoop(h, fuel, Skipping(), Below(), Up(), Block([Continue]), i)
         == Done(s.(scopes := [map["i" := Binding(Int(1), false)]] + s.scopes))
  {
    hide EvalExpr, EvalStmt, EvalLoop, EvalRound, Below, Up;
    var n := Skipping();
    var after := s.(scopes := [map["i" := Binding(Int(1), false)]] + s.scopes);
    BelowRuns(h, fuel, i, 0);
    ContinueRuns(h, fuel, i);
    UpRuns(h, fuel, i, s.scopes);
    TestOf();
    ForRound(h, fuel, n, i);
    RoundsUnfold(h, fuel, n, Below(), Up(), Block([Continue]), i);
    BelowRuns(h, fuel - 1, after, 1);
    ForRound(h, fuel - 1, n, after);
    RoundsUnfold(h, fuel - 1, n, Below(), Up(), Block([Continue]), after);
  }

  lemma TestOf()
    ensures Test(Below()) == Below() && !Up().Nil?
  {
  }

  lemma {:induction false} SkippingLoops(h: Host, fuel: nat, i: State, rest: seq<Scope>)
    requires !i.clean && i.scopes == [map["i" := Binding(Int(0), false)]] + rest
    ensures EvalStmt(h, fuel, WhileOf(Skipping()), i).status.Timeout?
    decreases fuel
  {
    hide EvalExpr, EvalLoop, EvalRound, Below, Up, EvalStmts;
    var n := Skipping();
    var body := Updating(Block([Continue]), Up());
    TestOf();
    BelowRuns(h, fuel, i, 0);
    ContinueRuns(h, fuel, i.Push());
    UpdatingUnfold(h, fuel, Block([Continue]), Up(), i);
    assert i.Push().Pop().scopes == i.scopes;
    WhileRound(h, fuel, n, i);
    RoundsUnfold(h, fuel, WhileOf(n), Below(), Nil, body, i);
    if fuel > 0 { SkippingLoops(h, fuel - 1, i, rest); }
  }
}
