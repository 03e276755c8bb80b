/** What every evaluation keeps, however it ends: the scopes stay the same and at the same depth,
    an inner evaluation never changes an enclosing constant or the set of enclosing names, output
    only grows, and a run that stays clean leaves the command registry alone. */
module BsScopeDiscipline {
  import opened BsAst
  import opened BsValue
  import opened BsScopes
  import opened BsInterpreter

  ghost predicate Evolves(s: State, t: State) {
    && (s.scopes != [] ==> SameChain(s.scopes, t.scopes))
    && (t.clean ==> s.clean && t.cmds == s.cmds)
    && s.out <= t.out
  }

  /** As Evolves, for an evaluation that runs in a scope of its own. */
  ghost predicate EvolvesInside(s: State, t: State) {
    && (s.scopes != [] ==> SameBindings(s.scopes, t.scopes))
    && (t.clean ==> s.clean && t.cmds == s.cmds)
    && s.out <= t.out
  }

  lemma EvolvesRefl(s: State)
    ensures Evolves(s, s)
  {
  }

  lemma EvolvesTrans(s: State, t: State, u: State)
    requires Evolves(s, t) && Evolves(t, u)
    ensures Evolves(s, u)
  {
    if s.scopes != [] { SameChainTrans(s.scopes, t.scopes, u.scopes); }
  }

  lemma InsideEvolves(s: State, t: State)
    requires EvolvesInside(s, t)
    ensures Evolves(s, t)
  {
    if s.scopes != [] { BindingsGiveChain(s.scopes, t.scopes); }
  }

  /** Running in a pushed scope and popping it. */
  lemma PushPop(s: State, t: State)
    requires Evolves(s.Push(), t)
    ensures EvolvesInside(s, t.Pop())
  {
    if s.scopes != [] { PoppedBindings(s.scopes, t.scopes); }
  }

  lemma Defines(s: State, x: string, v: Value, isConst: bool)
    ensures Evolves(s, s.(scopes := Define(s.scopes, x, v, isConst)))
  {
    DefineChain(s.scopes, x, v, isConst);
  }

  /** Bookkeeping: the flag may fall and output may be added. */
  lemma Noted(s: State, t: State, c: bool, text: string)
    requires Evolves(s, t)
    ensures Evolves(s, t.Check(c)) && Evolves(s, t.Emit(text)) && Evolves(s, t.Check(c).Emit(text))
  {
    EvolvesTrans(s, t, t.Check(c));
    EvolvesTrans(s, t, t.Emit(text));
    EvolvesTrans(s, t, t.Check(c).Emit(text));
  }

  lemma {:induction false} ExprEvolves(h: Host, fuel: nat, e: Node, s: State)
    ensures Evolves(s, EvalExpr(h, fuel, e, s).st)
    decreases fuel, 1, e, 2
  {
    hide EvalBinary, EvalCall, Evolves, Truthy, Lookup, Define, AssignTo;
    EvolvesRefl(s);
    if e.Literal? {
      Noted(s, s, !e.lit.Float? && !e.lit.Function? && !e.lit.NativePtr?, "");
    } else if e.Identifier? {
    } else if e.Unary? {
      ExprEvolves(h, fuel, e.operand, s);
    } else if e.Binary? {
      BinaryEvolves(h, fuel, e, s);
    } else if e.Assign? {
      ExprEvolves(h, fuel, e.expr, s);
      var r := EvalExpr(h, fuel, e.expr, s);
      AssignEvolves(s, r.st, e.name, r.value);
    } else if e.Call? {
      CallEvolves(h, fuel, e, s);
    } else {
      Noted(s, s, false, "");
    }
  }

  lemma {:induction false} BinaryEvolves(h: Host, fuel: nat, e: Node, s: State)
    requires e.Binary?
    ensures Evolves(s, EvalBinary(h, fuel, e, s).st)
    decreases fuel, 1, e, 1
  {
    hide EvalExpr, EvalArgs, RunCommand, CallBody, Evolves, InterpBinary, EnginesAgree, Truthy, Lookup, Define, AssignTo;
    ExprEvolves(h, fuel, e.left, s);
    var l := EvalExpr(h, fuel, e.left, s);
    Noted(s, l.st, l.value.Bool?, "");
    ExprEvolves(h, fuel, e.right, l.st);
    var r := EvalExpr(h, fuel, e.right, l.st);
    EvolvesTrans(s, l.st, r.st);
    Noted(s, r.st, r.value.Bool?, "");
    Noted(s, r.st, EnginesAgree(h, e.op, l.value, r.value), "");
  }

  lemma AssignEvolves(s: State, t: State, x: string, v: Value)
    requires Evolves(s, t)
    ensures var a := AssignTo(t.scopes, x, v); a.Some? ==> Evolves(s, t.(scopes := a.value))
    ensures Evolves(s, t.(scopes := Define(t.scopes, x, v, false), clean := false))
  {
    DeclEvolves(s, t, x, v, false);
    Noted(s, t.(scopes := Define(t.scopes, x, v, false)), false, "");
    AssignBindings(t.scopes, x, v);
    var a := AssignTo(t.scopes, x, v);
    if a.Some? {
      BindingsGiveChain(t.scopes, a.value);
      EvolvesTrans(s, t, t.(scopes := a.value));
    }
  }

  lemma {:induction false} CallEvolves(h: Host, fuel: nat, e: Node, s: State)
    requires e.Call?
    ensures Evolves(s, EvalCall(h, fuel, e, s).st)
    decreases fuel, 1, e, 1
  {
    hide EvalArgs, RunCommand, CallBody, Evolves;
    EvolvesRefl(s);
    Noted(s, s, false, "");
    if e.name in s.cmds {
      ArgsEvolves(h, fuel, e.args, s);
      var a := EvalArgs(h, fuel, e.args, s);
      if a.status.Ok? {
        CommandEvolves(h, fuel, e.name, s.cmds[e.name], a.values, a.st);
        EvolvesTrans(s, a.st, RunCommand(h, fuel, e.name, s.cmds[e.name], a.values, a.st).st);
      }
    } else {
      FunctionEvolves(h, fuel, e.name, e.args, s);
    }
  }

  /** A call of a function value: arguments, then the body. */
  lemma {:induction false} FunctionEvolves(h: Host, fuel: nat, name: string, args: seq<Node>, s: State)
    ensures var a := EvalArgs(h, fuel, args, s.Check(false)); Evolves(s, a.st)
    ensures var f := Lookup(s.scopes, name);
            var a := EvalArgs(h, fuel, args, s.Check(false));
            f.Some? && f.value.value.Function? && a.status.Ok? ==>
              Evolves(s, CallBody(h, fuel, f.value.value.params, f.value.value.body, a.values, a.st, false).st)
    decreases fuel, 1, args, 2
  {
    hide EvalArgs, CallBody, Evolves;
    EvolvesRefl(s);
    Noted(s, s, false, "");
    ArgsEvolves(h, fuel, args, s.Check(false));
    var f := Lookup(s.scopes, name);
    var a := EvalArgs(h, fuel, args, s.Check(false));
    EvolvesTrans(s, s.Check(false), a.st);
    if f.Some? && f.value.value.Function? && a.status.Ok? {
      BodyEvolves(h, fuel, f.value.value.params, f.value.value.body, a.values, a.st, false);
      EvolvesTrans(s, a.st, CallBody(h, fuel, f.value.value.params, f.value.value.body, a.values, a.st, false).st);
    }
  }

  lemma {:induction false} ArgsEvolves(h: Host, fuel: nat, args: seq<Node>, s: State)
    ensures Evolves(s, EvalArgs(h, fuel, args, s).st)
    decreases fuel, 1, args, 1
  {
    if args != [] {
      ExprEvolves(h, fuel, args[0], s);
      var r := EvalExpr(h, fuel, args[0], s);
      ArgsEvolves(h, fuel, args[1..], r.st);
      EvolvesTrans(s, r.st, EvalArgs(h, fuel, args[1..], r.st).st);
    }
  }

  lemma {:induction false} CommandEvolves(h: Host, fuel: nat, name: string, cmd: Command, args: seq<Value>, s: State)
    ensures Evolves(s, RunCommand(h, fuel, name, cmd, args, s).st)
    decreases fuel, 0
  {
    if cmd.AstCommand? && !cmd.body.Nil? {
      BodyEvolves(h, fuel, cmd.params, cmd.body, args, s.Check(false), true);
      EvolvesTrans(s, s.Check(false), CallBody(h, fuel, cmd.params, cmd.body, args, s.Check(false), true).st);
    }
  }

  lemma {:induction false} BodyEvolves(h: Host, fuel: nat, params: seq<string>, body: Node, args: seq<Value>,
                                       s: State, isCommand: bool)
    ensures EvolvesInside(s, CallBody(h, fuel, params, body, args, s, isCommand).st)
    ensures Evolves(s, CallBody(h, fuel, params, body, args, s, isCommand).st)
    decreases fuel, 0, 0
  {
    hide EvalStmt;
    if fuel != 0 {
      var inner := s.Push();
      var bound := inner.(scopes := DefineParams(inner.scopes, params, args));
      DefineParamsChain(inner.scopes, params, args);
      StmtEvolves(h, fuel - 1, body, bound);
      var r := EvalStmt(h, fuel - 1, body, bound);
      EvolvesTrans(inner, bound, r.st);
      PushPop(s, r.st);
    }
    InsideEvolves(s, CallBody(h, fuel, params, body, args, s, isCommand).st);
  }

  lemma {:induction false} StmtEvolves(h: Host, fuel: nat, n: Node, s: State)
    ensures Evolves(s, EvalStmt(h, fuel, n, s).st)
    decreases fuel, 1, n, 4
  {
    hide EvalExpr, EvalStmts, EvalLoop, EvalFor, EvalCustomCall, Evolves, EvolvesInside, Truthy, PrintText, Lookup, Define;
    EvolvesRefl(s);
    Noted(s, s, false, "");
    if n.VarDecl? {
      ExprEvolves(h, fuel, n.expr, s);
      var r := EvalExpr(h, fuel, n.expr, s);
      DeclEvolves(s, r.st, n.name, Null, n.isConst);
      DeclEvolves(s, r.st, n.name, r.value, n.isConst);
    } else if n.ExprStmt? {
      ExprEvolves(h, fuel, n.expr, s);
    } else if n.Block? {
      BlockEvolves(h, fuel, n, s);
      InsideEvolves(s, EvalStmt(h, fuel, n, s).st);
    } else if n.If? {
      IfEvolves(h, fuel, n, s);
    } else if n.While? {
      LoopEvolves(h, fuel, n, n.cond, Nil, n.body, s);
    } else if n.For? {
      ForEvolves(h, fuel, n, s);
    } else if n.Return? {
      ExprEvolves(h, fuel, n.expr, s.Check(false));
      EvolvesTrans(s, s.Check(false), EvalExpr(h, fuel, n.expr, s.Check(false)).st);
    } else if n.Print? {
      var newline := if n.addNewline then "\n" else "";
      var same := n.isRaw != n.addNewline;
      Noted(s, s, false, newline);
      ExprEvolves(h, fuel, n.expr, s);
      var r := EvalExpr(h, fuel, n.expr, s);
      Noted(s, r.st, same, PrintText(h, r.value));
      Noted(s, r.st.Check(same).Emit(PrintText(h, r.value)), true, newline);
    } else if n.FuncDecl? {
      DeclEvolves(s, s.Check(false), n.name, Function(n.name, n.params, n.body), false);
    } else if n.CommandDef? {
      Registers(s, n.name, AstCommand(n.params, n.body));
    } else if n.MacroDef? {
      Registers(s, n.name, Macro(n.params, n.body));
    } else if n.CustomCall? {
      CustomCallEvolves(h, fuel, n, s);
    }
  }

  lemma Registers(s: State, name: string, cmd: Command)
    ensures Evolves(s, s.Check(false).(cmds := s.cmds[name := cmd]))
  {
    EvolvesRefl(s);
  }

  lemma DeclEvolves(s: State, t: State, x: string, v: Value, isConst: bool)
    requires Evolves(s, t)
    ensures Evolves(s, s.(scopes := Define(s.scopes, x, v, isConst)))
    ensures Evolves(s, t.(scopes := Define(t.scopes, x, v, isConst)))
  {
    Defines(s, x, v, isConst);
    Defines(t, x, v, isConst);
    EvolvesTrans(s, t, t.(scopes := Define(t.scopes, x, v, isConst)));
  }

  lemma {:induction false} IfEvolves(h: Host, fuel: nat, n: Node, s: State)
    requires n.If?
    ensures Evolves(s, EvalStmt(h, fuel, n, s).st)
    decreases fuel, 1, n, 3
  {
    hide EvalExpr, Evolves;
    ExprEvolves(h, fuel, n.cond, s);
    var c := EvalExpr(h, fuel, n.cond, s);
    var branch := if Truthy(h, c.value) then n.thenBranch else n.elseBranch;
    StmtEvolves(h, fuel, branch, c.st);
    EvolvesTrans(s, c.st, EvalStmt(h, fuel, branch, c.st).st);
  }

  lemma {:induction false} ForEvolves(h: Host, fuel: nat, n: Node, s: State)
    requires n.For?
    ensures Evolves(s, EvalFor(h, fuel, n, s).st)
    decreases fuel, 1, n, 3
  {
    hide EvalExpr, EvalLoop, Evolves, EvolvesInside;
    var start := s.Push().Check(false);
    EvolvesRefl(s.Push());
    Noted(s.Push(), s.Push(), false, "");
    StmtEvolves(h, fuel, n.init, start);
    var i := EvalStmt(h, fuel, n.init, start);
    EvolvesTrans(s.Push(), start, i.st);
    if i.status.Ok? {
      LoopEvolves(h, fuel, n, n.cond, n.update, n.body, i.st);
      var l := EvalLoop(h, fuel, n, n.cond, n.update, n.body, i.st);
      EvolvesTrans(s.Push(), i.st, l.st);
      PushPop(s, l.st);
      InsideEvolves(s, l.st.Pop());
    } else {
      PushPop(s, i.st);
      InsideEvolves(s, i.st.Pop());
    }
  }

  lemma {:induction false} CustomCallEvolves(h: Host, fuel: nat, n: Node, s: State)
    requires n.CustomCall?
    ensures Evolves(s, EvalCustomCall(h, fuel, n, s).st)
    decreases fuel, 1, n, 3
  {
    hide EvalStmt, EvalArgs, RunCommand, CallBody, Evolves;
    EvolvesRefl(s);
    Noted(s, s, false, "");
    if n.name in s.cmds {
      var start := s.Check(n.body.Nil?);
      Noted(s, s, n.body.Nil?, "");
      ArgsEvolves(h, fuel, n.args, start);
      var a := EvalArgs(h, fuel, n.args, start);
      EvolvesTrans(s, start, a.st);
      if a.status.Ok? {
        CommandEvolves(h, fuel, n.name, s.cmds[n.name], a.values, a.st);
        var r := RunCommand(h, fuel, n.name, s.cmds[n.name], a.values, a.st);
        EvolvesTrans(s, a.st, r.st);
        StmtEvolves(h, fuel, n.body, r.st);
        EvolvesTrans(s, r.st, EvalStmt(h, fuel, n.body, r.st).st);
      }
    } else {
      FunctionEvolves(h, fuel, n.name, n.args, s);
    }
  }

  /** A block adds no name to an enclosing scope, removes none, and leaves every enclosing
      constant with its value, whatever its status. */
  lemma {:induction false} BlockEvolves(h: Host, fuel: nat, n: Node, s: State)
    requires n.Block?
    ensures EvolvesInside(s, EvalStmt(h, fuel, n, s).st)
    decreases fuel, 1, n, 3
  {
    StmtsEvolves(h, fuel, n.stmts, s.Push());
    PushPop(s, EvalStmts(h, fuel, n.stmts, s.Push()).st);
  }

  lemma {:induction false} StmtsEvolves(h: Host, fuel: nat, stmts: seq<Node>, s: State)
    ensures Evolves(s, EvalStmts(h, fuel, stmts, s).st)
    decreases fuel, 1, stmts, 0
  {
    if stmts != [] {
      StmtEvolves(h, fuel, stmts[0], s);
      var r := EvalStmt(h, fuel, stmts[0], s);
      StmtsEvolves(h, fuel, stmts[1..], r.st);
      EvolvesTrans(s, r.st, EvalStmts(h, fuel, stmts[1..], r.st).st);
    }
  }

  lemma {:induction false} LoopEvolves(h: Host, fuel: nat, whole: Node, cond: Node, update: Node, body: Node, s: State)
    requires cond < whole && body < whole && (update.Nil? || update < whole)
    ensures Evolves(s, EvalLoop(h, fuel, whole, cond, update, body, s).st)
    decreases fuel, 1, whole, 2
  {
    hide EvalRound, Evolves;
    RoundEvolves(h, fuel, whole, cond, update, body, s);
    var r := EvalRound(h, fuel, whole, cond, update, body, s);
    if r.Again? && fuel != 0 {
      LoopEvolves(h, fuel - 1, whole, cond, update, body, r.st);
      EvolvesTrans(s, r.st, EvalLoop(h, fuel - 1, whole, cond, update, body, r.st).st);
    }
  }

  function RoundState(r: Round): State { if r.Again? then r.st else r.result.st }

  lemma {:induction false} RoundEvolves(h: Host, fuel: nat, whole: Node, cond: Node, update: Node, body: Node, s: State)
    requires cond < whole && body < whole && (update.Nil? || update < whole)
    ensures Evolves(s, RoundState(EvalRound(h, fuel, whole, cond, update, body, s)))
    decreases fuel, 1, whole, 1
  {
    hide EvalStmt, EvalExpr, EvalBody, Evolves, Truthy;
    EvolvesRefl(s);
    var c := EvalCond(h, fuel, whole, cond, s);
    ExprEvolves(h, fuel, cond, s);
    BodyOfLoopEvolves(h, fuel, whole, update, body, c.st);
    EvolvesTrans(s, c.st, RoundState(EvalBody(h, fuel, whole, update, body, c.st)));
  }

  lemma {:induction false} BodyOfLoopEvolves(h: Host, fuel: nat, whole: Node, update: Node, body: Node, s: State)
    requires body < whole && (update.Nil? || update < whole)
    ensures Evolves(s, RoundState(EvalBody(h, fuel, whole, update, body, s)))
    decreases fuel, 1, whole, 0
  {
    hide EvalStmt, EvalExpr, Evolves;
    StmtEvolves(h, fuel, body, s);
    var b := EvalStmt(h, fuel, body, s);
    UpdateEvolves(h, fuel, whole, update, b.st);
    var u := if update.Nil? then Done(b.st) else EvalExpr(h, fuel, update, b.st);
    EvolvesTrans(s, b.st, u.st);
  }

  lemma {:induction false} UpdateEvolves(h: Host, fuel: nat, whole: Node, update: Node, s: State)
    requires update.Nil? || update < whole
    ensures Evolves(s, (if update.Nil? then Done(s) else EvalExpr(h, fuel, update, s)).st)
    decreases fuel, 1, whole, 0, 0
  {
    if !update.Nil? { ExprEvolves(h, fuel, update, s); }
  }

  /** A whole program leaves exactly the global scope it started with, and no other. */
  lemma ProgramEvolves(h: Host, fuel: nat, program: Node, s: State)
    ensures Evolves(s, EvalProgram(h, fuel, program, s).st)
  {
    hide EvalStmt, EvalTop, Evolves, EvolvesInside;
    EvolvesRefl(s);
    if !program.Nil? {
      var r := if program.Block? then EvalTop(h, fuel, program.stmts, s) else EvalStmt(h, fuel, program, s);
      if program.Block? { TopEvolves(h, fuel, program.stmts, s); } else { StmtEvolves(h, fuel, program, s); }
      var f := Lookup(r.st.scopes, "main");
      if f.Some? && f.value.value.Function? {
        var inner := r.st.Push().Check(false);
        EvolvesRefl(r.st.Push());
        Noted(r.st.Push(), r.st.Push(), false, "");
        StmtEvolves(h, fuel, f.value.value.body, inner);
        var m := EvalStmt(h, fuel, f.value.value.body, inner);
        EvolvesTrans(r.st.Push(), inner, m.st);
        PushPop(r.st, m.st);
        InsideEvolves(r.st, m.st.Pop());
        EvolvesTrans(s, r.st, m.st.Pop());
      }
    }
  }

  lemma {:induction false} TopEvolves(h: Host, fuel: nat, stmts: seq<Node>, s: State)
    ensures Evolves(s, EvalTop(h, fuel, stmts, s).st)
  {
    if stmts != [] {
      StmtEvolves(h, fuel, stmts[0], s);
      var r := EvalStmt(h, fuel, stmts[0], s);
      TopEvolves(h, fuel, stmts[1..], r.st);
      EvolvesTrans(s, r.st, EvalTop(h, fuel, stmts[1..], r.st).st);
    }
  }

  // ----- A run that is clean at the end was clean all along -----

  lemma ExprStaysClean(h: Host, fuel: nat, e: Node, s: State)
    ensures var t := EvalExpr(h, fuel, e, s).st; t.clean ==> s.clean && t.cmds == s.cmds
  {
    hide EvalExpr;
    ExprEvolves(h, fuel, e, s);
  }

  lemma ArgsStayClean(h: Host, fuel: nat, args: seq<Node>, s: State)
    ensures var t := EvalArgs(h, fuel, args, s).st; t.clean ==> s.clean && t.cmds == s.cmds
  {
    hide EvalArgs;
    ArgsEvolves(h, fuel, args, s);
  }

  lemma StmtStaysClean(h: Host, fuel: nat, n: Node, s: State)
    ensures var t := EvalStmt(h, fuel, n, s).st; t.clean ==> s.clean && t.cmds == s.cmds
  {
    hide EvalStmt;
    StmtEvolves(h, fuel, n, s);
  }

  lemma StmtsStayClean(h: Host, fuel: nat, stmts: seq<Node>, s: State)
    ensures var t := EvalStmts(h, fuel, stmts, s).st; t.clean ==> s.clean && t.cmds == s.cmds
  {
    hide EvalStmts;
    StmtsEvolves(h, fuel, stmts, s);
  }

  lemma TopStaysClean(h: Host, fuel: nat, stmts: seq<Node>, s: State)
    ensures var t := EvalTop(h, fuel, stmts, s).st; t.clean ==> s.clean && t.cmds == s.cmds
  {
    hide EvalTop;
    TopEvolves(h, fuel, stmts, s);
  }

  lemma LoopStaysClean(h: Host, fuel: nat, whole: Node, cond: Node, update: Node, body: Node, s: State)
    requires cond < whole && body < whole && (update.Nil? || update < whole)
    ensures var t := EvalLoop(h, fuel, whole, cond, update, body, s).st; t.clean ==> s.clean && t.cmds == s.cmds
  {
    hide EvalLoop;
    LoopEvolves(h, fuel, whole, cond, update, body, s);
  }

  /** In a clean run every command called is native. */
  lemma CleanCall(h: Host, fuel: nat, e: Node, s: State)
    requires e.Call? && EvalCall(h, fuel, e, s).st.clean
    ensures e.name in s.cmds
    ensures EvalArgs(h, fuel, e.args, s).status.Ok? ==> s.cmds[e.name].Native?
  {
    hide EvalArgs, CallBody;
    if e.name !in s.cmds {
      FunctionEvolves(h, fuel, e.name, e.args, s);
      ArgsStayClean(h, fuel, e.args, s.Check(false));
      var f := Lookup(s.scopes, e.name);
      var a := EvalArgs(h, fuel, e.args, s.Check(false));
      if f.Some? && f.value.value.Function? && a.status.Ok? {
        BodyEvolves(h, fuel, f.value.value.params, f.value.value.body, a.values, a.st, false);
      }
    } else {
      var a := EvalArgs(h, fuel, e.args, s);
      if a.status.Ok? { CleanCommand(h, fuel, e.name, s.cmds[e.name], a.values, a.st); }
    }
  }

  lemma CleanCommand(h: Host, fuel: nat, name: string, cmd: Command, args: seq<Value>, s: State)
    requires RunCommand(h, fuel, name, cmd, args, s).st.clean
    ensures cmd.Native?
  {
    hide CallBody;
    if cmd.AstCommand? { BodyEvolves(h, fuel, cmd.params, cmd.body, args, s.Check(false), true); }
  }

  /** A clean run executes no for loop and no return. */
  lemma CleanHasNoFor(h: Host, fuel: nat, n: Node, s: State)
    requires n.For?
    ensures !EvalFor(h, fuel, n, s).st.clean
  {
    hide EvalStmt, EvalLoop;
    var start := s.Push().Check(false);
    StmtStaysClean(h, fuel, n.init, start);
    LoopStaysClean(h, fuel, n, n.cond, n.update, n.body, EvalStmt(h, fuel, n.init, start).st);
  }

  lemma CleanCustomCall(h: Host, fuel: nat, n: Node, s: State)
    requires n.CustomCall? && EvalCustomCall(h, fuel, n, s).st.clean
    ensures n.name in s.cmds && n.body.Nil?
    ensures var a := EvalArgs(h, fuel, n.args, s.Check(n.body.Nil?));
      && a.st.clean
      && (a.status.Ok? ==> s.cmds[n.name].Native?)
  {
    hide EvalArgs, CallBody, EvalStmt, EvalExpr;
    ArgsStayClean(h, fuel, n.args, s.Check(n.body.Nil?));
    ArgsStayClean(h, fuel, n.args, s.Check(false));
    if n.name in s.cmds {
      var a := EvalArgs(h, fuel, n.args, s.Check(n.body.Nil?));
      if a.status.Ok? {
        var r := RunCommand(h, fuel, n.name, s.cmds[n.name], a.values, a.st);
        StmtStaysClean(h, fuel, n.body, r.st);
        CleanCommand(h, fuel, n.name, s.cmds[n.name], a.values, a.st);
      }
    } else {
      FunctionEvolves(h, fuel, n.name, n.args, s);
      var f := Lookup(s.scopes, n.name);
      var a := EvalArgs(h, fuel, n.args, s.Check(false));
      if f.Some? && f.value.value.Function? && a.status.Ok? {
        BodyEvolves(h, fuel, f.value.value.params, f.value.value.body, a.values, a.st, false);
      }
    }
  }
}
