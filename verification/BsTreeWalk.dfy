/** bs_eval_expression, bs_eval_statement and bs_eval_program on a runtime updated in place.
    Each computes what the interpreter's function on states computes. */
module BsTreeWalk {
  import opened BsAst
  import opened BsValue
  import opened BsScopes
  import opened BsInterpreter
  import opened BsRuntime

  method EvalExpression(rt: Runtime, fuel: nat, e: Node) returns (status: Status, value: Value)
    modifies rt
    ensures Result(status, value, rt.Now()) == EvalExpr(rt.h, fuel, e, old(rt.Now()))
    decreases fuel, 1, e, 2
  {
    hide EvalBinary, EvalCall, Lookup, AssignTo;
    status, value := Ok, Null;
    if e.Literal? {
      value := e.lit;
      rt.clean := rt.clean && !e.lit.Float? && !e.lit.Function? && !e.lit.NativePtr?;
    } else if e.Identifier? {
      var b := rt.Get(e.name);
      if b.Some? { value := b.value; } else { status := Error; }
    } else if e.Unary? {
      status, value := EvalExpression(rt, fuel, e.operand);
      if status.Ok? {
        if e.op == Bang {
          value := Bool(!Truthy(rt.h, value));
        } else if e.op == Minus {
          if value.Int? { value := Int(-value.i); }
          else if value.Float? { value := Float(rt.h.floatNeg(value.f)); }
          else { status, value := Error, Null; }
        }
      }
    } else if e.Binary? {
      status, value := EvalOperator(rt, fuel, e);
    } else if e.Assign? {
      status, value := EvalExpression(rt, fuel, e.expr);
      if status.Ok? {
        var ok := rt.AssignVar(e.name, value);
        if !ok {
          rt.Define(e.name, value, false);
          rt.clean := false;
        }
      }
    } else if e.Call? {
      status, value := EvalInvocation(rt, fuel, e);
    } else {
      rt.clean := false;
    }
  }

  /** Both operands unless && or || is decided by the left one. */
  method EvalOperator(rt: Runtime, fuel: nat, e: Node) returns (status: Status, value: Value)
    requires e.Binary?
    modifies rt
    ensures Result(status, value, rt.Now()) == EvalBinary(rt.h, fuel, e, old(rt.Now()))
    decreases fuel, 1, e, 1
  {
    hide EvalExpr, InterpBinary, EnginesAgree;
    var left;
    status, left := EvalExpression(rt, fuel, e.left);
    if !status.Ok? { return status, left; }
    if e.op == AndAnd && !Truthy(rt.h, left) {
      rt.clean := rt.clean && left.Bool?;
      return Ok, Bool(false);
    }
    if e.op == OrOr && Truthy(rt.h, left) {
      rt.clean := rt.clean && left.Bool?;
      return Ok, Bool(true);
    }
    var right;
    status, right := EvalExpression(rt, fuel, e.right);
    if !status.Ok? { return status, right; }
    if e.op == AndAnd || e.op == OrOr {
      rt.clean := rt.clean && right.Bool?;
      return Ok, Bool(Truthy(rt.h, right));
    }
    rt.clean := rt.clean && EnginesAgree(rt.h, e.op, left, right);
    return Ok, InterpBinary(rt.h, e.op, left, right);
  }

  method EvalInvocation(rt: Runtime, fuel: nat, e: Node) returns (status: Status, value: Value)
    requires e.Call?
    modifies rt
    ensures Result(status, value, rt.Now()) == EvalCall(rt.h, fuel, e, old(rt.Now()))
    decreases fuel, 1, e, 1
  {
    hide BsInterpreter.EvalArgs, RunCommand, CallBody, Lookup;
    if e.name in rt.cmds {
      var cmd := rt.cmds[e.name];
      var args;
      status, args := EvalArguments(rt, fuel, e.args);
      value := Null;
      if status.Ok? { status, value := Execute(rt, fuel, e.name, cmd, args); }
    } else {
      var f := rt.Get(e.name);
      rt.clean := false;
      if f.Some? && f.value.Function? {
        var args;
        status, args := EvalArguments(rt, fuel, e.args);
        value := Null;
        if status.Ok? { status, value := CallWithScope(rt, fuel, f.value.params, f.value.body, args, false); }
      } else {
        status, value := Error, Null;
      }
    }
  }

  method EvalArguments(rt: Runtime, fuel: nat, args: seq<Node>) returns (status: Status, values: seq<Value>)
    modifies rt
    ensures ArgsResult(status, values, rt.Now()) == EvalArgs(rt.h, fuel, args, old(rt.Now()))
    decreases fuel, 1, args, 1
  {
    hide EvalExpr;
    status, values := Ok, [];
    var i := 0;
    ghost var start := rt.Now();
    while i < |args|
      invariant i <= |args| && status.Ok? && |values| == i
      invariant EvalArgs(rt.h, fuel, args, start) == Prefixed(values, EvalArgs(rt.h, fuel, args[i..], rt.Now()))
    {
      var v;
      ghost var here := rt.Now();
      status, v := EvalExpression(rt, fuel, args[i]);
      assert args[i..][0] == args[i] && args[i..][1..] == args[i + 1..];
      if !status.Ok? { return status, []; }
      assert values + ([v] + EvalArgs(rt.h, fuel, args[i + 1..], rt.Now()).values)
          == (values + [v]) + EvalArgs(rt.h, fuel, args[i + 1..], rt.Now()).values;
      values := values + [v];
      i := i + 1;
    }
  }

  /** The result of the remaining arguments behind values already computed. */
  ghost function Prefixed(values: seq<Value>, r: ArgsResult): ArgsResult {
    if r.status.Ok? then r.(values := values + r.values) else r
  }

  method Execute(rt: Runtime, fuel: nat, name: string, cmd: Command, args: seq<Value>)
    returns (status: Status, value: Value)
    modifies rt
    ensures Result(status, value, rt.Now()) == RunCommand(rt.h, fuel, name, cmd, args, old(rt.Now()))
    decreases fuel, 0
  {
    hide CallBody;
    status, value := Ok, Null;
    if cmd.Native? {
      var r := rt.h.natives(name, args);
      value := r.0;
      rt.out := rt.out + r.1;
    } else {
      rt.clean := false;
      if cmd.AstCommand? && !cmd.body.Nil? {
        status, value := CallWithScope(rt, fuel, cmd.params, cmd.body, args, true);
      }
    }
  }

  method BindParams(rt: Runtime, params: seq<string>, args: seq<Value>)
    modifies rt
    ensures rt.Now() == old(rt.Now()).(scopes := DefineParams(old(rt.Now().scopes), params, args))
  {
    var i := 0;
    ghost var inner := rt.Now();
    assert params[0..] == params && args[0..] == args;
    while i < |params| && i < |args|
      invariant i <= |params| && i <= |args|
      invariant rt.Now() == inner.(scopes := rt.Now().scopes)
      invariant DefineParams(rt.Now().scopes, params[i..], args[i..]) == DefineParams(inner.scopes, params, args)
    {
      assert params[i..][1..] == params[i + 1..] && args[i..][1..] == args[i + 1..];
      rt.Define(params[i], args[i], false);
      i := i + 1;
    }
  }

  method CallWithScope(rt: Runtime, fuel: nat, params: seq<string>, body: Node, args: seq<Value>, isCommand: bool)
    returns (status: Status, value: Value)
    modifies rt
    ensures Result(status, value, rt.Now()) == CallBody(rt.h, fuel, params, body, args, old(rt.Now()), isCommand)
    decreases fuel, 0, 0
  {
    hide EvalStmt, DefineParams;
    if fuel == 0 { return Timeout, Null; }
    rt.PushEnv();
    BindParams(rt, params, args);
    status, value := EvalStatement(rt, fuel - 1, body);
    rt.PopEnv();
    if status.Timeout? { return Timeout, Null; }
    if status.Returned? || (isCommand && status.Ok?) { return Ok, value; }
    return Ok, Null;
  }

  method EvalStatement(rt: Runtime, fuel: nat, n: Node) returns (status: Status, value: Value)
    modifies rt
    ensures Result(status, value, rt.Now()) == EvalStmt(rt.h, fuel, n, old(rt.Now()))
    decreases fuel, 1, n, 4
  {
    hide EvalExpr, EvalStmts, EvalLoop, EvalFor, EvalCustomCall, PrintText, Truthy;
    status, value := Ok, Null;
    if n.VarDecl? {
      var init := Null;
      if !n.expr.Nil? {
        status, init := EvalExpression(rt, fuel, n.expr);
        if !status.Ok? { return status, init; }
      }
      rt.Define(n.name, init, n.isConst);
    } else if n.ExprStmt? {
      status, value := EvalExpression(rt, fuel, n.expr);
      if status.Ok? { value := Null; }
    } else if n.Block? {
      rt.PushEnv();
      status, value := EvalBlock(rt, fuel, n.stmts);
      rt.PopEnv();
    } else if n.If? {
      status, value := EvalExpression(rt, fuel, n.cond);
      if !status.Ok? { return; }
      if Truthy(rt.h, value) {
        status, value := EvalStatement(rt, fuel, n.thenBranch);
      } else {
        status, value := EvalStatement(rt, fuel, n.elseBranch);
      }
    } else if n.While? {
      status, value := EvalRounds(rt, fuel, n, n.cond, Nil, n.body);
    } else if n.For? {
      status, value := EvalForLoop(rt, fuel, n);
    } else if n.Return? {
      rt.clean := false;
      if !n.expr.Nil? { status, value := EvalExpression(rt, fuel, n.expr); }
      if status.Ok? { status := Returned; }
    } else if n.Break? {
      rt.clean := false;
      status := Broke;
    } else if n.Continue? {
      rt.clean := false;
      status := Continued;
    } else if n.Print? {
      status, value := EvalPrint(rt, fuel, n);
    } else if n.CustomCall? {
      status, value := EvalCallStatement(rt, fuel, n);
    } else {
      EvalDefinition(rt, fuel, n);
    }
  }

  /** Functions, commands and macros are defined; anything else does nothing. */
  method EvalDefinition(rt: Runtime, fuel: nat, n: Node)
    requires !n.VarDecl? && !n.ExprStmt? && !n.Block? && !n.If? && !n.While? && !n.For? && !n.Return? && !n.Break?
          && !n.Continue? && !n.Print? && !n.CustomCall?
    modifies rt
    ensures Done(rt.Now()) == EvalStmt(rt.h, fuel, n, old(rt.Now()))
  {
    if n.FuncDecl? {
      rt.Define(n.name, Function(n.name, n.params, n.body), false);
      rt.clean := false;
    } else if n.CommandDef? {
      rt.cmds := rt.cmds[n.name := AstCommand(n.params, n.body)];
      rt.clean := false;
    } else if n.MacroDef? {
      rt.cmds := rt.cmds[n.name := Macro(n.params, n.body)];
      rt.clean := false;
    }
  }

  method EvalPrint(rt: Runtime, fuel: nat, n: Node) returns (status: Status, value: Value)
    requires n.Print?
    modifies rt
    ensures Result(status, value, rt.Now()) == EvalStmt(rt.h, fuel, n, old(rt.Now()))
    decreases fuel, 1, n, 3
  {
    hide EvalExpr, PrintText;
    status, value := Ok, Null;
    if !n.expr.Nil? {
      status, value := EvalExpression(rt, fuel, n.expr);
      if !status.Ok? { return; }
      rt.out := rt.out + PrintText(rt.h, value);
      rt.clean := rt.clean && n.isRaw != n.addNewline;
      value := Null;
    } else {
      rt.clean := false;
    }
    rt.out := rt.out + (if n.addNewline then "\n" else "");
  }

  method EvalForLoop(rt: Runtime, fuel: nat, n: Node) returns (status: Status, value: Value)
    requires n.For?
    modifies rt
    ensures Result(status, value, rt.Now()) == EvalFor(rt.h, fuel, n, old(rt.Now()))
    decreases fuel, 1, n, 3
  {
    hide EvalStmt, EvalLoop;
    rt.PushEnv();
    rt.clean := false;
    status, value := EvalStatement(rt, fuel, n.init);
    if status.Ok? { status, value := EvalRounds(rt, fuel, n, n.cond, n.update, n.body); }
    rt.PopEnv();
  }

  method EvalCallStatement(rt: Runtime, fuel: nat, n: Node) returns (status: Status, value: Value)
    requires n.CustomCall?
    modifies rt
    ensures Result(status, value, rt.Now()) == EvalCustomCall(rt.h, fuel, n, old(rt.Now()))
    decreases fuel, 1, n, 3
  {
    hide EvalStmt, BsInterpreter.EvalArgs, RunCommand, CallBody, Lookup;
    value := Null;
    var args;
    if n.name in rt.cmds {
      var cmd := rt.cmds[n.name];
      rt.clean := rt.clean && n.body.Nil?;
      status, args := EvalArguments(rt, fuel, n.args);
      if status.Ok? {
        var dropped;
        status, dropped := Execute(rt, fuel, n.name, cmd, args);
        if status.Ok? { status, value := EvalStatement(rt, fuel, n.body); }
      }
    } else {
      var f := rt.Get(n.name);
      rt.clean := false;
      if f.Some? && f.value.Function? {
        status, args := EvalArguments(rt, fuel, n.args);
        if status.Ok? {
          var dropped;
          status, dropped := CallWithScope(rt, fuel, f.value.params, f.value.body, args, false);
        }
      } else {
        status := Error;
      }
    }
  }

  method EvalBlock(rt: Runtime, fuel: nat, stmts: seq<Node>) returns (status: Status, value: Value)
    modifies rt
    ensures Result(status, value, rt.Now()) == EvalStmts(rt.h, fuel, stmts, old(rt.Now()))
    decreases fuel, 1, stmts, 0
  {
    hide EvalStmt;
    status, value := Ok, Null;
    var i := 0;
    ghost var start := rt.Now();
    assert stmts[0..] == stmts;
    while i < |stmts|
      invariant i <= |stmts| && status.Ok?
      invariant i < |stmts| ==> EvalStmts(rt.h, fuel, stmts, start) == EvalStmts(rt.h, fuel, stmts[i..], rt.Now())
      invariant i == |stmts| ==> EvalStmts(rt.h, fuel, stmts, start) == Result(status, value, rt.Now())
    {
      assert stmts[i..][0] == stmts[i] && stmts[i..][1..] == stmts[i + 1..];
      status, value := EvalStatement(rt, fuel, stmts[i]);
      if !status.Ok? { return; }
      i := i + 1;
    }
  }

  /** The while (true) loop of while and for statements. */
  method EvalRounds(rt: Runtime, fuel: nat, whole: Node, cond: Node, update: Node, body: Node)
    returns (status: Status, value: Value)
    requires cond < whole && body < whole && (update.Nil? || update < whole)
    modifies rt
    ensures Result(status, value, rt.Now()) == EvalLoop(rt.h, fuel, whole, cond, update, body, old(rt.Now()))
    decreases fuel, 1, whole, 2
  {
    hide EvalRound;
    var left: nat := fuel;
    ghost var start := rt.Now();
    while true
      invariant left <= fuel
      invariant EvalLoop(rt.h, fuel, whole, cond, update, body, start)
             == EvalLoop(rt.h, left, whole, cond, update, body, rt.Now())
      decreases left
    {
      var again;
      again, status, value := EvalOneRound(rt, left, whole, cond, update, body);
      if !again { return; }
      if left == 0 { return Timeout, Null; }
      left := left - 1;
    }
  }

  method EvalOneRound(rt: Runtime, fuel: nat, whole: Node, cond: Node, update: Node, body: Node)
    returns (again: bool, status: Status, value: Value)
    requires cond < whole && body < whole && (update.Nil? || update < whole)
    modifies rt
    ensures var r := EvalRound(rt.h, fuel, whole, cond, update, body, old(rt.Now()));
      if again then r.Again? && r.st == rt.Now() else r.Stop? && r.result == Result(status, value, rt.Now())
    decreases fuel, 1, whole, 1
  {
    hide EvalExpr, EvalCond, BsInterpreter.EvalBody, Truthy;
    again := false;
    status, value := EvalCondition(rt, fuel, whole, cond);
    if status.Ok? {
      if Truthy(rt.h, value) {
        again, status, value := EvalLoopBody(rt, fuel, whole, update, body);
      } else {
        value := Null;
      }
    }
  }

  method EvalLoopBody(rt: Runtime, fuel: nat, whole: Node, update: Node, body: Node)
    returns (again: bool, status: Status, value: Value)
    requires body < whole && (update.Nil? || update < whole)
    modifies rt
    ensures var r := BsInterpreter.EvalBody(rt.h, fuel, whole, update, body, old(rt.Now()));
      if again then r.Again? && r.st == rt.Now() else r.Stop? && r.result == Result(status, value, rt.Now())
    decreases fuel, 1, whole, 0
  {
    hide EvalExpr, EvalStmt, Runtime.Now;
    again := false;
    status, value := EvalStatement(rt, fuel, body);
    if status.Broke? {
      status, value := Ok, Null;
    } else if status.Ok? || status.Continued? {
      status, value := Ok, Null;
      if !update.Nil? { status, value := EvalExpression(rt, fuel, update); }
      again := status.Ok?;
    }
  }

  /** A for loop without a condition goes on for ever. */
  method EvalCondition(rt: Runtime, fuel: nat, whole: Node, cond: Node) returns (status: Status, value: Value)
    requires cond < whole
    modifies rt
    ensures Result(status, value, rt.Now()) == EvalCond(rt.h, fuel, whole, cond, old(rt.Now()))
    decreases fuel, 1, whole, 0, 0
  {
    hide EvalExpr;
    if cond.Nil? && whole.For? { return Ok, Bool(true); }
    status, value := EvalExpression(rt, fuel, cond);
  }

  /** The statements of a program; break and continue at top level are ignored. */
  method EvalTopLevel(rt: Runtime, fuel: nat, stmts: seq<Node>) returns (status: Status, value: Value)
    modifies rt
    ensures Result(status, value, rt.Now()) == EvalTop(rt.h, fuel, stmts, old(rt.Now()))
  {
    hide EvalStmt;
    status, value := Ok, Null;
    ghost var start := rt.Now();
    var i := 0;
    assert stmts[0..] == stmts;
    while i < |stmts|
      invariant i <= |stmts|
      invariant i < |stmts| ==> EvalTop(rt.h, fuel, stmts, start) == EvalTop(rt.h, fuel, stmts[i..], rt.Now())
      invariant i == |stmts| ==> EvalTop(rt.h, fuel, stmts, start) == Result(status, value, rt.Now())
    {
      assert stmts[i..][0] == stmts[i] && stmts[i..][1..] == stmts[i + 1..];
      status, value := EvalStatement(rt, fuel, stmts[i]);
      if status.Error? || status.Returned? || status.Timeout? { return; }
      i := i + 1;
    }
  }

  /** main() of the program, if it is a function. */
  method EvalMain(rt: Runtime, fuel: nat) returns (status: Status, value: Value)
    modifies rt
    ensures Result(status, value, rt.Now()) == CallMain(rt.h, fuel, old(rt.Now()))
  {
    hide EvalStmt, Lookup;
    var f := rt.Get("main");
    status, value := Ok, Null;
    if f.Some? && f.value.Function? {
      rt.PushEnv();
      rt.clean := false;
      status, value := EvalStatement(rt, fuel, f.value.body);
      rt.PopEnv();
    }
  }

  lemma ProgramUnfold(h: Host, fuel: nat, program: Node, s: State)
    ensures program.Nil? ==> EvalProgram(h, fuel, program, s) == Done(s)
    ensures !program.Nil? ==>
      var r := if program.Block? then EvalTop(h, fuel, program.stmts, s) else EvalStmt(h, fuel, program, s);
      EvalProgram(h, fuel, program, s) == if r.status.Error? || r.status.Timeout? then r else CallMain(h, fuel, r.st)
  {
    hide EvalStmt, EvalTop, CallMain;
  }

  method EvalProgramTree(rt: Runtime, fuel: nat, program: Node) returns (status: Status, value: Value)
    modifies rt
    ensures Result(status, value, rt.Now()) == EvalProgram(rt.h, fuel, program, old(rt.Now()))
  {
    hide EvalStmt, EvalTop, EvalProgram, CallMain, Runtime.Now;
    ProgramUnfold(rt.h, fuel, program, rt.Now());
    status, value := Ok, Null;
    if program.Nil? { return; }
    if program.Block? {
      status, value := EvalTopLevel(rt, fuel, program.stmts);
    } else {
      status, value := EvalStatement(rt, fuel, program);
    }
    if status.Error? || status.Timeout? { return; }
    status, value := EvalMain(rt, fuel);
  }
}
