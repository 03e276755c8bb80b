/** The tree-walk interpreter (bs_interpreter.c) as a function on states.  Loop iterations and
    calls use up fuel; running out gives Timeout.  The flag "clean" records that no step so far
    left the part of the language on which the interpreter and the virtual machine agree; it
    has no influence on anything else. */
module BsInterpreter {
  import opened BsAst
  import opened BsValue
  import opened BsScopes

  datatype Status = Ok | Returned | Broke | Continued | Error | Timeout

  datatype State = State(scopes: seq<Scope>, cmds: Registry, out: string, clean: bool) {
    function Check(c: bool): State { this.(clean := clean && c) }
    function Push(): State { this.(scopes := PushScope(scopes)) }
    function Pop(): State { this.(scopes := PopScope(scopes)) }
    function Emit(text: string): State { this.(out := out + text) }
  }

  datatype Result = Result(status: Status, value: Value, st: State)
  datatype ArgsResult = ArgsResult(status: Status, values: seq<Value>, st: State)

  function Fail(s: State): Result { Result(Error, Null, s) }
  function Done(s: State): Result { Result(Ok, Null, s) }

  /** bs_eval_expression */
  function EvalExpr(h: Host, fuel: nat, e: Node, s: State): Result
    decreases fuel, 1, e, 2
  {
    match e
    case Literal(v) =>
      Result(Ok, v, s.Check(!v.Float? && !v.Function? && !v.NativePtr?))
    case Identifier(x) =>
      (match Lookup(s.scopes, x)
       case Some(b) => Result(Ok, b.value, s)
       case None => Fail(s))
    case Unary(op, operand) =>
      var r := EvalExpr(h, fuel, operand, s);
      if !r.status.Ok? then r else EvalUnary(h, op, r)
    case Binary(_, _, _) => EvalBinary(h, fuel, e, s)
    case Assign(x, value) =>
      var r := EvalExpr(h, fuel, value, s);
      if !r.status.Ok? then r
      else
        (match AssignTo(r.st.scopes, x, r.value)
         case Some(scopes) => r.(st := r.st.(scopes := scopes))
         case None => r.(st := r.st.(scopes := Define(r.st.scopes, x, r.value, false), clean := false)))
    case Call(_, _) => EvalCall(h, fuel, e, s)
    case _ => Done(s.Check(false))
  }

  function EvalUnary(h: Host, op: Op, r: Result): Result {
    if op == Bang then Result(Ok, Bool(!Truthy(h, r.value)), r.st)
    else if op == Minus then
      if r.value.Int? then Result(Ok, Int(-r.value.i), r.st)
      else if r.value.Float? then Result(Ok, Float(h.floatNeg(r.value.f)), r.st)
      else Fail(r.st)
    else r
  }

  function EvalBinary(h: Host, fuel: nat, e: Node, s: State): Result
    requires e.Binary?
    decreases fuel, 1, e, 1
  {
    var l := EvalExpr(h, fuel, e.left, s);
    if !l.status.Ok? then l
    else if e.op == AndAnd && !Truthy(h, l.value) then
      Result(Ok, Bool(false), l.st.Check(l.value.Bool?))
    else if e.op == OrOr && Truthy(h, l.value) then
      Result(Ok, Bool(true), l.st.Check(l.value.Bool?))
    else
      var r := EvalExpr(h, fuel, e.right, l.st);
      if !r.status.Ok? then r
      else if e.op == AndAnd || e.op == OrOr then
        Result(Ok, Bool(Truthy(h, r.value)), r.st.Check(r.value.Bool?))
      else
        Result(Ok, InterpBinary(h, e.op, l.value, r.value), r.st.Check(EnginesAgree(h, e.op, l.value, r.value)))
  }

  /** A registered command comes before a function value of the same name. */
  function EvalCall(h: Host, fuel: nat, e: Node, s: State): Result
    requires e.Call?
    decreases fuel, 1, e, 1
  {
    if e.name in s.cmds then
      var a := EvalArgs(h, fuel, e.args, s);
      if !a.status.Ok? then Result(a.status, Null, a.st)
      else RunCommand(h, fuel, e.name, s.cmds[e.name], a.values, a.st)
    else
      match Lookup(s.scopes, e.name)
      case Some(Binding(Function(_, params, body), _)) =>
        var a := EvalArgs(h, fuel, e.args, s.Check(false));
        if !a.status.Ok? then Result(a.status, Null, a.st)
        else CallBody(h, fuel, params, body, a.values, a.st, false)
      case _ => Fail(s.Check(false))
  }

  /** Arguments from left to right, up to the first that does not end normally. */
  function EvalArgs(h: Host, fuel: nat, args: seq<Node>, s: State): (r: ArgsResult)
    ensures r.status.Ok? ==> |r.values| == |args|
    decreases fuel, 1, args, 1
  {
    if args == [] then ArgsResult(Ok, [], s)
    else
      var r := EvalExpr(h, fuel, args[0], s);
      if !r.status.Ok? then ArgsResult(r.status, [], r.st)
      else
        var rest := EvalArgs(h, fuel, args[1..], r.st);
        if !rest.status.Ok? then rest
        else ArgsResult(Ok, [r.value] + rest.values, rest.st)
  }

  /** A registered command on evaluated arguments: native code, a behavioural body, or (for a
      macro left in the tree) nothing. */
  function RunCommand(h: Host, fuel: nat, name: string, cmd: Command, args: seq<Value>, s: State): Result
    decreases fuel, 0
  {
    match cmd
    case Native =>
      var r := h.natives(name, args);
      Result(Ok, r.0, s.Emit(r.1))
    case AstCommand(params, body) =>
      if body.Nil? then Done(s.Check(false)) else CallBody(h, fuel, params, body, args, s.Check(false), true)
    case Macro(_, _) => Done(s.Check(false))
  }

  /** A body in a scope of its own that binds the parameters.  Whatever way the body ends, the
      call ends normally; a command also passes on the value of a body that just finished. */
  function CallBody(h: Host, fuel: nat, params: seq<string>, body: Node, args: seq<Value>, s: State, isCommand: bool): Result
    decreases fuel, 0, 0
  {
    if fuel == 0 then Result(Timeout, Null, s)
    else
      var inner := s.Push();
      var r := EvalStmt(h, fuel - 1, body, inner.(scopes := DefineParams(inner.scopes, params, args)));
      if r.status.Timeout? then Result(Timeout, Null, r.st.Pop())
      else
        Result(Ok, if r.status.Returned? || (isCommand && r.status.Ok?) then r.value else Null, r.st.Pop())
  }

  /** bs_eval_statement */
  function EvalStmt(h: Host, fuel: nat, n: Node, s: State): Result
    decreases fuel, 1, n, 4
  {
    match n
    case VarDecl(x, isConst, init) =>
      if init.Nil? then Done(s.(scopes := Define(s.scopes, x, Null, isConst)))
      else
        var r := EvalExpr(h, fuel, init, s);
        if !r.status.Ok? then r else Done(r.st.(scopes := Define(r.st.scopes, x, r.value, isConst)))
    case ExprStmt(e) =>
      var r := EvalExpr(h, fuel, e, s);
      if !r.status.Ok? then r else Done(r.st)
    case Block(stmts) =>
      var r := EvalStmts(h, fuel, stmts, s.Push());
      r.(st := r.st.Pop())
    case If(cond, thenBranch, elseBranch) =>
      var c := EvalExpr(h, fuel, cond, s);
      if !c.status.Ok? then c
      else if Truthy(h, c.value) then EvalStmt(h, fuel, thenBranch, c.st)
      else EvalStmt(h, fuel, elseBranch, c.st)
    case While(cond, body) => EvalLoop(h, fuel, n, cond, Nil, body, s)
    case For(_, _, _, _) => EvalFor(h, fuel, n, s)
    case Return(e) =>
      if e.Nil? then Result(Returned, Null, s.Check(false))
      else
        var r := EvalExpr(h, fuel, e, s.Check(false));
        if !r.status.Ok? then r else r.(status := Returned)
    case Break => Result(Broke, Null, s.Check(false))
    case Continue => Result(Continued, Null, s.Check(false))
    case Print(e, isRaw, addNewline) =>
      if e.Nil? then Done(s.Check(false).Emit(if addNewline then "\n" else ""))
      else
        var r := EvalExpr(h, fuel, e, s);
        if !r.status.Ok? then r
        else Done(r.st.Check(isRaw != addNewline).Emit(PrintText(h, r.value)).Emit(if addNewline then "\n" else ""))
    case FuncDecl(name, params, body) =>
      Done(s.Check(false).(scopes := Define(s.scopes, name, Function(name, params, body), false)))
    case CommandDef(name, params, body) =>
      Done(s.Check(false).(cmds := s.cmds[name := AstCommand(params, body)]))
    case MacroDef(name, params, body) =>
      Done(s.Check(false).(cmds := s.cmds[name := Macro(params, body)]))
    case CustomCall(_, _, _) => EvalCustomCall(h, fuel, n, s)
    case _ => Done(s)
  }

  /** A for loop runs in a scope of its own, which is popped on every way out. */
  function EvalFor(h: Host, fuel: nat, n: Node, s: State): Result
    requires n.For?
    decreases fuel, 1, n, 3
  {
    var i := EvalStmt(h, fuel, n.init, s.Push().Check(false));
    if !i.status.Ok? then i.(st := i.st.Pop())
    else
      var r := EvalLoop(h, fuel, n, n.cond, n.update, n.body, i.st);
      r.(st := r.st.Pop())
  }

  /** A command or function called as a statement; only a command runs its trailing block. */
  function EvalCustomCall(h: Host, fuel: nat, n: Node, s: State): Result
    requires n.CustomCall?
    decreases fuel, 1, n, 3
  {
    if n.name in s.cmds then
      var a := EvalArgs(h, fuel, n.args, s.Check(n.body.Nil?));
      if !a.status.Ok? then Result(a.status, Null, a.st)
      else
        var r := RunCommand(h, fuel, n.name, s.cmds[n.name], a.values, a.st);
        if !r.status.Ok? then Result(r.status, Null, r.st) else EvalStmt(h, fuel, n.body, r.st)
    else
      match Lookup(s.scopes, n.name)
      case Some(Binding(Function(_, params, fbody), _)) =>
        var a := EvalArgs(h, fuel, n.args, s.Check(false));
        if !a.status.Ok? then Result(a.status, Null, a.st)
        else
          var r := CallBody(h, fuel, params, fbody, a.values, a.st, false);
          Result(r.status, Null, r.st)
      case _ => Fail(s.Check(false))
  }

  /** The statements of a block, up to the first that does not end normally. */
  function EvalStmts(h: Host, fuel: nat, stmts: seq<Node>, s: State): Result
    decreases fuel, 1, stmts, 0
  {
    if stmts == [] then Done(s)
    else
      var r := EvalStmt(h, fuel, stmts[0], s);
      if !r.status.Ok? || |stmts| == 1 then r else EvalStmts(h, fuel, stmts[1..], r.st)
  }

  datatype Round = Stop(result: Result) | Again(st: State)

  /** A for loop without a condition goes on. */
  function EvalCond(h: Host, fuel: nat, whole: Node, cond: Node, s: State): Result
    requires cond < whole
    decreases fuel, 1, whole, 0
  {
    if cond.Nil? && whole.For? then Result(Ok, Bool(true), s) else EvalExpr(h, fuel, cond, s)
  }

  /** One round of while (cond) { body; update }, for while and for statements.
      "whole" is the loop statement itself, which bounds its parts. */
  function EvalRound(h: Host, fuel: nat, whole: Node, cond: Node, update: Node, body: Node, s: State): Round
    requires cond < whole && body < whole && (update.Nil? || update < whole)
    decreases fuel, 1, whole, 1
  {
    var c := EvalCond(h, fuel, whole, cond, s);
    if !c.status.Ok? then Stop(c)
    else if !Truthy(h, c.value) then Stop(Done(c.st))
    else EvalBody(h, fuel, whole, update, body, c.st)
  }

  /** The rest of a round whose condition holds; continue goes on to the update like a normal end. */
  function EvalBody(h: Host, fuel: nat, whole: Node, update: Node, body: Node, s: State): Round
    requires body < whole && (update.Nil? || update < whole)
    decreases fuel, 1, whole, 0
  {
    var b := EvalStmt(h, fuel, body, s);
    if b.status.Broke? then Stop(Done(b.st))
    else if b.status.Returned? || b.status.Error? || b.status.Timeout? then Stop(b)
    else
      var u := if update.Nil? then Done(b.st) else EvalExpr(h, fuel, update, b.st);
      if !u.status.Ok? then Stop(u) else Again(u.st)
  }

  /** Rounds until one stops the loop. */
  function EvalLoop(h: Host, fuel: nat, whole: Node, cond: Node, update: Node, body: Node, s: State): Result
    requires cond < whole && body < whole && (update.Nil? || update < whole)
    decreases fuel, 1, whole, 2
  {
    match EvalRound(h, fuel, whole, cond, update, body, s)
    case Stop(r) => r
    case Again(st) =>
      if fuel == 0 then Result(Timeout, Null, st) else EvalLoop(h, fuel - 1, whole, cond, update, body, st)
  }

  /** The top-level statements run in the global scope; break and continue there are ignored. */
  function EvalTop(h: Host, fuel: nat, stmts: seq<Node>, s: State): Result {
    if stmts == [] then Done(s)
    else
      var r := EvalStmt(h, fuel, stmts[0], s);
      if r.status.Error? || r.status.Returned? || r.status.Timeout? || |stmts| == 1 then r
      else EvalTop(h, fuel, stmts[1..], r.st)
  }

  /** The body of main, if that is a function, in a scope of its own. */
  function CallMain(h: Host, fuel: nat, s: State): Result {
    match Lookup(s.scopes, "main")
    case Some(Binding(Function(_, _, body), _)) =>
      var m := EvalStmt(h, fuel, body, s.Push().Check(false));
      m.(st := m.st.Pop())
    case _ => Done(s)
  }

  /** bs_eval_program: the statements, then main() if the program defined one. */
  function EvalProgram(h: Host, fuel: nat, program: Node, s: State): Result {
    if program.Nil? then Done(s)
    else
      var r := if program.Block? then EvalTop(h, fuel, program.stmts, s) else EvalStmt(h, fuel, program, s);
      if r.status.Error? || r.status.Timeout? then r else CallMain(h, fuel, r.st)
  }
}
