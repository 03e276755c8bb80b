/** Compiled programs behave as interpreted: the theorem about whole programs. */
module BsCorrectness {
  import opened BsAst
  import opened BsValue
  import opened BsScopes
  import opened BsInterpreter
  import opened BsScopeDiscipline
  import opened BsBytecode
  import opened BsVm
  import opened BsCodegen
  import opened BsSlots
  import opened BsWellFormed
  import opened BsLocals
  import opened BsSimExpr
  import opened BsSimStmt

  /** What a caller can check before running a compiled program on the machine. */
  predicate Compilable(env: Env, program: Node) {
    && WfProgram(program)
    && NeedProgram(program) <= MAX_STACK
    && var c := CompileProgram(env, program); c.Compiled? && c.exact
  }

  function StartState(cmds: Registry, globals: Scope): State {
    State([globals], cmds, "", true)
  }

  function ImageOf(env: Env, program: Node): Image
    requires CompileProgram(env, program).Compiled?
  {
    var c := CompileProgram(env, program);
    Image(env.h, env.cmds, c.code, c.pool)
  }

  function StartVm(globals: Scope): Vm { Vm(0, [], globals, "") }

  /** Names and slots at every statement boundary: from matching states, a statement that ends normally leaves the
      machine behind its code with one stack slot for each local, such that a name has a slot exactly if a block scope
      of the interpreter binds it, and the slot holds the value the scope chain gives. */
  lemma NamesAndSlots(m: Image, locals: seq<Local>, depth: nat, pool: seq<Value>, n: Node, fuel: nat, s: State, vm: Vm,
                      slots: seq<Value>)
    returns (vm1: Vm)
    requires WfStmt(n, |locals|, depth)
    requires ReadyStmt(m, locals, depth, CompileStmt(EnvOf(m), locals, depth, pool, n), s, vm, slots, NeedStmt(n, depth))
    requires EvalStmt(m.h, fuel, n, s).st.clean && EvalStmt(m.h, fuel, n, s).status.Ok?
    ensures var c := CompileStmt(EnvOf(m), locals, depth, pool, n);
      var scopes := EvalStmt(m.h, fuel, n, s).st.scopes;
      && Reaches(m, vm, Running(vm1)) && vm1.ip == vm.ip + |c.code|
      && |vm1.stack| == |c.locals| && |scopes| == depth + 1
      && forall x :: NameAndSlot(c.locals, vm1.stack, scopes, x)
  {
    hide Sync, Reaches, EvalStmt, CompileStmt, WfStmt, NeedStmt, CodeAt, Agree;
    var slots1;
    vm1, slots1 := SimStmt(m, locals, depth, pool, n, fuel, s, vm, slots);
    var c := CompileStmt(EnvOf(m), locals, depth, pool, n);
    var t := EvalStmt(m.h, fuel, n, s).st;
    SlotsOf(m, c.locals, depth, t, vm1, slots1);
    forall x ensures NameAndSlot(c.locals, vm1.stack, t.scopes, x) {
      ResolveAgrees(c.locals, depth, slots1, t.scopes, x);
    }
  }

  ghost predicate NameAndSlot(locals: seq<Local>, stack: seq<Value>, scopes: seq<Scope>, x: string)
    requires |stack| == |locals|
  {
    var i := Resolve(locals, x);
    && (i >= 0 <==> exists j :: 0 <= j < |scopes| - 1 && x in scopes[j])
    && (i >= 0 ==> exists b :: Lookup(scopes, x) == Some(b) && b.value == stack[i])
  }

  lemma SlotsOf(m: Image, locals: seq<Local>, depth: nat, s: State, vm: Vm, slots: seq<Value>)
    requires Sync(m, locals, depth, s, vm, slots, [])
    ensures Agree(locals, depth, slots, s.scopes) && vm.stack == slots && |slots| == |locals| && |s.scopes| == depth + 1
  {
  }

  /** The top-level statements of a program whose root is a block. */
  lemma {:induction false} SimTop(m: Image, pool: seq<Value>, stmts: seq<Node>, fuel: nat, s: State, vm: Vm)
    returns (vm1: Vm)
    requires WfStmts(stmts, 0, 0)
    requires ReadyStmt(m, [], 0, CompileStmts(EnvOf(m), [], 0, pool, stmts), s, vm, [], NeedStmts(stmts, 0))
    requires EvalTop(m.h, fuel, stmts, s).st.clean
    ensures StmtSim(m, [], 0, fuel, EvalTop(m.h, fuel, stmts, s), vm,
                    |CompileStmts(EnvOf(m), [], 0, pool, stmts).code|, vm1, [])
    decreases stmts
  {
    hide Sync, Stopped, Reaches, Runs, CodeAt, EvalStmt, CompileStmt, WfStmt, NeedStmt;
    if stmts == [] {
      vm1 := vm;
      ReachesRefl(m, vm);
    } else {
      var c := CompileStmt(EnvOf(m), [], 0, pool, stmts[0]);
      var d := CompileStmts(EnvOf(m), c.locals, 0, c.pool, stmts[1..]);
      StmtsPool(EnvOf(m), c.locals, 0, c.pool, stmts[1..]);
      CodeAtSplit(m.code, vm.ip, c.code, d.code);
      LocalsAfter(EnvOf(m), [], 0, pool, stmts[0]);
      assert c.locals == [];
      var r := EvalStmt(m.h, fuel, stmts[0], s);
      var stops := r.status.Error? || r.status.Returned? || r.status.Timeout?;
      if !stops && |stmts| > 1 { TopStaysClean(m.h, fuel, stmts[1..], r.st); }
      var mid, slots0 := SimStmt(m, [], 0, pool, stmts[0], fuel, s, vm, []);
      vm1 := mid;
      if r.status.Ok? {
        NoSlots(m, r.st, mid, slots0);
        HeightOf(m, [], 0, s, vm, [], [], r.st, mid, []);
        if |stmts| == 1 {
          assert stmts[1..] == [];
        } else {
          vm1 := SimTop(m, c.pool, stmts[1..], fuel, r.st, mid);
          StmtAfter(m, [], 0, fuel, EvalTop(m.h, fuel, stmts[1..], r.st), vm, mid, |c.code|, |d.code|, vm1, []);
        }
      }
    }
  }

  lemma NoSlots(m: Image, s: State, vm: Vm, slots: seq<Value>)
    requires Sync(m, [], 0, s, vm, slots, [])
    ensures slots == []
  {
  }

  lemma SyncStart(m: Image, cmds: Registry, globals: Scope, machineGlobals: Scope)
    requires GlobalsAgree(globals, machineGlobals) && m.cmds == cmds
    ensures Sync(m, [], 0, StartState(cmds, globals), StartVm(machineGlobals), [], [])
  {
  }

  /** The simulation of a whole program, up to the final OP_HALT. */
  lemma SimProgram(env: Env, program: Node, fuel: nat, globals: Scope, machineGlobals: Scope) returns (vm1: Vm)
    requires Compilable(env, program) && GlobalsAgree(globals, machineGlobals)
    requires EvalProgram(env.h, fuel, program, StartState(env.cmds, globals)).st.clean
    ensures var r := EvalProgram(env.h, fuel, program, StartState(env.cmds, globals));
      var m := ImageOf(env, program);
      var vm := StartVm(machineGlobals);
      match r.status
      case Ok => Reaches(m, vm, Halted(vm1)) && Stopped(0, r.st, vm1)
      case Error => Reaches(m, vm, Faulted(vm1)) && Stopped(0, r.st, vm1)
      case Timeout => Runs(m, fuel, vm)
      case _ => false
  {
    hide EvalStmt, EvalTop, CompileStmt, CompileStmts, Reaches, Runs, Sync, WfStmts, WfStmt, NeedStmt, NeedStmts, Stopped;
    var m := ImageOf(env, program);
    var vm := StartVm(machineGlobals);
    var s := StartState(env.cmds, globals);
    SyncStart(m, env.cmds, globals, machineGlobals);
    var c := if program.Block? then CompileStmts(env, [], 0, [], program.stmts) else CompileStmt(env, [], 0, [], program);
    assert env == EnvOf(m);
    assert m.code == c.code + Encode(Halt) && CodeAt(m.code, 0, c.code + Encode(Halt));
    CodeAtSplit(m.code, 0, c.code, Encode(Halt));
    hide CodeAt;
    var r := if program.Block? then EvalTop(env.h, fuel, program.stmts, s) else EvalStmt(env.h, fuel, program, s);
    NoMainWhenClean(env.h, fuel, program, s);
    if program.Block? {
      vm1 := SimTop(m, [], program.stmts, fuel, s, vm);
    } else {
      LocalsAfter(env, [], 0, [], program);
      assert c.locals == [];
      var slots;
      vm1, slots := SimStmt(m, [], 0, [], program, fuel, s, vm, []);
      if r.status.Ok? { NoSlots(m, r.st, vm1, slots); }
    }
    if r.status.Ok? {
      HaltsHere(m, r.st, vm, vm1);
      vm1 := vm1.(ip := vm1.ip + 1);
    }
  }

  lemma HaltsHere(m: Image, s: State, vm: Vm, end: Vm)
    requires Reaches(m, vm, Running(end)) && CodeAt(m.code, end.ip, Encode(Halt))
    requires Sync(m, [], 0, s, end, [], [])
    ensures Reaches(m, vm, Halted(end.(ip := end.ip + 1)))
    ensures Stopped(0, s, end.(ip := end.ip + 1))
  {
    hide Reaches;
    ReachesThen(m, vm, end, Halt);
  }

  /** A clean run ends without calling main: the program's result is that of its statements. */
  lemma NoMainWhenClean(h: Host, fuel: nat, program: Node, s: State)
    requires !program.Nil? && EvalProgram(h, fuel, program, s).st.clean
    ensures var r := if program.Block? then EvalTop(h, fuel, program.stmts, s) else EvalStmt(h, fuel, program, s);
      && r.st.clean
      && EvalProgram(h, fuel, program, s) == if r.status.Error? || r.status.Timeout? then r else Done(r.st)
  {
    hide EvalStmt, EvalTop;
    var r := if program.Block? then EvalTop(h, fuel, program.stmts, s) else EvalStmt(h, fuel, program, s);
    var f := Lookup(r.st.scopes, "main");
    if f.Some? && f.value.value.Function? {
      StmtStaysClean(h, fuel, f.value.value.body, r.st.Push().Check(false));
    }
  }

  /** The machine, started at vm, ends as r did, and in no other way; a run without an end is matched
      by one as long as the fuel. */
  ghost predicate BehavesAs(m: Image, vm: Vm, r: Result, fuel: nat) {
    match r.status
    case Ok => (exists end :: Reaches(m, vm, Halted(end))) && EndsOnlyAs(m, vm, r)
    case Error => (exists end :: Reaches(m, vm, Faulted(end))) && EndsOnlyAs(m, vm, r)
    case Timeout => Runs(m, fuel, vm)
    case _ => false
  }

  /** Every way for the machine to stop is the right one, with r's output and r's globals. */
  ghost predicate EndsOnlyAs(m: Image, vm: Vm, r: Result) {
    forall o :: Reaches(m, vm, o) && !o.Running? ==>
      && (if r.status.Ok? then o.Halted? else o.Faulted?)
      && o.vm.out == r.st.out
      && |r.st.scopes| == 1
      && GlobalsAgree(r.st.scopes[0], o.vm.globals)
  }

  /** Compiler correctness.  For every program of the common language that compiles exactly, every
      start, and every run of the interpreter that stays where the two engines agree:
      if it finishes, the machine reaches OP_HALT with exactly that output and those globals;
      if it fails, the machine reports a run-time error after exactly that output, with those globals;
      if it uses up its fuel, the machine does not stop within as many steps. */
  lemma CompilerCorrect(env: Env, program: Node, fuel: nat, globals: Scope, machineGlobals: Scope)
    requires Compilable(env, program) && GlobalsAgree(globals, machineGlobals)
    requires EvalProgram(env.h, fuel, program, StartState(env.cmds, globals)).st.clean
    ensures BehavesAs(ImageOf(env, program), StartVm(machineGlobals),
                      EvalProgram(env.h, fuel, program, StartState(env.cmds, globals)), fuel)
  {
    hide EvalProgram, CompileProgram, Reaches, Runs, GlobalsAgree;
    var r := EvalProgram(env.h, fuel, program, StartState(env.cmds, globals));
    var m := ImageOf(env, program);
    var vm := StartVm(machineGlobals);
    var end := SimProgram(env, program, fuel, globals, machineGlobals);
    if !r.status.Timeout? {
      var stop := if r.status.Ok? then Halted(end) else Faulted(end);
      forall o | Reaches(m, vm, o) && !o.Running? ensures o == stop {
        ReachesUnique(m, vm, o, stop);
      }
    }
  }

  /** The machine stops exactly when the interpreter does. */
  lemma SameTermination(env: Env, program: Node, globals: Scope, machineGlobals: Scope)
    requires Compilable(env, program) && GlobalsAgree(globals, machineGlobals)
    requires forall fuel: nat :: EvalProgram(env.h, fuel, program, StartState(env.cmds, globals)).st.clean
    ensures (exists fuel: nat :: !EvalProgram(env.h, fuel, program, StartState(env.cmds, globals)).status.Timeout?)
       <==> (exists o :: Reaches(ImageOf(env, program), StartVm(machineGlobals), o) && !o.Running?)
  {
    hide EvalProgram, CompileProgram, Reaches, Runs, GlobalsAgree;
    var m := ImageOf(env, program);
    var vm := StartVm(machineGlobals);
    if fuel: nat :| !EvalProgram(env.h, fuel, program, StartState(env.cmds, globals)).status.Timeout? {
      CompilerCorrect(env, program, fuel, globals, machineGlobals);
    }
    if o :| Reaches(m, vm, o) && !o.Running? {
      var n := StepsTo(m, vm, o);
      CompilerCorrect(env, program, n, globals, machineGlobals);
      assert !Runs(m, n, vm);
    }
  }

  lemma StepsTo(m: Image, vm: Vm, o: Outcome) returns (n: nat)
    requires Reaches(m, vm, o) && !o.Running?
    ensures !Runs(m, n, vm)
  {
    n :| StepN(m, n, vm) == o;
  }
}
