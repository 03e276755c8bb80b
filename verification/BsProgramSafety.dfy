/** Whole programs on the machine: the stack discipline holds in every state of every run, so the
    machine of BsMachine never leaves its arrays; and compiler and machine together do what the
    interpreter does. */
module BsProgramSafety {
  import opened BsAst
  import opened BsValue
  import opened BsScopes
  import opened BsInterpreter
  import opened BsBytecode
  import opened BsVm
  import opened BsCodegen
  import opened BsSlots
  import opened BsWellFormed
  import opened BsHeights
  import opened BsSimExpr
  import opened BsSimStmt
  import opened BsDiscipline
  import opened BsStackSafety
  import opened BsCorrectness
  import opened BsRuntime
  import opened BsCompiler
  import opened BsMachine

  predicate AtProgram(cmds: Registry, program: Node, vm: Vm) {
    vm.ip <= SizeProgram(cmds, program) && Fits(ProgramPoint(cmds, program, vm.ip), 0, |vm.stack|)
  }

  ghost predicate ProgramGoes(m: Image, program: Node, vm: Vm) {
    && Disciplined(m, vm, Loose(ProgramPoint(m.cmds, program, vm.ip)))
    && !Step(m, vm).Unsafe?
    && (Step(m, vm).Running? ==> AtProgram(m.cmds, program, Step(m, vm).vm))
  }

  lemma HaltStep(m: Image, vm: Vm)
    requires CodeAt(m.code, vm.ip, Encode(Halt)) && |vm.stack| <= MAX_STACK
    ensures Disciplined(m, vm, false) && Step(m, vm).Halted?
  {
    FetchEncode(m.code, vm.ip, Halt);
  }

  /** Where the code of a whole program stands. */
  lemma ProgramPlaced(env: Env, program: Node)
    requires Compilable(env, program)
    ensures var m := ImageOf(env, program);
      && CodeAt(m.code, SizeProgram(env.cmds, program), Encode(Halt))
      && |m.code| == SizeProgram(env.cmds, program) + 1
      && if program.Block? then PlacedStmt(m, CompileStmts(env, [], 0, [], program.stmts), 0)
         else PlacedStmt(m, CompileStmt(env, [], 0, [], program), 0)
  {
    hide CompileStmts, CompileStmt, WfStmts, WfStmt, NeedStmts, NeedStmt, SizeStmt, SizeStmts;
    var m := ImageOf(env, program);
    var c := if program.Block? then CompileStmts(env, [], 0, [], program.stmts) else CompileStmt(env, [], 0, [], program);
    assert m.code == c.code + Encode(Halt) && CodeAt(m.code, 0, c.code + Encode(Halt));
    CodeAtSplit(m.code, 0, c.code, Encode(Halt));
    if program.Block? { SizeOfStmts(env, [], 0, [], program.stmts); } else { SizeOfStmt(env, [], 0, [], program); }
  }

  lemma ProgramStep(env: Env, program: Node, vm: Vm)
    requires Compilable(env, program) && AtProgram(env.cmds, program, vm)
    ensures ProgramGoes(ImageOf(env, program), program, vm)
  {
    hide CompileProgram, CompileStmts, CompileStmt, WfStmts, WfStmt, NeedStmts, NeedStmt, SizeStmt, SizeStmts,
         StmtPoint, StmtsPoint, Step, Disciplined, CodeAt;
    var m := ImageOf(env, program);
    ProgramPlaced(env, program);
    assert EnvOf(m) == env;
    if vm.ip == SizeProgram(env.cmds, program) {
      if program.Block? { PointsEnds(env.cmds, program.stmts, 0, 0); } else { PointEnds(env.cmds, program, 0, 0); }
      HaltStep(m, vm);
    } else if program.Block? {
      StmtsStep(m, [], 0, [], program.stmts, 0, vm);
    } else {
      StmtStep(m, [], 0, [], program, 0, vm);
    }
  }

  /** What holds in every state of a run from vm. */
  ghost predicate KeepsDiscipline(m: Image, program: Node, o: Outcome) {
    && !o.Unsafe?
    && (o.Running? ==>
          && AtProgram(m.cmds, program, o.vm)
          && Disciplined(m, o.vm, Loose(ProgramPoint(m.cmds, program, o.vm.ip))))
  }

  lemma {:induction false} RunKeepsDiscipline(env: Env, program: Node, vm: Vm, n: nat)
    requires Compilable(env, program) && AtProgram(env.cmds, program, vm)
    ensures KeepsDiscipline(ImageOf(env, program), program, StepN(ImageOf(env, program), n, vm))
    decreases n
  {
    hide CompileProgram, WfProgram, NeedProgram, AtProgram, Step, Disciplined, ProgramPoint;
    ProgramStep(env, program, vm);
    if n > 0 {
      var o := Step(ImageOf(env, program), vm);
      if o.Running? { RunKeepsDiscipline(env, program, o.vm, n - 1); }
    }
  }

  /** Stack discipline: after any number of steps of any run of a well-formed program, whatever the types of
      its operands, the machine has stopped or stands at the start of an instruction with exactly as many
      values on the stack as the tree says; what that instruction pops and looks at is there, what it
      pushes fits, and its constant exists.  The one exception is the ignored pop at the end of an if
      without else. */
  lemma StackDiscipline(env: Env, program: Node, globals: Scope, n: nat)
    requires Compilable(env, program)
    ensures KeepsDiscipline(ImageOf(env, program), program, StepN(ImageOf(env, program), n, StartVm(globals)))
  {
    hide CompileProgram, Disciplined, StmtPoint, StmtsPoint, WfStmt, WfStmts, Step, StepN;
    if program.Block? { PointsEnds(env.cmds, program.stmts, 0, 0); } else { PointEnds(env.cmds, program, 0, 0); }
    RunKeepsDiscipline(env, program, StartVm(globals), n);
  }

  /** The two classes together: compile, then run for at most "turns" turns.  The machine never leaves its
      arrays, and when it stops, it has done what the interpreter does on every clean run that ends. */
  method CompileAndRun(env: Env, program: Node, runtime: Runtime, turns: nat) returns (p: Progress)
    requires Compilable(env, program)
    requires |runtime.envs| == 1 && runtime.h == env.h && runtime.cmds == env.cmds && runtime.out == ""
    modifies runtime
    ensures |runtime.envs| == 1
    ensures p != Going ==>
      forall fuel: nat, globals: Scope :: AgreesWith(env, program, fuel, globals, old(ScopeOf(runtime.envs[0])),
                                                     p, runtime.out, ScopeOf(runtime.envs[0]))
  {
    hide CompileProgram, StepN, Fetch, Exec, EvalProgram, WfProgram, NeedProgram, KeepsDiscipline, AgreesWith;
    var chunk := new Chunk();
    var compiler := new Compiler(chunk, env);
    var ok := compiler.EmitProgram(program);
    var m := Image(env.h, env.cmds, chunk.code[..chunk.count], chunk.constants[..chunk.constCount]);
    ghost var start := StartVm(ScopeOf(runtime.envs[0]));
    assert m == ImageOf(env, program);
    var machine := new Machine(m, runtime);
    SafeRun(env, program, ScopeOf(runtime.envs[0]), turns);
    p := machine.Run(turns);
    if p != Going {
      forall fuel: nat, globals: Scope
        ensures AgreesWith(env, program, fuel, globals, start.globals, p, runtime.out, ScopeOf(runtime.envs[0]))
      {
        StopsAsInterpreted(env, program, fuel, globals, start, turns, OutcomeOf(p, machine.Now()), p);
      }
    }
  }

  lemma SafeRun(env: Env, program: Node, globals: Scope, n: nat)
    requires Compilable(env, program)
    ensures !StepN(ImageOf(env, program), n, StartVm(globals)).Unsafe?
  {
    hide WfProgram, NeedProgram, CompileProgram, StepN, Disciplined, AtProgram;
    StackDiscipline(env, program, globals, n);
  }

  /** A clean interpreter run that ends, ends as the machine did. */
  ghost predicate AgreesWith(env: Env, program: Node, fuel: nat, globals: Scope, machineGlobals: Scope,
                             p: Progress, out: string, endGlobals: Scope)
  {
    var r := EvalProgram(env.h, fuel, program, StartState(env.cmds, globals));
    GlobalsAgree(globals, machineGlobals) && r.st.clean && !r.status.Timeout? ==>
      && (p == Stopped <==> r.status.Ok?)
      && (p == RuntimeError <==> r.status.Error?)
      && out == r.st.out
      && |r.st.scopes| == 1 && GlobalsAgree(r.st.scopes[0], endGlobals)
  }

  lemma StopsAsInterpreted(env: Env, program: Node, fuel: nat, globals: Scope, start: Vm, n: nat, o: Outcome, p: Progress)
    requires Compilable(env, program) && start == StartVm(start.globals)
    requires StepN(ImageOf(env, program), n, start) == o && !o.Running? && !o.Unsafe? && o == OutcomeOf(p, o.vm)
    ensures AgreesWith(env, program, fuel, globals, start.globals, p, o.vm.out, o.vm.globals)
  {
    hide WfProgram, NeedProgram, CompileProgram, StepN, EvalProgram, GlobalsAgree;
    var m := ImageOf(env, program);
    var r := EvalProgram(env.h, fuel, program, StartState(env.cmds, globals));
    if GlobalsAgree(globals, start.globals) && r.st.clean && !r.status.Timeout? {
      CompilerCorrect(env, program, fuel, globals, start.globals);
      assert Reaches(m, start, o);
    }
  }
}
