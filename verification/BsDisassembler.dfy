/** bs_chunk_disassemble and what its listing is worth on compiled programs. */
module BsDisassembler {
  import opened BsAst
  import opened BsValue
  import opened BsScopes
  import opened BsBytecode
  import opened BsVm
  import opened BsCodegen
  import opened BsWellFormed
  import opened BsHeights
  import opened BsSimExpr
  import opened BsDiscipline
  import opened BsStackSafety
  import opened BsCorrectness
  import opened BsProgramSafety
  import opened BsSweep

  /** One line of the listing; jumps are listed with their target, constant operands with the constant. */
  datatype Line = Line(offset: nat, instr: Instr, target: Option<int>, constant: Option<Value>)

  function TargetOf(i: Instr, offset: nat): Option<int> {
    if i.Jump? || i.JumpIfFalse? then Some(offset + 3 + i.distance)
    else if i.Loop? then Some(offset + 3 - i.distance)
    else None
  }

  function ConstantOf(m: Image, i: Instr): Option<Value>
    requires ConstantsInRange(m, i)
  {
    if i.Constant? || i.DefineGlobal? || i.GetGlobal? || i.SetGlobal? || i.CallCommand? then Some(m.consts[i.index])
    else None
  }

  predicate ReadableAt(m: Image, k: nat) {
    var f := Fetch(m.code, k);
    f.Fetched? && ConstantsInRange(m, f.instr)
  }

  /** The sweep from 0 ends at the end of the chunk, and every constant it names exists. */
  ghost predicate Listable(m: Image) {
    && Sweeps(m.code, 0, |m.code|)
    && forall k: nat :: k < |m.code| && Sweeps(m.code, 0, k) ==> ReadableAt(m, k)
  }

  /** The listing holds the starts before "offset", each once, in order, with what is executed there. */
  ghost predicate Lists(m: Image, lines: seq<Line>, offset: nat) {
    && (forall i, j :: 0 <= i < j < |lines| ==> lines[i].offset < lines[j].offset)
    && (forall i :: 0 <= i < |lines| ==> IsLine(m, lines[i]) && lines[i].offset < offset)
    && (forall k: nat :: k < offset && Sweeps(m.code, 0, k) ==> exists i :: 0 <= i < |lines| && lines[i].offset == k)
  }

  ghost predicate IsLine(m: Image, line: Line) {
    && Sweeps(m.code, 0, line.offset)
    && ReadableAt(m, line.offset)
    && line.instr == Fetch(m.code, line.offset).instr
    && line.target == TargetOf(line.instr, line.offset)
    && line.constant == ConstantOf(m, line.instr)
  }

  lemma NextStart(code: seq<byte>, k: nat)
    requires Sweeps(code, 0, k) && k < |code| && Sweeps(code, 0, |code|)
    ensures Fetch(code, k).Fetched? && k < Fetch(code, k).next <= |code|
    ensures Sweeps(code, 0, Fetch(code, k).next)
    ensures forall j :: k < j < Fetch(code, k).next ==> !Sweeps(code, 0, j)
  {
    SweepThrough(code, 0, k, |code|);
    var next := Fetch(code, k).next;
    SweepThrough(code, 0, k, next);
    SweepNothing(code, next);
    forall j | k < j < next ensures !Sweeps(code, 0, j) {
      SweepThrough(code, 0, k, j);
    }
  }

  /** The loop of bs_chunk_disassemble.  It lists every instruction the sweep meets and nothing else. */
  method Disassemble(m: Image) returns (lines: seq<Line>)
    requires Listable(m)
    ensures Lists(m, lines, |m.code|)
  {
    hide Sweeps;
    lines := [];
    var offset := 0;
    SweepNothing(m.code, 0);
    while offset < |m.code|
      invariant offset <= |m.code| && Sweeps(m.code, 0, offset)
      invariant Lists(m, lines, offset)
    {
      NextStart(m.code, offset);
      assert ReadableAt(m, offset);
      var f := Fetch(m.code, offset);
      ghost var before := lines;
      lines := lines + [Line(offset, f.instr, TargetOf(f.instr, offset), ConstantOf(m, f.instr))];
      forall k: nat | k < f.next && Sweeps(m.code, 0, k) ensures exists i :: 0 <= i < |lines| && lines[i].offset == k {
        if k < offset {
          var i :| 0 <= i < |before| && before[i].offset == k;
          assert lines[i].offset == k;
        } else {
          assert lines[|before|].offset == k;
        }
      }
      offset := f.next;
    }
  }

  // ----- Compiled programs -----

  /** The sweep over a compiled program meets exactly the starts of its instructions and ends at its end. */
  lemma ProgramSweep(env: Env, program: Node, k: nat)
    requires Compilable(env, program) && k <= SizeProgram(env.cmds, program)
    ensures var code := ImageOf(env, program).code;
      && (Sweeps(code, 0, k) <==> ProgramPoint(env.cmds, program, k).Start?)
      && Sweeps(code, 0, |code|)
  {
    hide CompileProgram, WfProgram, NeedProgram, SizeProgram, ProgramPoint, Sweeps, CodeAt, Encode;
    var m := ImageOf(env, program);
    var size := SizeProgram(env.cmds, program);
    ProgramPlaced(env, program);
    BodySweep(env, program, k);
    BodySweep(env, program, size);
    ProgramEnds(env.cmds, program);
    HaltSize();
    ThenOne(m.code, 0, size, Halt, |m.code|);
  }

  lemma BodySweep(env: Env, program: Node, k: nat)
    requires Compilable(env, program) && k <= SizeProgram(env.cmds, program)
    ensures Sweeps(ImageOf(env, program).code, 0, k) <==> ProgramPoint(env.cmds, program, k).Start?
  {
    hide CompileProgram, CompileStmts, CompileStmt, WfStmts, WfStmt, NeedStmts, NeedStmt, SizeStmt, SizeStmts,
         StmtPoint, StmtsPoint, Sweeps, CodeAt, Encode;
    var m := ImageOf(env, program);
    ProgramPlaced(env, program);
    assert EnvOf(m) == env;
    if program.Block? { StmtsSweep(m, [], 0, [], program.stmts, 0, k); } else { StmtSweep(m, [], 0, [], program, 0, k); }
  }

  lemma ProgramEnds(cmds: Registry, program: Node)
    requires WfProgram(program)
    ensures ProgramPoint(cmds, program, SizeProgram(cmds, program)).Start?
  {
    hide SizeStmt, SizeStmts, StmtPoint, StmtsPoint, WfStmt, WfStmts;
    if program.Block? { PointsEnds(cmds, program.stmts, 0, 0); } else { PointEnds(cmds, program, 0, 0); }
  }

  lemma HaltSize()
    ensures |Encode(Halt)| == 1
  {
  }

  /** Some machine state stands at a given start, with null on top of the stack if anything is there. */
  lemma Standing(cmds: Registry, program: Node, k: nat) returns (vm: Vm)
    requires k <= SizeProgram(cmds, program) && ProgramPoint(cmds, program, k).Start?
    ensures AtProgram(cmds, program, vm) && vm.ip == k
    ensures |vm.stack| == ProgramPoint(cmds, program, k).height && Top(vm.stack) == Null
  {
    hide ProgramPoint, SizeProgram;
    vm := Vm(k, seq(ProgramPoint(cmds, program, k).height, i => Null), map[], "");
  }

  /** Every constant operand and every jump target of a compiled program is in place: the targets are again
      starts of instructions. */
  lemma TargetsAreStarts(env: Env, program: Node, k: nat)
    requires Compilable(env, program)
    requires var m := ImageOf(env, program); k < |m.code| && Sweeps(m.code, 0, k)
    ensures var m := ImageOf(env, program);
      var f := Fetch(m.code, k);
      && f.Fetched?
      && ConstantsInRange(m, f.instr)
      && match TargetOf(f.instr, k)
         case Some(t) => 0 <= t < |m.code| && Sweeps(m.code, 0, t)
         case None => true
  {
    hide CompileProgram, WfProgram, NeedProgram, ProgramPoint, SizeProgram, Sweeps;
    var m := ImageOf(env, program);
    ProgramPlaced(env, program);
    HaltSize();
    ProgramSweep(env, program, k);
    var vm := Standing(env.cmds, program, k);
    ProgramStep(env, program, vm);
    var f := Fetch(m.code, k);
    var target := TargetOf(f.instr, k);
    if target.Some? {
      assert Step(m, vm) == Running(vm.(ip := target.value));
      ProgramSweep(env, program, target.value);
    }
  }

  /** Disassembling a compiled program is safe and lists exactly its instructions. */
  lemma ProgramsAreListable(env: Env, program: Node)
    requires Compilable(env, program)
    ensures Listable(ImageOf(env, program))
  {
    hide CompileProgram, WfProgram, NeedProgram, SizeProgram, Sweeps, Fetch;
    var m := ImageOf(env, program);
    ProgramSweep(env, program, 0);
    forall k: nat | k < |m.code| && Sweeps(m.code, 0, k) ensures ReadableAt(m, k) {
      TargetsAreStarts(env, program, k);
    }
  }
}
