/** The loop machine of the framework (hosc_framework.c, execute_program): flat code with begin and end
    instructions that name each other, and one counter per instruction.  It runs code that was flattened
    from nested repetitions exactly as the nesting says. */
module FwLoops {
  const MAX_INSTRUCTIONS: nat := 2048

  /** What the parser builds.  Every statement but a loop is an action; a count that is not positive means
      forever. */
  datatype Item = Action(id: nat) | Repeat(count: int, sleep: int, body: seq<Item>)

  /** The instructions; an end names its begin and a begin its end (jump_index). */
  datatype Instr = Act(id: nat) | LoopBegin(count: int, sleep: int, end: int) | LoopEnd(begin: int)

  /** What a run does, in order: actions, polls for events at the start of a round, pauses between rounds. */
  datatype Event = Did(id: nat) | Polled | Paused(ms: int)

  // ----- The flat machine -----

  datatype State = State(pc: nat, remaining: seq<int>, trace: seq<Event>)
  datatype Outcome = Running(s: State) | BadTarget | Skipped(s: State)

  const FRESH: int := -1
  const FOREVER: int := -2

  function SleepOf(i: Instr): int { if i.LoopBegin? then i.sleep else 0 }

  /** One turn of the loop of execute_program, without a request to quit.  Skipped is the branch of a begin
      whose counter is 0. */
  function Step(code: seq<Instr>, s: State): Outcome
    requires s.pc < |code| && |s.remaining| == |code|
  {
    match code[s.pc]
    case Act(id) => Running(s.(pc := s.pc + 1, trace := s.trace + [Did(id)]))
    case LoopBegin(count, _, end) =>
      var r := if s.remaining[s.pc] != FRESH then s.remaining[s.pc] else if count <= 0 then FOREVER else count;
      if r == 0 then
        if end + 1 < 0 then BadTarget
        else Skipped(s.(pc := end + 1, remaining := s.remaining[s.pc := FRESH]))
      else
        Running(s.(pc := s.pc + 1, remaining := s.remaining[s.pc := r], trace := s.trace + [Polled]))
    case LoopEnd(begin) =>
      if begin < 0 || begin >= |code| then BadTarget
      else
        var r := s.remaining[begin];
        if r == FOREVER then Running(s.(pc := begin, trace := s.trace + [Paused(SleepOf(code[begin]))]))
        else if r > 1 then
          Running(s.(pc := begin, remaining := s.remaining[begin := r - 1],
                     trace := s.trace + [Paused(SleepOf(code[begin]))]))
        else Running(s.(pc := s.pc + 1, remaining := s.remaining[begin := FRESH]))
  }

  /** n turns, or fewer when the end is reached. */
  function StepN(code: seq<Instr>, n: nat, s: State): Outcome
    requires |s.remaining| == |code|
    decreases n
  {
    if n == 0 || s.pc >= |code| then Running(s)
    else
      match Step(code, s)
      case Running(s1) => StepN(code, n - 1, s1)
      case BadTarget => BadTarget
      case Skipped(s1) => Skipped(s1)
  }

  ghost predicate Reaches(code: seq<Instr>, s: State, t: State)
    requires |s.remaining| == |code|
  {
    exists n: nat :: StepN(code, n, s) == Running(t)
  }

  lemma {:induction false} StepNPlus(code: seq<Instr>, a: nat, b: nat, s: State, t: State)
    requires |s.remaining| == |code| && StepN(code, a, s) == Running(t)
    ensures |t.remaining| == |code|
    ensures StepN(code, a + b, s) == StepN(code, b, t)
    decreases a
  {
    if a > 0 && s.pc < |code| {
      var s1 := Step(code, s).s;
      StepNPlus(code, a - 1, b, s1, t);
    }
  }

  lemma ReachesSelf(code: seq<Instr>, s: State)
    requires |s.remaining| == |code|
    ensures Reaches(code, s, s)
  {
    assert StepN(code, 0, s) == Running(s);
  }

  lemma ReachesTrans(code: seq<Instr>, s: State, t: State, u: State)
    requires |s.remaining| == |code| == |t.remaining| && Reaches(code, s, t) && Reaches(code, t, u)
    ensures Reaches(code, s, u)
  {
    var a: nat :| StepN(code, a, s) == Running(t);
    var b: nat :| StepN(code, b, t) == Running(u);
    StepNPlus(code, a, b, s, t);
  }

  lemma ReachesStep(code: seq<Instr>, s: State, t: State)
    requires |s.remaining| == |code| && s.pc < |code| && Step(code, s) == Running(t)
    ensures |t.remaining| == |code| && Reaches(code, s, t)
  {
    assert StepN(code, 0, t) == Running(t);
    assert StepN(code, 1, s) == Running(t);
  }

  // ----- Nested repetition -----

  /** What a nested program does when a loop without end is given m rounds: the events, and whether the program
      came to its end or was left in such a loop. */
  function Run(items: seq<Item>, m: nat): (seq<Event>, bool)
    decreases items
  {
    if items == [] then ([], true)
    else
      var first := RunItem(items[0], m);
      if !first.1 then first
      else
        var rest := Run(items[1..], m);
        (first.0 + rest.0, rest.1)
  }

  function RunItem(item: Item, m: nat): (seq<Event>, bool)
    decreases item
  {
    match item
    case Action(id) => ([Did(id)], true)
    case Repeat(count, sleep, body) =>
      if count <= 0 then Forever(Run(body, m), sleep, m) else Times(Run(body, m), sleep, count)
  }

  /** k rounds: a poll and the body, with a pause between two rounds. */
  function Times(round: (seq<Event>, bool), sleep: int, k: nat): (seq<Event>, bool)
    requires k > 0
  {
    var once := [Polled] + round.0;
    if !round.1 || k == 1 then (once, round.1)
    else
      var rest := Times(round, sleep, k - 1);
      (once + ([Paused(sleep)] + rest.0), rest.1)
  }

  /** m rounds of a loop that never ends. */
  function Forever(round: (seq<Event>, bool), sleep: int, m: nat): (seq<Event>, bool) {
    if m == 0 then ([], false)
    else
      var once := [Polled] + round.0;
      if !round.1 then (once, false) else (once + ([Paused(sleep)] + Forever(round, sleep, m - 1).0), false)
  }

  predicate AllFinite(items: seq<Item>)
    decreases items
  {
    items == [] || (Finite(items[0]) && AllFinite(items[1..]))
  }

  predicate Finite(item: Item)
    decreases item
  {
    item.Action? || (item.count > 0 && AllFinite(item.body))
  }

  lemma {:induction false} FiniteEnds(items: seq<Item>, m: nat)
    requires AllFinite(items)
    ensures Run(items, m).1
    decreases items
  {
    if items != [] {
      FiniteItemEnds(items[0], m);
      FiniteEnds(items[1..], m);
    }
  }

  lemma {:induction false} FiniteItemEnds(item: Item, m: nat)
    requires Finite(item)
    ensures RunItem(item, m).1
    decreases item
  {
    if item.Repeat? {
      FiniteEnds(item.body, m);
      TimesEnds(Run(item.body, m), item.sleep, item.count);
    }
  }

  lemma {:induction false} TimesEnds(round: (seq<Event>, bool), sleep: int, k: nat)
    requires k > 0 && round.1
    ensures Times(round, sleep, k).1
  {
    if k > 1 { TimesEnds(round, sleep, k - 1); }
  }

  // ----- Flattening -----

  /** The flat form of a nested program whose first instruction stands at base. */
  function Flat(items: seq<Item>, base: nat): seq<Instr>
    decreases items
  {
    if items == [] then []
    else
      var first := FlatItem(items[0], base);
      first + Flat(items[1..], base + |first|)
  }

  function FlatItem(item: Item, base: nat): (r: seq<Instr>)
    ensures r != []
    decreases item
  {
    match item
    case Action(id) => [Act(id)]
    case Repeat(count, sleep, body) =>
      var inner := Flat(body, base + 1);
      [LoopBegin(count, sleep, base + 1 + |inner|)] + (inner + [LoopEnd(base)])
  }

  /** part stands in code at "at". */
  predicate CodeAt(code: seq<Instr>, at: nat, part: seq<Instr>) {
    at + |part| <= |code| && code[at..at + |part|] == part
  }

  lemma CodeAtSplit(code: seq<Instr>, at: nat, a: seq<Instr>, b: seq<Instr>)
    requires CodeAt(code, at, a + b)
    ensures CodeAt(code, at, a) && CodeAt(code, at + |a|, b)
  {
    assert code[at..at + |a|] == (a + b)[..|a|];
    assert code[at + |a|..at + |a| + |b|] == (a + b)[|a|..];
  }

  lemma CodeAtOne(code: seq<Instr>, at: nat, i: Instr)
    requires CodeAt(code, at, [i])
    ensures at < |code| && code[at] == i
  {
    assert code[at] == code[at..at + 1][0];
  }

  /** Where the parts of a loop stand. */
  lemma LoopLayout(code: seq<Instr>, at: nat, item: Item)
    requires item.Repeat? && CodeAt(code, at, FlatItem(item, at))
    ensures var n := |Flat(item.body, at + 1)|;
      && |FlatItem(item, at)| == n + 2
      && at + 1 + n < |code|
      && code[at] == LoopBegin(item.count, item.sleep, at + 1 + n)
      && CodeAt(code, at + 1, Flat(item.body, at + 1))
      && code[at + 1 + n] == LoopEnd(at)
  {
    hide CodeAt, Flat;
    var inner := Flat(item.body, at + 1);
    var begin := LoopBegin(item.count, item.sleep, at + 1 + |inner|);
    CodeAtSplit(code, at, [begin], inner + [LoopEnd(at)]);
    CodeAtSplit(code, at + 1, inner, [LoopEnd(at)]);
    CodeAtOne(code, at, begin);
    CodeAtOne(code, at + 1 + |inner|, LoopEnd(at));
  }

  // ----- The flat machine does what the nesting says -----

  /** No loop in the stretch is under way. */
  predicate Idle(remaining: seq<int>, at: nat, n: nat) {
    at + n <= |remaining| && forall i :: at <= i < at + n ==> remaining[i] == FRESH
  }

  /** From s the machine does the events of r: to the end of the stretch with all counters as before, or, when
      r was left in a loop without end, to some turn of that loop. */
  ghost predicate Follows(code: seq<Instr>, s: State, n: nat, r: (seq<Event>, bool), t: State)
    requires |s.remaining| == |code|
  {
    && Reaches(code, s, t)
    && t.trace == s.trace + r.0
    && |t.remaining| == |code|
    && (r.1 ==> t.pc == s.pc + n && t.remaining == s.remaining)
  }

  lemma {:induction false} RunFollows(code: seq<Instr>, items: seq<Item>, m: nat, s: State) returns (t: State)
    requires |s.remaining| == |code| && CodeAt(code, s.pc, Flat(items, s.pc))
    requires Idle(s.remaining, s.pc, |Flat(items, s.pc)|)
    ensures Follows(code, s, |Flat(items, s.pc)|, Run(items, m), t)
    decreases items
  {
    hide Reaches, CodeAt, RunItem, FlatItem;
    t := s;
    if items == [] {
      ReachesSelf(code, s);
    } else {
      var first := FlatItem(items[0], s.pc);
      CodeAtSplit(code, s.pc, first, Flat(items[1..], s.pc + |first|));
      t := ItemFollows(code, items[0], m, s);
      if RunItem(items[0], m).1 {
        var u := RunFollows(code, items[1..], m, t);
        ReachesTrans(code, s, t, u);
        assert u.trace == s.trace + (RunItem(items[0], m).0 + Run(items[1..], m).0);
        t := u;
      }
    }
  }

  lemma {:induction false} ItemFollows(code: seq<Instr>, item: Item, m: nat, s: State) returns (t: State)
    requires |s.remaining| == |code| && CodeAt(code, s.pc, FlatItem(item, s.pc))
    requires Idle(s.remaining, s.pc, |FlatItem(item, s.pc)|)
    ensures Follows(code, s, |FlatItem(item, s.pc)|, RunItem(item, m), t)
    decreases item
  {
    hide Reaches, CodeAt;
    if item.Action? {
      CodeAtOne(code, s.pc, Act(item.id));
      t := s.(pc := s.pc + 1, trace := s.trace + [Did(item.id)]);
      ReachesStep(code, s, t);
    } else {
      LoopLayout(code, s.pc, item);
      if item.count <= 0 {
        t := ForeverFollows(code, item, m, m, s);
      } else {
        t := TimesFollows(code, item, m, item.count, s, s.remaining);
      }
    }
  }

  /** The machine is at the begin of the loop with k rounds left to do. */
  lemma {:induction false} TimesFollows(code: seq<Instr>, item: Item, m: nat, k: nat, s: State, before: seq<int>)
    returns (t: State)
    requires item.Repeat? && 0 < k <= item.count && |s.remaining| == |code| == |before|
    requires CodeAt(code, s.pc, FlatItem(item, s.pc)) && s.pc < |code|
    requires Idle(before, s.pc, |FlatItem(item, s.pc)|)
    requires s.remaining == before[s.pc := s.remaining[s.pc]]
    requires s.remaining[s.pc] == k || (s.remaining[s.pc] == FRESH && k == item.count)
    ensures var r := Times(Run(item.body, m), item.sleep, k);
      && Reaches(code, s, t) && t.trace == s.trace + r.0 && |t.remaining| == |code|
      && (r.1 ==> t.pc == s.pc + |FlatItem(item, s.pc)| && t.remaining == before)
    decreases item, k
  {
    hide Reaches, CodeAt, Run;
    LoopLayout(code, s.pc, item);
    var n := |Flat(item.body, s.pc + 1)|;
    var entered := s.(pc := s.pc + 1, remaining := before[s.pc := k], trace := s.trace + [Polled]);
    ReachesStep(code, s, entered);
    var round := Run(item.body, m);
    var after := RunFollows(code, item.body, m, entered);
    ReachesTrans(code, s, entered, after);
    assert after.trace == s.trace + ([Polled] + round.0);
    t := after;
    if round.1 {
      if k == 1 {
        t := after.(pc := after.pc + 1, remaining := before);
        assert before[s.pc := k][s.pc := FRESH] == before;
        ReachesStep(code, after, t);
        ReachesTrans(code, s, after, t);
      } else {
        var again := after.(pc := s.pc, remaining := before[s.pc := k - 1], trace := after.trace + [Paused(item.sleep)]);
        assert before[s.pc := k][s.pc := k - 1] == before[s.pc := k - 1];
        ReachesStep(code, after, again);
        ReachesTrans(code, s, after, again);
        t := TimesFollows(code, item, m, k - 1, again, before);
        ReachesTrans(code, s, again, t);
        var rest := Times(round, item.sleep, k - 1).0;
        assert t.trace == s.trace + ([Polled] + round.0 + ([Paused(item.sleep)] + rest));
      }
    }
  }

  /** The machine is at the begin of a loop without end. */
  lemma {:induction false} ForeverFollows(code: seq<Instr>, item: Item, m: nat, k: nat, s: State) returns (t: State)
    requires item.Repeat? && item.count <= 0 && |s.remaining| == |code|
    requires CodeAt(code, s.pc, FlatItem(item, s.pc)) && s.pc < |code|
    requires s.remaining[s.pc] == FRESH || s.remaining[s.pc] == FOREVER
    requires Idle(s.remaining, s.pc + 1, |Flat(item.body, s.pc + 1)|)
    ensures var r := Forever(Run(item.body, m), item.sleep, k);
      Reaches(code, s, t) && t.trace == s.trace + r.0 && |t.remaining| == |code|
    decreases item, k
  {
    hide Reaches, CodeAt, Run;
    t := s;
    if k == 0 {
      ReachesSelf(code, s);
    } else {
      LoopLayout(code, s.pc, item);
      var entered := s.(pc := s.pc + 1, remaining := s.remaining[s.pc := FOREVER], trace := s.trace + [Polled]);
      ReachesStep(code, s, entered);
      var round := Run(item.body, m);
      var after := RunFollows(code, item.body, m, entered);
      ReachesTrans(code, s, entered, after);
      assert after.trace == s.trace + ([Polled] + round.0);
      t := after;
      if round.1 {
        var again := after.(pc := s.pc, trace := after.trace + [Paused(item.sleep)]);
        ReachesStep(code, after, again);
        ReachesTrans(code, s, after, again);
        t := ForeverFollows(code, item, m, k - 1, again);
        ReachesTrans(code, s, again, t);
        var rest := Forever(round, item.sleep, k - 1).0;
        assert t.trace == s.trace + ([Polled] + round.0 + ([Paused(item.sleep)] + rest));
      }
    }
  }

  // ----- Links -----

  /** The other end of the loop at i lies between lo and hi and names i. */
  predicate LinkedIn(code: seq<Instr>, lo: int, hi: int, i: nat)
    requires i < |code|
  {
    match code[i]
    case Act(_) => true
    case LoopBegin(_, _, end) => lo <= i < end < hi && end < |code| && code[end] == LoopEnd(i)
    case LoopEnd(begin) => 0 <= begin < i && lo <= begin && i < hi && code[begin].LoopBegin? && code[begin].end == i
  }

  /** Loops inside a loop end inside it. */
  predicate NestedAt(code: seq<Instr>, i: nat)
    requires i < |code|
  {
    code[i].LoopBegin? ==> forall j :: i < j < code[i].end && j < |code| ==> InsideLoop(code, i, j)
  }

  /** The other end of the loop at j lies inside the loop at i. */
  predicate InsideLoop(code: seq<Instr>, i: nat, j: nat)
    requires i < |code| && j < |code| && code[i].LoopBegin?
  {
    LinkedIn(code, i + 1, code[i].end, j)
  }

  lemma {:induction false} FlatIsLinked(code: seq<Instr>, items: seq<Item>, at: nat, i: nat)
    requires CodeAt(code, at, Flat(items, at)) && at <= i < at + |Flat(items, at)|
    ensures i < |code| && LinkedIn(code, at, at + |Flat(items, at)|, i) && NestedAt(code, i)
    decreases items
  {
    hide CodeAt, FlatItem, LinkedIn, NestedAt;
    var first := FlatItem(items[0], at);
    var mid := at + |first|;
    CodeAtSplit(code, at, first, Flat(items[1..], mid));
    var end := at + |Flat(items, at)|;
    if i < mid {
      ItemIsLinked(code, items[0], at, i);
      LinkedWider(code, at, mid, at, end, i);
    } else {
      FlatIsLinked(code, items[1..], mid, i);
      LinkedWider(code, mid, end, at, end, i);
    }
  }

  lemma LinkedWider(code: seq<Instr>, lo: int, hi: int, lo1: int, hi1: int, i: nat)
    requires i < |code| && LinkedIn(code, lo, hi, i) && lo1 <= lo && hi <= hi1
    ensures LinkedIn(code, lo1, hi1, i)
  {
  }

  lemma {:induction false} ItemIsLinked(code: seq<Instr>, item: Item, at: nat, i: nat)
    requires CodeAt(code, at, FlatItem(item, at)) && at <= i < at + |FlatItem(item, at)|
    ensures i < |code| && LinkedIn(code, at, at + |FlatItem(item, at)|, i) && NestedAt(code, i)
    decreases item
  {
    if item.Action? {
      CodeAtOne(code, at, Act(item.id));
    } else {
      LoopLayout(code, at, item);
      hide CodeAt, Flat;
      var last := at + 1 + |Flat(item.body, at + 1)|;
      if at < i < last {
        FlatIsLinked(code, item.body, at + 1, i);
        LinkedWider(code, at + 1, last, at, last + 1, i);
      } else if i == at {
        forall j | at < j < last && j < |code| ensures InsideLoop(code, at, j) {
          FlatIsLinked(code, item.body, at + 1, j);
        }
      }
    }
  }

  predicate WellLinked(code: seq<Instr>) {
    forall i :: 0 <= i < |code| ==> LinkedIn(code, 0, |code|, i) && NestedAt(code, i)
  }

  /** In a whole flattened program begins and ends name each other and loops are properly nested. */
  lemma ProgramIsLinked(items: seq<Item>)
    ensures WellLinked(Flat(items, 0))
  {
    var code := Flat(items, 0);
    assert code[0..|code|] == code;
    forall i | 0 <= i < |code| ensures LinkedIn(code, 0, |code|, i) && NestedAt(code, i) {
      FlatIsLinked(code, items, 0, i);
    }
  }

  // ----- No run leaves the program or skips a loop -----

  /** A counter is unused, marks a loop without end, or says how many rounds are left, the current one included. */
  predicate CounterOk(i: Instr, r: int) {
    r == FRESH || (i.LoopBegin? && if i.count <= 0 then r == FOREVER else 1 <= r <= i.count)
  }

  predicate Counted(code: seq<Instr>, s: State) {
    |s.remaining| == |code| && s.pc <= |code| && forall i :: 0 <= i < |code| ==> CounterOk(code[i], s.remaining[i])
  }

  lemma StepKeepsCounted(code: seq<Instr>, s: State)
    requires WellLinked(code) && Counted(code, s) && s.pc < |code|
    ensures Step(code, s).Running? && Counted(code, Step(code, s).s)
  {
    hide NestedAt;
    assert LinkedIn(code, 0, |code|, s.pc);
    assert CounterOk(code[s.pc], s.remaining[s.pc]);
    if code[s.pc].LoopEnd? {
      assert CounterOk(code[code[s.pc].begin], s.remaining[code[s.pc].begin]);
    }
  }

  /** Whatever the counts: the invalid-target error and the branch for a counter of 0 are never reached. */
  lemma {:induction false} NeverAstray(code: seq<Instr>, n: nat, s: State)
    requires WellLinked(code) && Counted(code, s)
    ensures StepN(code, n, s).Running? && Counted(code, StepN(code, n, s).s)
    decreases n
  {
    hide WellLinked;
    if n > 0 && s.pc < |code| {
      StepKeepsCounted(code, s);
      NeverAstray(code, n - 1, Step(code, s).s);
    }
  }

  // ----- Whole programs -----

  function Start(code: seq<Instr>): State { State(0, seq(|code|, _ => FRESH), []) }

  /** The machine on a flattened program.  Given any number of rounds for the loops without end it does what the
      nesting says; in particular a program whose counts are all positive ends after exactly those events. */
  lemma FlatRefinesNested(items: seq<Item>, m: nat) returns (t: State)
    ensures var code := Flat(items, 0);
      && Reaches(code, Start(code), t)
      && t.trace == Run(items, m).0
      && (AllFinite(items) ==> t.pc == |code|)
  {
    hide Reaches, Flat;
    var code := Flat(items, 0);
    assert code[0..|code|] == code;
    t := RunFollows(code, items, m, Start(code));
    if AllFinite(items) { FiniteEnds(items, m); }
  }

  /** execute_program on a program all of whose loops end: it terminates with the trace of the nesting. */
  method Execute(code: array<Instr>, count: nat, ghost items: seq<Item>) returns (trace: seq<Event>)
    requires count <= code.Length && code[..count] == Flat(items, 0) && AllFinite(items)
    ensures trace == Run(items, 0).0
  {
    hide Reaches, Flat, Run, WellLinked;
    ghost var program := code[..count];
    ghost var end := FlatRefinesNested(items, 0);
    ghost var n := StepsTo(program, Start(program), end);
    ProgramIsLinked(items);
    trace := [];
    var pc: nat := 0;
    var remaining := new int[count](_ => FRESH);
    assert remaining[..] == Start(program).remaining;
    while pc < count
      invariant pc <= count && remaining.Length == count && fresh(remaining) && program == code[..count]
      invariant Counted(program, State(pc, remaining[..], trace))
      invariant StepN(program, n, State(pc, remaining[..], trace)) == Running(end)
      decreases n
    {
      ghost var before := State(pc, remaining[..], trace);
      StepKeepsCounted(program, before);
      OneLess(program, n, before, end);
      hide Counted;
      var i := code[pc];
      assert i == program[pc];
      if i.Act? {
        trace := trace + [Did(i.id)];
        pc := pc + 1;
      } else if i.LoopBegin? {
        if remaining[pc] == FRESH { remaining[pc] := if i.count <= 0 then FOREVER else i.count; }
        trace := trace + [Polled];
        pc := pc + 1;
      } else {
        trace, pc := EndOfRound(code, count, pc, i.begin, remaining, trace);
      }
      assert State(pc, remaining[..], trace) == Step(program, before).s;
      n := n - 1;
    }
  }

  /** OP_LOOP_END */
  method EndOfRound(code: array<Instr>, count: nat, pc: nat, begin: nat, remaining: array<int>, trace: seq<Event>)
    returns (trace1: seq<Event>, pc1: nat)
    requires count <= code.Length && remaining.Length == count && pc < count
    requires code[pc] == LoopEnd(begin) && begin < count
    modifies remaining
    ensures Step(code[..count], State(pc, old(remaining[..]), trace)) == Running(State(pc1, remaining[..], trace1))
  {
    trace1 := trace;
    var r := remaining[begin];
    if r == FOREVER {
      trace1 := trace + [Paused(SleepOf(code[begin]))];
      pc1 := begin;
    } else if r > 1 {
      remaining[begin] := r - 1;
      trace1 := trace + [Paused(SleepOf(code[begin]))];
      pc1 := begin;
    } else {
      remaining[begin] := FRESH;
      pc1 := pc + 1;
    }
  }

  lemma StepsTo(code: seq<Instr>, s: State, t: State) returns (n: nat)
    requires |s.remaining| == |code| && Reaches(code, s, t)
    ensures StepN(code, n, s) == Running(t)
  {
    n :| StepN(code, n, s) == Running(t);
  }

  lemma OneLess(code: seq<Instr>, n: nat, s: State, end: State)
    requires |s.remaining| == |code| && s.pc < |code| && end.pc == |code|
    requires StepN(code, n, s) == Running(end) && Step(code, s).Running?
    ensures n > 0 && StepN(code, n - 1, Step(code, s).s) == Running(end)
  {
  }
}
