/** The loop brackets of the script parser (hosc_framework.c, parse_script_file): begins are emitted with an
    open end, remembered on a stack and patched when their closing brace comes. */
module FwParser {
  import opened FwLoops

  const MAX_LOOP_DEPTH: nat := 64

  /** A line of a script, as far as brackets are concerned.  A closing brace may be followed by junk. */
  datatype Line =
    | Ignored
    | Statement(id: nat)
    | OpenLoop(count: int, sleep: int)
    | OpenFunction
    | CloseBrace(clean: bool)
    | Malformed

  datatype Parsed = Accepted(items: seq<Item>) | Rejected

  /** A loop whose brace is still to come, with what stands before it in the enclosing block. */
  datatype Open = Open(count: int, sleep: int, before: seq<Item>)

  /** The nested program of the lines.  A closing brace belongs to the innermost open loop, and to a function
      only when no loop is open. */
  function Build(lines: seq<Line>, open: seq<Open>, items: seq<Item>, functions: nat, used: nat): Parsed
    decreases |lines|
  {
    if lines == [] then
      if open == [] && functions == 0 then Accepted(items) else Rejected
    else
      var rest := lines[1..];
      match lines[0]
      case Ignored => Build(rest, open, items, functions, used)
      case OpenFunction => Build(rest, open, items, functions + 1, used)
      case Statement(id) =>
        if used >= MAX_INSTRUCTIONS then Rejected
        else Build(rest, open, items + [Action(id)], functions, used + 1)
      case OpenLoop(count, sleep) =>
        if |open| >= MAX_LOOP_DEPTH || used >= MAX_INSTRUCTIONS then Rejected
        else Build(rest, open + [Open(count, sleep, items)], [], functions, used + 1)
      case CloseBrace(clean) =>
        if open != [] then
          if !clean || used >= MAX_INSTRUCTIONS then Rejected
          else
            var o := open[|open| - 1];
            Build(rest, open[..|open| - 1], o.before + [Repeat(o.count, o.sleep, items)], functions, used + 1)
        else if functions > 0 then Build(rest, open, items, functions - 1, used)
        else Rejected
      case Malformed => Rejected
  }

  function Parse(lines: seq<Line>): Parsed { Build(lines, [], [], 0, 0) }

  // ----- The code emitted so far -----

  /** Finished blocks are flat; the begin of an open loop has no end yet. */
  function Partial(open: seq<Open>, items: seq<Item>): seq<Instr>
    decreases |open|
  {
    if open == [] then Flat(items, 0)
    else
      var o := open[|open| - 1];
      var outer := Partial(open[..|open| - 1], o.before);
      outer + [LoopBegin(o.count, o.sleep, -1)] + Flat(items, |outer| + 1)
  }

  /** Where the begin of the k-th open loop stands. */
  function BeginOf(open: seq<Open>, k: nat): nat
    requires k < |open|
  {
    |Partial(open[..k], open[k].before)|
  }

  lemma {:induction false} FlatAppend(items: seq<Item>, item: Item, base: nat)
    ensures Flat(items + [item], base) == Flat(items, base) + FlatItem(item, base + |Flat(items, base)|)
    decreases items
  {
    hide FlatItem;
    if items == [] {
      assert items + [item] == [item] && [item][1..] == [];
    } else {
      var first := FlatItem(items[0], base);
      assert (items + [item])[1..] == items[1..] + [item];
      FlatAppend(items[1..], item, base + |first|);
    }
  }

  /** Everything before the current block. */
  function Outside(open: seq<Open>): seq<Instr> {
    if open == [] then []
    else
      var o := open[|open| - 1];
      Partial(open[..|open| - 1], o.before) + [LoopBegin(o.count, o.sleep, -1)]
  }

  lemma PartialIs(open: seq<Open>, items: seq<Item>)
    ensures Partial(open, items) == Outside(open) + Flat(items, |Outside(open)|)
  {
    hide Flat;
  }

  lemma PartialAppend(open: seq<Open>, items: seq<Item>, item: Item)
    ensures Partial(open, items + [item]) == Partial(open, items) + FlatItem(item, |Partial(open, items)|)
  {
    hide Flat, FlatItem, Partial, Outside;
    PartialIs(open, items);
    PartialIs(open, items + [item]);
    FlatAppend(items, item, |Outside(open)|);
    var head := Outside(open);
    var inner := Flat(items, |head|);
    assert head + (inner + FlatItem(item, |head| + |inner|)) == (head + inner) + FlatItem(item, |head| + |inner|);
  }

  lemma PartialOpen(open: seq<Open>, o: Open)
    ensures Partial(open + [o], []) == Partial(open, o.before) + [LoopBegin(o.count, o.sleep, -1)]
  {
    assert (open + [o])[..|open|] == open;
  }

  /** Adding the end and patching the begin turns the open loop into a finished one. */
  lemma PartialClose(open: seq<Open>, items: seq<Item>)
    requires open != []
    ensures var o := open[|open| - 1];
      var begin := BeginOf(open, |open| - 1);
      var code := Partial(open, items);
      && begin < |code|
      && (code + [LoopEnd(begin)])[begin := LoopBegin(o.count, o.sleep, |code|)]
           == Partial(open[..|open| - 1], o.before + [Repeat(o.count, o.sleep, items)])
  {
    var o := open[|open| - 1];
    var outer := Partial(open[..|open| - 1], o.before);
    PartialAppend(open[..|open| - 1], o.before, Repeat(o.count, o.sleep, items));
    var inner := Flat(items, |outer| + 1);
    hide Flat;
    assert (outer + [LoopBegin(o.count, o.sleep, -1)] + inner + [LoopEnd(|outer|)])[|outer| := LoopBegin(o.count, o.sleep, |outer| + 1 + |inner|)]
        == outer + ([LoopBegin(o.count, o.sleep, |outer| + 1 + |inner|)] + (inner + [LoopEnd(|outer|)]));
  }

  // ----- The parser in its own form -----

  class Program {
    const items: array<Instr>
    var count: nat

    ghost predicate Valid()
      reads this
    {
      items.Length == MAX_INSTRUCTIONS && count <= MAX_INSTRUCTIONS
    }

    ghost function Code(): seq<Instr>
      requires Valid()
      reads this, items
    {
      items[..count]
    }

    constructor ()
      ensures Valid() && fresh(items) && Code() == []
    {
      items := new Instr[MAX_INSTRUCTIONS](_ => Act(0));
      count := 0;
    }

    /** add_instruction */
    method Add(i: Instr) returns (ok: bool)
      requires Valid()
      modifies this, items
      ensures Valid() && ok == (|old(Code())| < MAX_INSTRUCTIONS)
      ensures Code() == if ok then old(Code()) + [i] else old(Code())
    {
      ok := count < MAX_INSTRUCTIONS;
      if ok {
        items[count] := i;
        count := count + 1;
        assert items[..count] == old(items[..count]) + [i];
      }
    }

    /** items[begin].jump_index = end */
    method Patch(begin: nat, end: nat)
      requires Valid() && begin < count && items[begin].LoopBegin?
      modifies items
      ensures Valid() && Code() == old(Code())[begin := old(Code())[begin].(end := end)]
    {
      items[begin] := items[begin].(end := end);
    }
  }

  /** The parser's variables: the program, the stack of begins and the two depths. */
  class Parser {
    const program: Program
    const loopStack: array<nat>
    var loopDepth: nat
    var functions: nat

    constructor ()
      ensures Valid() && fresh(program) && fresh(program.items) && fresh(loopStack)
      ensures Holds([], []) && functions == 0
    {
      program := new Program();
      loopStack := new nat[MAX_LOOP_DEPTH](_ => 0);
      loopDepth, functions := 0, 0;
    }

    ghost predicate Valid()
      reads this, program
    {
      program.Valid() && loopStack.Length == MAX_LOOP_DEPTH && loopDepth <= MAX_LOOP_DEPTH
    }

    /** The program so far is that of the open loops and the current block. */
    ghost predicate Holds(open: seq<Open>, items: seq<Item>)
      requires Valid()
      reads this, program, program.items, loopStack
    {
      && |open| == loopDepth
      && program.Code() == Partial(open, items)
      && forall k :: 0 <= k < loopDepth ==> loopStack[k] == BeginOf(open, k)
    }

    /** parse_loop_begin */
    method LoopBegins(count: int, sleep: int, ghost open: seq<Open>, ghost items: seq<Item>) returns (ok: bool)
      requires Valid() && Holds(open, items)
      modifies this, program, program.items, loopStack
      ensures Valid() && functions == old(functions)
      ensures ok == (|open| < MAX_LOOP_DEPTH && |Partial(open, items)| < MAX_INSTRUCTIONS)
      ensures ok ==> Holds(open + [Open(count, sleep, items)], [])
    {
      hide Partial;
      if loopDepth >= MAX_LOOP_DEPTH { return false; }
      var begin := program.count;
      ok := program.Add(LoopBegin(count, sleep, -1));
      if ok {
        loopStack[loopDepth] := begin;
        loopDepth := loopDepth + 1;
        PartialOpen(open, Open(count, sleep, items));
        Opened(open, Open(count, sleep, items));
      }
    }

    /** parse_loop_end with a loop open. */
    method LoopEnds(ghost open: seq<Open>, ghost items: seq<Item>) returns (ok: bool)
      requires Valid() && Holds(open, items) && open != []
      modifies this, program, program.items
      ensures Valid() && functions == old(functions)
      ensures ok == (|Partial(open, items)| < MAX_INSTRUCTIONS)
      ensures var o := open[|open| - 1];
        ok ==> Holds(open[..|open| - 1], o.before + [Repeat(o.count, o.sleep, items)])
    {
      PartialClose(open, items);
      BeginStands(open, items);
      hide Partial, BeginOf;
      loopDepth := loopDepth - 1;
      var begin := loopStack[loopDepth];
      var end := program.count;
      ok := program.Add(LoopEnd(begin));
      if ok {
        program.Patch(begin, end);
        Closed(open);
      }
    }

    /** One line. */
    method Take(line: Line, ghost open: seq<Open>, ghost items: seq<Item>)
      returns (ok: bool, ghost open1: seq<Open>, ghost items1: seq<Item>)
      requires Valid() && Holds(open, items)
      modifies this, program, program.items, loopStack
      ensures Valid() && (ok ==> Holds(open1, items1))
      ensures forall rest: seq<Line> ::
        Build([line] + rest, open, items, old(functions), |Partial(open, items)|) ==
          if ok then Build(rest, open1, items1, functions, |Partial(open1, items1)|) else Rejected
    {
      hide Partial, BeginOf;
      assert forall rest: seq<Line> :: ([line] + rest)[0] == line && ([line] + rest)[1..] == rest;
      ok, open1, items1 := true, open, items;
      if line.OpenFunction? {
        functions := functions + 1;
      } else if line.Statement? {
        ok := program.Add(Act(line.id));
        items1 := items + [Action(line.id)];
        PartialAppend(open, items, Action(line.id));
      } else if line.OpenLoop? {
        ok := LoopBegins(line.count, line.sleep, open, items);
        open1, items1 := open + [Open(line.count, line.sleep, items)], [];
        PartialOpen(open, Open(line.count, line.sleep, items));
      } else if line.CloseBrace? {
        if loopDepth > 0 {
          ghost var o := open[|open| - 1];
          PartialClose(open, items);
          open1, items1 := open[..|open| - 1], o.before + [Repeat(o.count, o.sleep, items)];
          if line.clean { ok := LoopEnds(open, items); } else { ok := false; }
        } else if functions > 0 {
          functions := functions - 1;
        } else {
          ok := false;
        }
      } else if line.Malformed? {
        ok := false;
      }
    }
  }

  lemma Opened(open: seq<Open>, o: Open)
    ensures forall k :: 0 <= k < |open| ==> BeginOf(open + [o], k) == BeginOf(open, k)
    ensures BeginOf(open + [o], |open|) == |Partial(open, o.before)|
  {
    forall k | 0 <= k < |open| ensures BeginOf(open + [o], k) == BeginOf(open, k) {
      assert (open + [o])[..k] == open[..k];
    }
    assert (open + [o])[..|open|] == open;
  }

  lemma Closed(open: seq<Open>)
    requires open != []
    ensures forall k :: 0 <= k < |open| - 1 ==> BeginOf(open[..|open| - 1], k) == BeginOf(open, k)
  {
    forall k | 0 <= k < |open| - 1 ensures BeginOf(open[..|open| - 1], k) == BeginOf(open, k) {
      assert open[..|open| - 1][..k] == open[..k];
    }
  }

  /** The innermost open begin is where the stack says. */
  lemma BeginStands(open: seq<Open>, items: seq<Item>)
    requires open != []
    ensures var o := open[|open| - 1];
      var begin := BeginOf(open, |open| - 1);
      begin < |Partial(open, items)| && Partial(open, items)[begin] == LoopBegin(o.count, o.sleep, -1)
  {
  }

  /** parse_script_file: the script is accepted exactly when its brackets close and it fits, and then the
      program is the flat form of the nesting its lines describe. */
  method ParseScript(lines: seq<Line>) returns (ok: bool, program: Program)
    ensures fresh(program) && fresh(program.items) && program.Valid()
    ensures ok <==> Parse(lines).Accepted?
    ensures ok ==> program.Code() == Flat(Parse(lines).items, 0)
  {
    hide Build, Partial, BeginOf;
    var parser := new Parser();
    program := parser.program;
    ghost var open: seq<Open>, items: seq<Item> := [], [];
    var i := 0;
    NothingEmitted();
    assert lines[0..] == lines;
    while i < |lines|
      invariant i <= |lines| && program == parser.program
      invariant fresh(parser) && fresh(program) && fresh(program.items) && fresh(parser.loopStack)
      invariant parser.Valid() && parser.Holds(open, items)
      invariant Build(lines[i..], open, items, parser.functions, |Partial(open, items)|) == Parse(lines)
    {
      var taken;
      assert lines[i..] == [lines[i]] + lines[i + 1..];
      taken, open, items := parser.Take(lines[i], open, items);
      if !taken { return false, program; }
      i := i + 1;
    }
    assert lines[i..] == [];
    ok := parser.loopDepth == 0 && parser.functions == 0;
    AtTheEnd(open, items, parser.functions);
  }

  lemma NothingEmitted()
    ensures Partial([], []) == []
  {
  }

  lemma AtTheEnd(open: seq<Open>, items: seq<Item>, functions: nat)
    ensures Build([], open, items, functions, |Partial(open, items)|) ==
      if open == [] && functions == 0 then Accepted(items) else Rejected
    ensures open == [] ==> Partial(open, items) == Flat(items, 0)
  {
  }

  // ----- Scripts written from a nesting -----

  function Print(items: seq<Item>): seq<Line>
    decreases items
  {
    if items == [] then [] else PrintItem(items[0]) + Print(items[1..])
  }

  function PrintItem(item: Item): seq<Line>
    decreases item
  {
    match item
    case Action(id) => [Statement(id)]
    case Repeat(count, sleep, body) => [OpenLoop(count, sleep)] + (Print(body) + [CloseBrace(true)])
  }

  function Depth(items: seq<Item>): nat
    decreases items
  {
    if items == [] then 0
    else
      var d := if items[0].Action? then 0 else 1 + Depth(items[0].body);
      var e := Depth(items[1..]);
      if d >= e then d else e
  }

  function Length(items: seq<Item>): nat
    decreases items
  {
    if items == [] then 0
    else (if items[0].Action? then 1 else 2 + Length(items[0].body)) + Length(items[1..])
  }

  lemma {:induction false} PrintBuilds(items: seq<Item>, rest: seq<Line>, open: seq<Open>, before: seq<Item>, functions: nat, used: nat)
    requires |open| + Depth(items) <= MAX_LOOP_DEPTH && used + Length(items) <= MAX_INSTRUCTIONS
    ensures Build(Print(items) + rest, open, before, functions, used)
         == Build(rest, open, before + items, functions, used + Length(items))
    decreases items
  {
    hide Build;
    if items == [] {
      assert Print(items) + rest == rest && before + items == before;
    } else {
      var more := Print(items[1..]) + rest;
      assert Print(items) + rest == PrintItem(items[0]) + more;
      var n := if items[0].Action? then 1 else 2 + Length(items[0].body);
      if items[0].Action? {
        OneStatement(items[0].id, more, open, before, functions, used);
        assert items[0] == Action(items[0].id);
      } else {
        OneLoop(items[0], more, open, before, functions, used);
      }
      PrintBuilds(items[1..], rest, open, before + [items[0]], functions, used + n);
      assert (before + [items[0]]) + items[1..] == before + items;
    }
  }

  lemma OneStatement(id: nat, more: seq<Line>, open: seq<Open>, before: seq<Item>, functions: nat, used: nat)
    requires used < MAX_INSTRUCTIONS
    ensures Build([Statement(id)] + more, open, before, functions, used)
         == Build(more, open, before + [Action(id)], functions, used + 1)
  {
    var lines := [Statement(id)] + more;
    assert lines[0] == Statement(id) && lines[1..] == more;
  }

  lemma {:induction false} OneLoop(item: Item, more: seq<Line>, open: seq<Open>, before: seq<Item>, functions: nat, used: nat)
    requires item.Repeat? && |open| + 1 + Depth(item.body) <= MAX_LOOP_DEPTH
    requires used + 2 + Length(item.body) <= MAX_INSTRUCTIONS
    ensures Build(PrintItem(item) + more, open, before, functions, used)
         == Build(more, open, before + [item], functions, used + 2 + Length(item.body))
    decreases item
  {
    var o := Open(item.count, item.sleep, before);
    var close := [CloseBrace(true)] + more;
    var lines := PrintItem(item) + more;
    assert lines == [OpenLoop(item.count, item.sleep)] + (Print(item.body) + close);
    BeginLine(o, Print(item.body) + close, open, functions, used);
    PrintBuilds(item.body, close, open + [o], [], functions, used + 1);
    assert [] + item.body == item.body;
    EndLine(o, more, open, item.body, functions, used + 1 + Length(item.body));
    assert item == Repeat(o.count, o.sleep, item.body);
  }

  lemma BeginLine(o: Open, more: seq<Line>, open: seq<Open>, functions: nat, used: nat)
    requires |open| < MAX_LOOP_DEPTH && used < MAX_INSTRUCTIONS
    ensures Build([OpenLoop(o.count, o.sleep)] + more, open, o.before, functions, used)
         == Build(more, open + [o], [], functions, used + 1)
  {
    var lines := [OpenLoop(o.count, o.sleep)] + more;
    assert lines[0] == OpenLoop(o.count, o.sleep) && lines[1..] == more;
  }

  lemma EndLine(o: Open, more: seq<Line>, open: seq<Open>, body: seq<Item>, functions: nat, used: nat)
    requires used < MAX_INSTRUCTIONS
    ensures Build([CloseBrace(true)] + more, open + [o], body, functions, used)
         == Build(more, open, o.before + [Repeat(o.count, o.sleep, body)], functions, used + 1)
  {
    var lines := [CloseBrace(true)] + more;
    assert lines[0] == CloseBrace(true) && lines[1..] == more;
    assert (open + [o])[..|open|] == open;
  }

  /** A nesting that is not too deep and not too long comes back from its script: parsing and running the script
      does what the nesting says. */
  lemma ScriptsComeBack(items: seq<Item>)
    requires Depth(items) <= MAX_LOOP_DEPTH && Length(items) <= MAX_INSTRUCTIONS
    ensures Parse(Print(items)) == Accepted(items)
  {
    assert Print(items) + [] == Print(items) && [] + items == items;
    PrintBuilds(items, [], [], [], 0, 0);
  }

  /** A function inside a loop: its closing brace closes the loop, and the rest of the loop is left outside. */
  lemma FunctionInsideLoop(count: int, sleep: int)
    ensures Parse([OpenLoop(count, sleep), OpenFunction, CloseBrace(true), Statement(1), CloseBrace(true)])
         == Accepted([Repeat(count, sleep, []), Action(1)])
  {
    var lines := [OpenLoop(count, sleep), OpenFunction, CloseBrace(true), Statement(1), CloseBrace(true)];
    var o := Open(count, sleep, []);
    assert lines == [OpenLoop(count, sleep)] + [OpenFunction, CloseBrace(true), Statement(1), CloseBrace(true)];
    BeginLine(o, lines[1..], [], 0, 0);
    assert [] + [o] == [o];
    assert Build(lines[1..], [o], [], 0, 1) == Build(lines[2..], [o], [], 1, 1) by { assert lines[1..][1..] == lines[2..]; }
    assert lines[2..] == [CloseBrace(true)] + lines[3..];
    EndLine(o, lines[3..], [], [], 1, 1);
    assert [] + [Repeat(count, sleep, [])] == [Repeat(count, sleep, [])];
    assert lines[3..] == [Statement(1)] + lines[4..];
    OneStatement(1, lines[4..], [], [Repeat(count, sleep, [])], 1, 2);
    assert [Repeat(count, sleep, [])] + [Action(1)] == [Repeat(count, sleep, []), Action(1)];
    assert lines[4..] == [CloseBrace(true)] && [CloseBrace(true)][1..] == [];
  }
}
