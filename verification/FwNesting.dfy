/** Scripts in which functions and loops stand inside one another: what the parser's rule for closing braces makes of
    them (framework/src/hosc_framework.c, parse_script_file), against the usual one, by which a brace closes the
    innermost open block. */
module FwNesting {
  import opened FwLoops
  import opened FwParser

  datatype Block = FunctionBlock | LoopBlock(open: Open)

  // ----- The usual reading -----

  /** The nesting of the lines if a brace closes the innermost open block.  The parser's limits, and its refusal of
      junk behind a brace that closes a loop, are checked on request. */
  function Read(lines: seq<Line>, blocks: seq<Block>, items: seq<Item>, used: nat, checked: bool): Parsed
    decreases |lines|
  {
    if lines == [] then
      if blocks == [] then Accepted(items) else Rejected
    else
      var rest := lines[1..];
      match lines[0]
      case Ignored => Read(rest, blocks, items, used, checked)
      case OpenFunction => Read(rest, blocks + [FunctionBlock], items, used, checked)
      case Statement(id) =>
        if checked && used >= MAX_INSTRUCTIONS then Rejected
        else Read(rest, blocks, items + [Action(id)], used + 1, checked)
      case OpenLoop(count, sleep) =>
        if checked && (Loops(Kinds(blocks)) >= MAX_LOOP_DEPTH || used >= MAX_INSTRUCTIONS) then Rejected
        else Read(rest, blocks + [LoopBlock(Open(count, sleep, items))], [], used + 1, checked)
      case CloseBrace(clean) =>
        if blocks == [] then Rejected
        else
          var outer := blocks[..|blocks| - 1];
          (match blocks[|blocks| - 1]
           case FunctionBlock => Read(rest, outer, items, used, checked)
           case LoopBlock(o) =>
             if checked && (!clean || used >= MAX_INSTRUCTIONS) then Rejected
             else Read(rest, outer, o.before + [Repeat(o.count, o.sleep, items)], used + 1, checked))
      case Malformed => Rejected
  }

  /** Whether each open block is a loop, from the outermost in. */
  function Kinds(blocks: seq<Block>): (r: seq<bool>)
    ensures |r| == |blocks|
  {
    if blocks == [] then [] else Kinds(blocks[..|blocks| - 1]) + [blocks[|blocks| - 1].LoopBlock?]
  }

  function Loops(kinds: seq<bool>): (n: nat)
    ensures n <= |kinds|
  {
    if kinds == [] then 0 else Loops(kinds[..|kinds| - 1]) + if kinds[|kinds| - 1] then 1 else 0
  }

  lemma LastKind(kinds: seq<bool>, loop: bool)
    ensures Loops(kinds + [loop]) == Loops(kinds) + if loop then 1 else 0
  {
    assert (kinds + [loop])[..|kinds|] == kinds;
  }

  lemma LastBlock(blocks: seq<Block>, b: Block)
    ensures Kinds(blocks + [b]) == Kinds(blocks) + [b.LoopBlock?]
  {
    assert (blocks + [b])[..|blocks|] == blocks;
  }

  // ----- No function in a loop: the parser reads as usual -----

  /** No function opens while a loop is open. */
  predicate FunctionsOutside(lines: seq<Line>, loops: nat)
  {
    lines == [] ||
    match lines[0]
    case OpenFunction => loops == 0 && FunctionsOutside(lines[1..], loops)
    case OpenLoop(_, _) => FunctionsOutside(lines[1..], loops + 1)
    case CloseBrace(_) => FunctionsOutside(lines[1..], if loops > 0 then loops - 1 else 0)
    case _ => FunctionsOutside(lines[1..], loops)
  }

  function Stack(open: seq<Open>, functions: nat): (r: seq<Block>)
    ensures |r| == |open| + functions
  {
    seq(functions, _ => FunctionBlock) + seq(|open|, k requires 0 <= k < |open| => LoopBlock(open[k]))
  }

  lemma StackOpens(open: seq<Open>, functions: nat, o: Open)
    ensures Stack(open + [o], functions) == Stack(open, functions) + [LoopBlock(o)]
    ensures open == [] ==> Stack(open, functions + 1) == Stack(open, functions) + [FunctionBlock]
  {
  }

  lemma StackCloses(open: seq<Open>, functions: nat)
    requires open != [] || functions > 0
    ensures var s := Stack(open, functions);
      && (open != [] ==> s[|s| - 1] == LoopBlock(open[|open| - 1]) && s[..|s| - 1] == Stack(open[..|open| - 1], functions))
      && (open == [] ==> s[|s| - 1] == FunctionBlock && s[..|s| - 1] == Stack([], functions - 1))
  {
    var s := Stack(open, functions);
    if open != [] {
      assert s[..|s| - 1] == Stack(open[..|open| - 1], functions);
    } else {
      assert s[..|s| - 1] == Stack([], functions - 1);
    }
  }

  lemma {:induction false} StackLoops(open: seq<Open>, functions: nat)
    ensures Loops(Kinds(Stack(open, functions))) == |open|
    decreases |open|, functions
  {
    var s := Stack(open, functions);
    if open != [] {
      StackCloses(open, functions);
      StackLoops(open[..|open| - 1], functions);
      LastKind(Kinds(s[..|s| - 1]), true);
    } else if functions > 0 {
      StackCloses(open, functions);
      StackLoops([], functions - 1);
      LastKind(Kinds(s[..|s| - 1]), false);
    }
  }

  /** For every script without a function in a loop, refused ones included, the parser's reading is the usual one. */
  lemma {:induction false} ReadsAsUsual(lines: seq<Line>, open: seq<Open>, items: seq<Item>, functions: nat, used: nat)
    requires FunctionsOutside(lines, |open|)
    ensures Build(lines, open, items, functions, used) == Read(lines, Stack(open, functions), items, used, true)
    decreases |lines|
  {
    hide Stack, Kinds, Loops;
    if lines != [] {
      var line := lines[0];
      if line.OpenFunction? {
        StackOpens(open, functions, Open(0, 0, []));
        ReadsAsUsual(lines[1..], open, items, functions + 1, used);
      } else if line.OpenLoop? {
        StackLoops(open, functions);
        StackOpens(open, functions, Open(line.count, line.sleep, items));
        ReadsAsUsual(lines[1..], open + [Open(line.count, line.sleep, items)], [], functions, used + 1);
      } else if line.CloseBrace? {
        if open != [] {
          StackCloses(open, functions);
          var o := open[|open| - 1];
          ReadsAsUsual(lines[1..], open[..|open| - 1], o.before + [Repeat(o.count, o.sleep, items)], functions, used + 1);
        } else if functions > 0 {
          StackCloses(open, functions);
          ReadsAsUsual(lines[1..], open, items, functions - 1, used);
        }
      } else if line.Statement? {
        ReadsAsUsual(lines[1..], open, items + [Action(line.id)], functions, used + 1);
      } else if line.Ignored? {
        ReadsAsUsual(lines[1..], open, items, functions, used);
      }
    }
  }

  // ----- What each reading emits, line by line -----

  const END: Line := CloseBrace(true)

  /** The statements, loop begins and loop ends that the parser takes from the lines. */
  function ParserEmits(lines: seq<Line>, loops: nat, functions: nat): seq<Line>
    decreases |lines|
  {
    if lines == [] then []
    else
      var rest := lines[1..];
      match lines[0]
      case OpenFunction => ParserEmits(rest, loops, functions + 1)
      case Statement(_) => [lines[0]] + ParserEmits(rest, loops, functions)
      case OpenLoop(_, _) => [lines[0]] + ParserEmits(rest, loops + 1, functions)
      case CloseBrace(_) =>
        if loops > 0 then [END] + ParserEmits(rest, loops - 1, functions)
        else ParserEmits(rest, loops, if functions > 0 then functions - 1 else 0)
      case _ => ParserEmits(rest, loops, functions)
  }

  /** And those of the usual reading. */
  function UsualEmits(lines: seq<Line>, kinds: seq<bool>): seq<Line>
    decreases |lines|
  {
    if lines == [] then []
    else
      var rest := lines[1..];
      match lines[0]
      case OpenFunction => UsualEmits(rest, kinds + [false])
      case Statement(_) => [lines[0]] + UsualEmits(rest, kinds)
      case OpenLoop(_, _) => [lines[0]] + UsualEmits(rest, kinds + [true])
      case CloseBrace(_) =>
        if kinds == [] then UsualEmits(rest, kinds)
        else (if kinds[|kinds| - 1] then [END] else []) + UsualEmits(rest, kinds[..|kinds| - 1])
      case _ => UsualEmits(rest, kinds)
  }

  /** Every brace closes something, everything is closed, and every line is understood. */
  predicate Balanced(lines: seq<Line>, open: nat) {
    if lines == [] then open == 0
    else
      match lines[0]
      case OpenFunction => Balanced(lines[1..], open + 1)
      case OpenLoop(_, _) => Balanced(lines[1..], open + 1)
      case CloseBrace(_) => open > 0 && Balanced(lines[1..], open - 1)
      case Malformed => false
      case _ => Balanced(lines[1..], open)
  }

  /** At every statement and every loop begin both rules have the same number of loops open.  Only the numbers of open
      loops and functions and the kinds of the open blocks are needed to tell. */
  predicate DepthsAgree(lines: seq<Line>, loops: nat, functions: nat, kinds: seq<bool>)
    decreases |lines|
  {
    lines == [] ||
    var rest := lines[1..];
    match lines[0]
    case OpenFunction => DepthsAgree(rest, loops, functions + 1, kinds + [false])
    case Statement(_) => loops == Loops(kinds) && DepthsAgree(rest, loops, functions, kinds)
    case OpenLoop(_, _) => loops == Loops(kinds) && DepthsAgree(rest, loops + 1, functions, kinds + [true])
    case CloseBrace(_) =>
      var outer := if kinds == [] then [] else kinds[..|kinds| - 1];
      if loops > 0 then DepthsAgree(rest, loops - 1, functions, outer)
      else DepthsAgree(rest, loops, if functions > 0 then functions - 1 else 0, outer)
    case _ => DepthsAgree(rest, loops, functions, kinds)
  }

  function Ends(n: nat): (r: seq<Line>)
    ensures |r| == n && forall k :: 0 <= k < n ==> r[k] == END
  {
    seq(n, _ => END)
  }

  /** The parser closes loops no later than the usual reading, so it is ahead by some loop ends; the two emit the same
      if and only if it is ahead by none at every statement and loop begin. */
  lemma {:induction false} SameEmission(lines: seq<Line>, loops: nat, functions: nat, kinds: seq<bool>)
    requires Balanced(lines, |kinds|) && loops + functions == |kinds| && loops <= Loops(kinds)
    ensures Ends(Loops(kinds) - loops) + ParserEmits(lines, loops, functions) == UsualEmits(lines, kinds)
       <==> DepthsAgree(lines, loops, functions, kinds)
    decreases |lines|
  {
    hide Ends, Loops, ParserEmits, UsualEmits, DepthsAgree;
    var ahead := Loops(kinds) - loops;
    if lines == [] {
      NothingEmits(loops, functions, kinds);
    } else {
      var line, rest := lines[0], lines[1..];
      if !line.CloseBrace? { LineEmits(lines, loops, functions, kinds); }
      if line.OpenFunction? {
        LastKind(kinds, false);
        SameEmission(rest, loops, functions + 1, kinds + [false]);
      } else if line.Statement? {
        SameEmission(rest, loops, functions, kinds);
        SameHead(ahead, line, ParserEmits(rest, loops, functions), UsualEmits(rest, kinds));
      } else if line.OpenLoop? {
        LastKind(kinds, true);
        SameEmission(rest, loops + 1, functions, kinds + [true]);
        SameHead(ahead, line, ParserEmits(rest, loops + 1, functions), UsualEmits(rest, kinds + [true]));
      } else if line.CloseBrace? {
        SameAtBrace(lines, loops, functions, kinds);
      } else {
        SameEmission(rest, loops, functions, kinds);
      }
    }
  }

  lemma {:induction false} SameAtBrace(lines: seq<Line>, loops: nat, functions: nat, kinds: seq<bool>)
    requires lines != [] && lines[0].CloseBrace?
    requires Balanced(lines, |kinds|) && loops + functions == |kinds| && loops <= Loops(kinds)
    ensures Ends(Loops(kinds) - loops) + ParserEmits(lines, loops, functions) == UsualEmits(lines, kinds)
       <==> DepthsAgree(lines, loops, functions, kinds)
    decreases |lines|, 0
  {
    hide Ends, Loops, ParserEmits, UsualEmits, DepthsAgree;
    var rest := lines[1..];
    var outer, loop := kinds[..|kinds| - 1], kinds[|kinds| - 1];
    assert kinds == outer + [loop];
    LastKind(outer, loop);
    var ahead := Loops(kinds) - loops;
    var usual := UsualEmits(rest, outer);
    BraceEmits(lines, loops, functions, kinds);
    if loops > 0 {
      SameEmission(rest, loops - 1, functions, outer);
      var parser := ParserEmits(rest, loops - 1, functions);
      EndsMove(ahead, parser);
      if loop { SameAfterEnd(Ends(ahead) + parser, usual); }
    } else {
      SameEmission(rest, 0, functions - 1, outer);
      var parser := ParserEmits(rest, 0, functions - 1);
      if loop {
        EndsFirst(ahead);
        assert ([END] + Ends(ahead - 1)) + parser == [END] + (Ends(ahead - 1) + parser);
        SameAfterEnd(Ends(ahead - 1) + parser, usual);
      }
    }
  }

  lemma NothingEmits(loops: nat, functions: nat, kinds: seq<bool>)
    ensures ParserEmits([], loops, functions) == [] == UsualEmits([], kinds) && DepthsAgree([], loops, functions, kinds)
    ensures Ends(0) == [] && Loops([]) == 0
  {
  }

  lemma LineEmits(lines: seq<Line>, loops: nat, functions: nat, kinds: seq<bool>)
    requires lines != [] && !lines[0].CloseBrace?
    ensures var line, rest := lines[0], lines[1..];
      && (line.OpenFunction? ==>
            && ParserEmits(lines, loops, functions) == ParserEmits(rest, loops, functions + 1)
            && UsualEmits(lines, kinds) == UsualEmits(rest, kinds + [false])
            && (DepthsAgree(lines, loops, functions, kinds) <==> DepthsAgree(rest, loops, functions + 1, kinds + [false])))
      && (line.Statement? ==>
            && ParserEmits(lines, loops, functions) == [line] + ParserEmits(rest, loops, functions)
            && UsualEmits(lines, kinds) == [line] + UsualEmits(rest, kinds)
            && (DepthsAgree(lines, loops, functions, kinds) <==>
                  loops == Loops(kinds) && DepthsAgree(rest, loops, functions, kinds)))
      && (line.OpenLoop? ==>
            && ParserEmits(lines, loops, functions) == [line] + ParserEmits(rest, loops + 1, functions)
            && UsualEmits(lines, kinds) == [line] + UsualEmits(rest, kinds + [true])
            && (DepthsAgree(lines, loops, functions, kinds) <==>
                  loops == Loops(kinds) && DepthsAgree(rest, loops + 1, functions, kinds + [true])))
      && (line.Ignored? ==>
            && ParserEmits(lines, loops, functions) == ParserEmits(rest, loops, functions)
            && UsualEmits(lines, kinds) == UsualEmits(rest, kinds)
            && (DepthsAgree(lines, loops, functions, kinds) <==> DepthsAgree(rest, loops, functions, kinds)))
  {
    hide Loops;
  }

  lemma BraceEmits(lines: seq<Line>, loops: nat, functions: nat, kinds: seq<bool>)
    requires lines != [] && lines[0].CloseBrace? && kinds != [] && loops + functions == |kinds|
    ensures var rest, outer := lines[1..], kinds[..|kinds| - 1];
      && (loops > 0 ==> ParserEmits(lines, loops, functions) == [END] + ParserEmits(rest, loops - 1, functions))
      && (loops == 0 ==> ParserEmits(lines, loops, functions) == ParserEmits(rest, 0, functions - 1))
      && (kinds[|kinds| - 1] ==> UsualEmits(lines, kinds) == [END] + UsualEmits(rest, outer))
      && (!kinds[|kinds| - 1] ==> UsualEmits(lines, kinds) == UsualEmits(rest, outer))
      && (loops > 0 ==> (DepthsAgree(lines, loops, functions, kinds) <==> DepthsAgree(rest, loops - 1, functions, outer)))
      && (loops == 0 ==> (DepthsAgree(lines, loops, functions, kinds) <==> DepthsAgree(rest, 0, functions - 1, outer)))
  {
    var usual := UsualEmits(lines[1..], kinds[..|kinds| - 1]);
    assert [] + usual == usual;
  }

  lemma EndsFirst(n: nat)
    requires n > 0
    ensures Ends(n) == [END] + Ends(n - 1)
  {
  }

  lemma EndsMove(n: nat, rest: seq<Line>)
    ensures Ends(n) + ([END] + rest) == [END] + (Ends(n) + rest) == Ends(n + 1) + rest
  {
  }

  lemma SameAfterEnd(a: seq<Line>, b: seq<Line>)
    ensures [END] + a == [END] + b <==> a == b
  {
    assert ([END] + a)[1..] == a && ([END] + b)[1..] == b;
  }

  /** What is no loop end meets a loop end unless the parser is ahead by none. */
  lemma SameHead(ahead: nat, line: Line, a: seq<Line>, b: seq<Line>)
    requires line != END
    ensures Ends(ahead) + ([line] + a) == [line] + b <==> ahead == 0 && Ends(ahead) + a == b
  {
    if ahead > 0 {
      assert (Ends(ahead) + ([line] + a))[0] == END && ([line] + b)[0] == line;
    } else {
      assert Ends(0) == [];
      assert ([line] + a)[1..] == a && ([line] + b)[1..] == b;
      assert Ends(0) + ([line] + a) == [line] + a && Ends(0) + a == a;
    }
  }

  // ----- What is emitted is the script of what is read -----

  lemma {:induction false} PrintAppend(a: seq<Item>, b: seq<Item>)
    ensures Print(a + b) == Print(a) + Print(b)
    decreases |a|
  {
    hide PrintItem;
    if a == [] {
      assert a + b == b;
    } else {
      assert (a + b)[1..] == a[1..] + b;
      PrintAppend(a[1..], b);
    }
  }

  lemma PrintMore(items: seq<Item>, item: Item)
    ensures Print(items + [item]) == Print(items) + PrintItem(item)
  {
    hide PrintItem;
    PrintAppend(items, [item]);
    assert [item][1..] == [];
  }

  /** The script of finished items and open loops. */
  function SoFar(open: seq<Open>, items: seq<Item>): seq<Line>
    decreases |open|
  {
    if open == [] then Print(items)
    else
      var o := open[|open| - 1];
      SoFar(open[..|open| - 1], o.before) + [OpenLoop(o.count, o.sleep)] + Print(items)
  }

  lemma SoFarMore(open: seq<Open>, items: seq<Item>, item: Item)
    ensures SoFar(open, items + [item]) == SoFar(open, items) + PrintItem(item)
  {
    hide Print, PrintItem;
    PrintMore(items, item);
  }

  lemma SoFarOpens(open: seq<Open>, o: Open)
    ensures SoFar(open + [o], []) == SoFar(open, o.before) + [OpenLoop(o.count, o.sleep)]
  {
    assert (open + [o])[..|open|] == open;
  }

  lemma SoFarCloses(open: seq<Open>, items: seq<Item>)
    requires open != []
    ensures var o := open[|open| - 1];
      SoFar(open[..|open| - 1], o.before + [Repeat(o.count, o.sleep, items)]) == SoFar(open, items) + [END]
  {
    var o := open[|open| - 1];
    SoFarMore(open[..|open| - 1], o.before, Repeat(o.count, o.sleep, items));
    var head, body := SoFar(open[..|open| - 1], o.before), Print(items);
    assert head + ([OpenLoop(o.count, o.sleep)] + (body + [END])) == (head + [OpenLoop(o.count, o.sleep)] + body) + [END];
  }

  lemma {:induction false} ParserPrints(lines: seq<Line>, open: seq<Open>, items: seq<Item>, functions: nat, used: nat)
    requires Build(lines, open, items, functions, used).Accepted?
    ensures Balanced(lines, |open| + functions)
    ensures Print(Build(lines, open, items, functions, used).items)
         == SoFar(open, items) + ParserEmits(lines, |open|, functions)
    decreases |lines|
  {
    hide SoFar, Print, ParserEmits;
    if lines == [] {
      Finished(items);
      NothingEmits(|open|, functions, []);
    } else {
      var line, rest := lines[0], lines[1..];
      if !line.CloseBrace? { LineEmits(lines, |open|, functions, []); }
      if line.OpenFunction? {
        ParserPrints(rest, open, items, functions + 1, used);
      } else if line.Statement? {
        ParserPrints(rest, open, items + [Action(line.id)], functions, used + 1);
        SoFarMore(open, items, Action(line.id));
      } else if line.OpenLoop? {
        var o := Open(line.count, line.sleep, items);
        ParserPrints(rest, open + [o], [], functions, used + 1);
        SoFarOpens(open, o);
      } else if line.CloseBrace? {
        ParserBrace(lines, open, items, functions, used);
      } else {
        ParserPrints(rest, open, items, functions, used);
      }
    }
  }

  lemma {:induction false} ParserBrace(lines: seq<Line>, open: seq<Open>, items: seq<Item>, functions: nat, used: nat)
    requires lines != [] && lines[0].CloseBrace? && Build(lines, open, items, functions, used).Accepted?
    ensures Balanced(lines, |open| + functions)
    ensures Print(Build(lines, open, items, functions, used).items)
         == SoFar(open, items) + ParserEmits(lines, |open|, functions)
    decreases |lines|, 0
  {
    hide SoFar, Print;
    var rest := lines[1..];
    if open != [] {
      var o := open[|open| - 1];
      ParserPrints(rest, open[..|open| - 1], o.before + [Repeat(o.count, o.sleep, items)], functions, used + 1);
      SoFarCloses(open, items);
      var more := ParserEmits(rest, |open| - 1, functions);
      assert (SoFar(open, items) + [END]) + more == SoFar(open, items) + ([END] + more);
    } else {
      ParserPrints(rest, open, items, functions - 1, used);
    }
  }

  lemma Finished(items: seq<Item>)
    ensures SoFar([], items) == Print(items) && Print(items) + [] == Print(items)
  {
  }

  /** The loops among the open blocks. */
  function OpenLoops(blocks: seq<Block>): seq<Open> {
    if blocks == [] then []
    else
      var b := blocks[|blocks| - 1];
      OpenLoops(blocks[..|blocks| - 1]) + if b.LoopBlock? then [b.open] else []
  }

  lemma LastOpen(blocks: seq<Block>, b: Block)
    ensures OpenLoops(blocks + [b]) == OpenLoops(blocks) + if b.LoopBlock? then [b.open] else []
  {
    assert (blocks + [b])[..|blocks|] == blocks;
  }

  /** Without limits the usual reading accepts every balanced script. */
  lemma {:induction false} UsualPrints(lines: seq<Line>, blocks: seq<Block>, items: seq<Item>, used: nat)
    requires Balanced(lines, |blocks|)
    ensures Read(lines, blocks, items, used, false).Accepted?
    ensures Print(Read(lines, blocks, items, used, false).items)
         == SoFar(OpenLoops(blocks), items) + UsualEmits(lines, Kinds(blocks))
    decreases |lines|
  {
    hide SoFar, Print, Kinds, OpenLoops;
    if lines == [] {
      assert OpenLoops([]) == [] by { NoBlocks(); }
      Finished(items);
    } else {
      var line, rest := lines[0], lines[1..];
      if line.OpenFunction? {
        UsualPrints(rest, blocks + [FunctionBlock], items, used);
        LastBlock(blocks, FunctionBlock);
        LastOpen(blocks, FunctionBlock);
        assert OpenLoops(blocks) + [] == OpenLoops(blocks);
      } else if line.Statement? {
        UsualPrints(rest, blocks, items + [Action(line.id)], used + 1);
        SoFarMore(OpenLoops(blocks), items, Action(line.id));
      } else if line.OpenLoop? {
        var o := Open(line.count, line.sleep, items);
        UsualPrints(rest, blocks + [LoopBlock(o)], [], used + 1);
        LastBlock(blocks, LoopBlock(o));
        LastOpen(blocks, LoopBlock(o));
        SoFarOpens(OpenLoops(blocks), o);
      } else if line.CloseBrace? {
        UsualBrace(lines, blocks, items, used);
      } else {
        UsualPrints(rest, blocks, items, used);
      }
    }
  }

  lemma NoBlocks()
    ensures OpenLoops([]) == [] && Kinds([]) == []
  {
  }

  lemma {:induction false} UsualBrace(lines: seq<Line>, blocks: seq<Block>, items: seq<Item>, used: nat)
    requires lines != [] && lines[0].CloseBrace? && Balanced(lines, |blocks|)
    ensures Read(lines, blocks, items, used, false).Accepted?
    ensures Print(Read(lines, blocks, items, used, false).items)
         == SoFar(OpenLoops(blocks), items) + UsualEmits(lines, Kinds(blocks))
    decreases |lines|, 0
  {
    hide SoFar, Print, Kinds, OpenLoops;
    var rest := lines[1..];
    var outer, b := blocks[..|blocks| - 1], blocks[|blocks| - 1];
    assert blocks == outer + [b];
    LastBlock(outer, b);
    LastOpen(outer, b);
    assert Kinds(blocks)[..|blocks| - 1] == Kinds(outer) && Kinds(blocks)[|blocks| - 1] == b.LoopBlock?;
    var usual := UsualEmits(rest, Kinds(outer));
    if b.LoopBlock? {
      var o := b.open;
      UsualPrints(rest, outer, o.before + [Repeat(o.count, o.sleep, items)], used + 1);
      assert OpenLoops(blocks)[..|OpenLoops(blocks)| - 1] == OpenLoops(outer);
      SoFarCloses(OpenLoops(blocks), items);
      assert (SoFar(OpenLoops(blocks), items) + [END]) + usual == SoFar(OpenLoops(blocks), items) + ([END] + usual);
    } else {
      UsualPrints(rest, outer, items, used);
      assert OpenLoops(outer) + [] == OpenLoops(outer) && [] + usual == usual;
    }
  }

  // ----- A script tells its nesting -----

  lemma {:induction false} PrintReads(items: seq<Item>, rest: seq<Line>, blocks: seq<Block>, before: seq<Item>, used: nat)
    ensures Read(Print(items) + rest, blocks, before, used, false)
         == Read(rest, blocks, before + items, used + Length(items), false)
    decreases items
  {
    hide Read, Print, PrintItem, Length;
    if items == [] {
      PrintsNothing();
      assert [] + rest == rest && before + [] == before;
    } else {
      var item, more := items[0], items[1..];
      PrintStep(items);
      assert (PrintItem(item) + Print(more)) + rest == PrintItem(item) + (Print(more) + rest);
      ItemReads(item, Print(more) + rest, blocks, before, used);
      PrintReads(more, rest, blocks, before + [item], used + LengthOf(item));
      assert (before + [item]) + more == before + items;
    }
  }

  function LengthOf(item: Item): nat { if item.Action? then 1 else 2 + Length(item.body) }

  lemma PrintsNothing()
    ensures Print([]) == [] && Length([]) == 0
  {
  }

  lemma PrintStep(items: seq<Item>)
    requires items != []
    ensures Print(items) == PrintItem(items[0]) + Print(items[1..])
    ensures Length(items) == LengthOf(items[0]) + Length(items[1..])
  {
  }

  lemma {:induction false} ItemReads(item: Item, rest: seq<Line>, blocks: seq<Block>, before: seq<Item>, used: nat)
    ensures Read(PrintItem(item) + rest, blocks, before, used, false)
         == Read(rest, blocks, before + [item], used + LengthOf(item), false)
    decreases item
  {
    hide Read, Print, Length;
    if item.Action? {
      ReadStep(Statement(item.id), rest, blocks, before, used);
    } else {
      var o := Open(item.count, item.sleep, before);
      var inner := Print(item.body) + ([END] + rest);
      assert PrintItem(item) + rest == [OpenLoop(o.count, o.sleep)] + inner;
      ReadStep(OpenLoop(o.count, o.sleep), inner, blocks, before, used);
      PrintReads(item.body, [END] + rest, blocks + [LoopBlock(o)], [], used + 1);
      assert [] + item.body == item.body;
      ReadStep(END, rest, blocks + [LoopBlock(o)], item.body, used + 1 + Length(item.body));
      assert (blocks + [LoopBlock(o)])[..|blocks|] == blocks;
    }
  }

  lemma ReadStep(line: Line, rest: seq<Line>, blocks: seq<Block>, items: seq<Item>, used: nat)
    ensures line.Statement? ==>
      Read([line] + rest, blocks, items, used, false) == Read(rest, blocks, items + [Action(line.id)], used + 1, false)
    ensures line.OpenLoop? ==>
      Read([line] + rest, blocks, items, used, false)
        == Read(rest, blocks + [LoopBlock(Open(line.count, line.sleep, items))], [], used + 1, false)
    ensures line == END && blocks != [] && blocks[|blocks| - 1].LoopBlock? ==>
      var o := blocks[|blocks| - 1].open;
      Read([line] + rest, blocks, items, used, false)
         == Read(rest, blocks[..|blocks| - 1], o.before + [Repeat(o.count, o.sleep, items)], used + 1, false)
  {
    assert ([line] + rest)[0] == line && ([line] + rest)[1..] == rest;
  }

  lemma PrintIsInjective(a: seq<Item>, b: seq<Item>)
    ensures Print(a) == Print(b) <==> a == b
  {
    hide Read, Print;
    if Print(a) == Print(b) {
      PrintReads(a, [], [], [], 0);
      PrintReads(b, [], [], [], 0);
      assert [] + a == a && [] + b == b;
      ReadNothing(a, Length(a));
      ReadNothing(b, Length(b));
    }
  }

  lemma ReadNothing(items: seq<Item>, used: nat)
    ensures Read([], [], items, used, false) == Accepted(items)
  {
  }

  // ----- The two readings -----

  function Usual(lines: seq<Line>, checked: bool): Parsed { Read(lines, [], [], 0, checked) }

  /** For every script the parser accepts the usual reading has a nesting as well, and it is the same one if and only if
      both rules have the same number of loops open at every statement and every loop begin. */
  lemma NestingIsKept(lines: seq<Line>)
    requires Parse(lines).Accepted?
    ensures Usual(lines, false).Accepted?
    ensures Parse(lines).items == Usual(lines, false).items <==> DepthsAgree(lines, 0, 0, [])
  {
    hide Build, Read, Print, ParserEmits, UsualEmits;
    ParserPrints(lines, [], [], 0, 0);
    UsualPrints(lines, [], [], 0);
    NoBlocks();
    SameEmission(lines, 0, 0, []);
    assert Ends(0) == [];
    assert Ends(0) + ParserEmits(lines, 0, 0) == ParserEmits(lines, 0, 0);
    Finished([]);
    PrintsNothing();
    assert [] + ParserEmits(lines, 0, 0) == ParserEmits(lines, 0, 0);
    assert [] + UsualEmits(lines, []) == UsualEmits(lines, []);
    PrintIsInjective(Parse(lines).items, Usual(lines, false).items);
  }

  /** Scripts that open no function inside a loop, accepted or refused, are read as usual. */
  lemma NoFunctionInLoop(lines: seq<Line>)
    requires FunctionsOutside(lines, 0)
    ensures Parse(lines) == Usual(lines, true)
  {
    ReadsAsUsual(lines, [], [], 0, 0);
    assert Stack([], 0) == [];
  }
}
