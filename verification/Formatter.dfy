/** The source formatter (tools/hosc_cli.c, format_source_text): one pass into a growing buffer that expands
    tabs, unifies line breaks, drops spaces before them and ends the text with one. */
module Formatter {
  const TAB_WIDTH: nat := 4

  predicate IsBreak(c: char) { c == '\n' || c == '\r' }

  /** The position of the first line break, or the length of the text. */
  function LineEnd(text: string): (n: nat)
    ensures n <= |text|
    ensures n < |text| ==> IsBreak(text[n])
    ensures forall i :: 0 <= i < n ==> !IsBreak(text[i])
  {
    if text == "" || IsBreak(text[0]) then 0 else 1 + LineEnd(text[1..])
  }

  /** A carriage return and a newline are one break. */
  function BreakLength(text: string, n: nat): (r: nat)
    requires n < |text| && IsBreak(text[n])
    ensures 1 <= r && n + r <= |text|
  {
    if text[n] == '\r' && n + 1 < |text| && text[n + 1] == '\n' then 2 else 1
  }

  function Blanks(n: nat): string { seq(n, _ => ' ') }

  function Expand(line: string): string {
    if line == "" then "" else (if line[0] == '\t' then Blanks(TAB_WIDTH) else [line[0]]) + Expand(line[1..])
  }

  /** Without the spaces at the end. */
  function Strip(line: string): (r: string)
    ensures r <= line
    ensures r != "" ==> r[|r| - 1] != ' '
  {
    if line != "" && line[|line| - 1] == ' ' then Strip(line[..|line| - 1]) else line
  }

  /** The text line by line.  "first" says that nothing has been written yet; an empty last line adds nothing
      behind another line. */
  function FormatLines(text: string, first: bool): string
    decreases |text|
  {
    var n := LineEnd(text);
    var line := Strip(Expand(text[..n]));
    if n == |text| then (if line == "" && !first then "" else line + "\n")
    else line + "\n" + FormatLines(text[n + BreakLength(text, n)..], false)
  }

  function Format(text: string): string { FormatLines(text, true) }

  // ----- The normal form -----

  /** No tab, no carriage return, no space in front of a newline. */
  predicate Clean(text: string) {
    forall i :: 0 <= i < |text| ==>
      text[i] != '\t' && text[i] != '\r' && (text[i] == '\n' && i > 0 ==> text[i - 1] != ' ')
  }

  predicate EndsLine(text: string) { text != "" && text[|text| - 1] == '\n' }

  predicate Normal(text: string) { Clean(text) && EndsLine(text) }

  /** Text within a line, without tabs. */
  predicate Plain(line: string) {
    forall i :: 0 <= i < |line| ==> line[i] != '\n' && line[i] != '\r' && line[i] != '\t'
  }

  lemma {:induction false} ExpandIsPlain(line: string)
    requires forall i :: 0 <= i < |line| ==> !IsBreak(line[i])
    ensures Plain(Expand(line))
    ensures '\t' !in line ==> Expand(line) == line
  {
    if line != "" {
      ExpandIsPlain(line[1..]);
      if '\t' !in line { assert [line[0]] + line[1..] == line; }
    }
  }

  /** A clean line in front of clean text. */
  lemma CleanLine(line: string, rest: string)
    requires Clean(rest)
    requires Plain(line)
    requires line != "" ==> line[|line| - 1] != ' '
    ensures Clean(line + "\n" + rest)
  {
    var all := line + "\n" + rest;
    forall i | 0 <= i < |all|
      ensures all[i] != '\t' && all[i] != '\r' && (all[i] == '\n' && i > 0 ==> all[i - 1] != ' ')
    {
      if i < |line| {
        assert all[i] == line[i];
      } else if i == |line| {
        if i > 0 { assert all[i - 1] == line[i - 1]; }
      } else {
        assert all[i] == rest[i - |line| - 1];
        if i > |line| + 1 { assert all[i - 1] == rest[i - |line| - 2]; }
      }
    }
  }

  /** The first line of a text as it is written. */
  function FirstLine(text: string): string { Strip(Expand(text[..LineEnd(text)])) }

  lemma FormatStep(text: string, first: bool)
    ensures LineEnd(text) == |text| && FirstLine(text) == "" && !first ==> FormatLines(text, first) == ""
    ensures LineEnd(text) == |text| && !(FirstLine(text) == "" && !first) ==> FormatLines(text, first) == FirstLine(text) + "\n"
    ensures LineEnd(text) < |text| ==>
      FormatLines(text, first) ==
        FirstLine(text) + "\n" + FormatLines(text[LineEnd(text) + BreakLength(text, LineEnd(text))..], false)
  {
    hide Strip, Expand, BreakLength;
  }

  lemma FirstLineIsPlain(text: string)
    ensures var line := FirstLine(text);
      && Plain(line)
      && (line != "" ==> line[|line| - 1] != ' ')
  {
    ExpandIsPlain(text[..LineEnd(text)]);
    var line, e := FirstLine(text), Expand(text[..LineEnd(text)]);
    assert forall i :: 0 <= i < |line| ==> line[i] == e[i];
  }

  lemma {:induction false} FormattedIsClean(text: string, first: bool)
    ensures var r := FormatLines(text, first);
      Clean(r) && (r != "" ==> EndsLine(r)) && (first ==> r != "")
    decreases |text|
  {
    hide FormatLines, FirstLine, Clean;
    var n := LineEnd(text);
    var line := FirstLine(text);
    FormatStep(text, first);
    FirstLineIsPlain(text);
    NothingIsClean();
    if n == |text| {
      CleanLine(line, "");
      assert line + "\n" + "" == line + "\n";
    } else {
      var tail := text[n + BreakLength(text, n)..];
      FormattedIsClean(tail, false);
      CleanLine(line, FormatLines(tail, false));
    }
  }

  lemma NothingIsClean()
    ensures Clean("")
  {
  }

  lemma {:induction false} CleanIsUnchanged(text: string, first: bool)
    requires Clean(text) && (text != "" ==> EndsLine(text)) && (first ==> text != "")
    ensures FormatLines(text, first) == text
    decreases |text|
  {
    hide FormatLines, Expand, Strip, Clean;
    FormatStep(text, first);
    if text == "" {
      NothingYet();
    } else {
      var n := LineEnd(text);
      CleanTail(text, n);
      assert BreakLength(text, n) == 1;
      CleanIsUnchanged(text[n + 1..], false);
      assert text[..n] + "\n" + text[n + 1..] == text;
    }
  }

  lemma NothingYet()
    ensures Expand("") == "" && Strip("") == ""
  {
  }

  /** The first line of a clean text is written as it is, and what follows is clean. */
  lemma CleanTail(text: string, n: nat)
    requires Clean(text) && EndsLine(text) && n == LineEnd(text)
    ensures n < |text| && text[n] == '\n' && FirstLine(text) == text[..n]
    ensures Clean(text[n + 1..]) && (text[n + 1..] != "" ==> EndsLine(text[n + 1..]))
  {
    assert IsBreak(text[|text| - 1]);
    assert text[n] == '\n';
    CleanStays(text, n);
    ExpandIsPlain(text[..n]);
    var tail := text[n + 1..];
    forall i | 0 <= i < |tail|
      ensures tail[i] != '\t' && tail[i] != '\r' && (tail[i] == '\n' && i > 0 ==> tail[i - 1] != ' ')
    {
      assert tail[i] == text[i + n + 1];
      if i > 0 { assert tail[i - 1] == text[i + n]; }
    }
  }

  lemma CleanStays(text: string, n: nat)
    requires Clean(text) && n < |text| && text[n] == '\n'
    ensures '\t' !in text[..n] && Strip(text[..n]) == text[..n]
  {
    if n > 0 { assert text[..n][n - 1] == text[n - 1]; }
  }

  // ----- What becomes of each line -----

  lemma {:induction false} ExpandAppends(a: string, b: string)
    ensures Expand(a + b) == Expand(a) + Expand(b)
  {
    if a == "" {
      assert a + b == b;
    } else {
      assert (a + b)[1..] == a[1..] + b;
      ExpandAppends(a[1..], b);
    }
  }

  /** A tab is four blanks wherever it stands, any other character itself. */
  lemma ExpandOne(c: char)
    ensures Expand([c]) == if c == '\t' then "    " else [c]
  {
    assert [c][1..] == "";
    assert Blanks(4) == "    ";
  }

  /** Only blanks at the end are stripped, and all of them. */
  lemma {:induction false} StripsBlanks(line: string)
    ensures line == Strip(line) + Blanks(|line| - |Strip(line)|)
  {
    if line != "" && line[|line| - 1] == ' ' {
      var front := line[..|line| - 1];
      StripsBlanks(front);
      assert line == front + " ";
      assert Blanks(|front| - |Strip(front)|) + " " == Blanks(|line| - |Strip(line)|);
    } else {
      assert Blanks(0) == "";
    }
  }

  lemma {:induction false} LineEndOf(line: string, rest: string)
    requires (forall i :: 0 <= i < |line| ==> !IsBreak(line[i])) && (rest == "" || IsBreak(rest[0]))
    ensures LineEnd(line + rest) == |line|
  {
    if line == "" {
      assert line + rest == rest;
    } else {
      assert (line + rest)[1..] == line[1..] + rest;
      LineEndOf(line[1..], rest);
    }
  }

  /** A line behind any of the three line breaks, or at the end of the text: it is expanded, stripped and ended by a
      newline, and the next line starts behind its break. */
  lemma LineByLine(line: string, rest: string, first: bool)
    requires forall i :: 0 <= i < |line| ==> !IsBreak(line[i])
    ensures FormatLines(line + ("\n" + rest), first) == Strip(Expand(line)) + "\n" + FormatLines(rest, false)
    ensures FormatLines(line + ("\r\n" + rest), first) == Strip(Expand(line)) + "\n" + FormatLines(rest, false)
    ensures (rest == "" || rest[0] != '\n') ==>
      FormatLines(line + ("\r" + rest), first) == Strip(Expand(line)) + "\n" + FormatLines(rest, false)
    ensures FormatLines(line, first) == if Strip(Expand(line)) == "" && !first then "" else Strip(Expand(line)) + "\n"
  {
    hide Strip, Expand;
    BreakBehind(line, "\n", rest, first);
    BreakBehind(line, "\r\n", rest, first);
    if rest == "" || rest[0] != '\n' { BreakBehind(line, "\r", rest, first); }
    LineEndOf(line, "");
    assert line + "" == line && line[..|line|] == line;
  }

  lemma BreakBehind(line: string, brk: string, rest: string, first: bool)
    requires forall i :: 0 <= i < |line| ==> !IsBreak(line[i])
    requires brk == "\n" || brk == "\r\n" || (brk == "\r" && (rest == "" || rest[0] != '\n'))
    ensures FormatLines(line + (brk + rest), first) == Strip(Expand(line)) + "\n" + FormatLines(rest, false)
  {
    hide Strip, Expand;
    var text, n := line + (brk + rest), |line|;
    LineEndOf(line, brk + rest);
    assert text[..n] == line && text[n] == brk[0];
    assert n + 1 < |text| ==> text[n + 1] == (brk + rest)[1];
    assert BreakLength(text, n) == |brk|;
    assert text[n + |brk|..] == rest;
  }

  /** Everything but blanks, tabs and line breaks. */
  function Ink(text: string): string {
    if text == "" then ""
    else (if text[0] == ' ' || text[0] == '\t' || IsBreak(text[0]) then "" else [text[0]]) + Ink(text[1..])
  }

  lemma {:induction false} InkAppends(a: string, b: string)
    ensures Ink(a + b) == Ink(a) + Ink(b)
  {
    if a == "" {
      assert a + b == b;
    } else {
      assert (a + b)[1..] == a[1..] + b;
      InkAppends(a[1..], b);
    }
  }

  lemma {:induction false} NoInk(text: string)
    requires forall i :: 0 <= i < |text| ==> text[i] == ' ' || IsBreak(text[i])
    ensures Ink(text) == ""
  {
    if text != "" { NoInk(text[1..]); }
  }

  lemma {:induction false} ExpandKeepsInk(line: string)
    ensures Ink(Expand(line)) == Ink(line)
  {
    if line != "" {
      ExpandKeepsInk(line[1..]);
      var head := if line[0] == '\t' then Blanks(TAB_WIDTH) else [line[0]];
      InkAppends(head, Expand(line[1..]));
      if line[0] == '\t' { NoInk(head); } else { assert [line[0]][1..] == ""; }
    }
  }

  lemma StripKeepsInk(line: string)
    ensures Ink(Strip(line)) == Ink(line)
  {
    hide Strip;
    var tail := Blanks(|line| - |Strip(line)|);
    StripsBlanks(line);
    InkAppends(Strip(line), tail);
    NoInk(tail);
  }

  /** Formatting moves no character that can be seen: what is not blank stays, in its order. */
  lemma {:induction false} InkIsKept(text: string, first: bool)
    ensures Ink(FormatLines(text, first)) == Ink(text)
    decreases |text|
  {
    hide FormatLines, FirstLine, Ink, BreakLength;
    var n := LineEnd(text);
    FormatStep(text, first);
    FirstLineInk(text);
    NoInk("\n");
    NoInk("");
    InkAppends(FirstLine(text), "\n");
    if n == |text| {
      assert text[..n] == text;
    } else {
      var m := n + BreakLength(text, n);
      InkIsKept(text[m..], false);
      InkAppends(FirstLine(text) + "\n", FormatLines(text[m..], false));
      BreaksHaveNoInk(text, n);
      assert text == text[..n] + text[n..m] + text[m..];
      InkAppends(text[..n] + text[n..m], text[m..]);
      InkAppends(text[..n], text[n..m]);
    }
  }

  lemma FirstLineInk(text: string)
    ensures Ink(FirstLine(text)) == Ink(text[..LineEnd(text)])
  {
    hide Strip, Expand, Ink;
    ExpandKeepsInk(text[..LineEnd(text)]);
    StripKeepsInk(Expand(text[..LineEnd(text)]));
  }

  lemma BreaksHaveNoInk(text: string, n: nat)
    requires n < |text| && IsBreak(text[n])
    ensures Ink(text[n..n + BreakLength(text, n)]) == ""
  {
    NoInk(text[n..n + BreakLength(text, n)]);
  }

  /** The formatter's result always has the normal form, a text in normal form is left alone, and so formatting
      twice is formatting once and a text is unchanged exactly when it has the normal form already. */
  lemma FormatIsExact(text: string)
    ensures Normal(Format(text))
    ensures Format(text) == text <==> Normal(text)
    ensures Format(Format(text)) == Format(text)
  {
    FormattedIsClean(text, true);
    if Normal(text) { CleanIsUnchanged(text, true); }
    CleanIsUnchanged(Format(text), true);
  }

  // ----- The pass in its own form -----

  /** ensure_capacity: the buffer at least doubles until it is large enough. */
  method EnsureCapacity(buf: array<char>, needed: nat) returns (r: array<char>)
    ensures r.Length >= needed && (r == buf || fresh(r))
    ensures r.Length >= buf.Length && forall i :: 0 <= i < buf.Length ==> r[i] == old(buf[i])
  {
    r := buf;
    if needed <= buf.Length { return; }
    var cap := if buf.Length == 0 then 256 else buf.Length;
    while cap < needed
      invariant cap >= buf.Length && cap > 0
      decreases needed - cap
    {
      cap := cap * 2;
    }
    r := new char[cap](_ => ' ');
    forall i | 0 <= i < buf.Length { r[i] := buf[i]; }
  }

  /** The output buffer: o characters are written, the current line starts at lineStart. */
  class Output {
    var buf: array<char>
    var o: nat
    var lineStart: nat

    ghost predicate Valid()
      reads this
    {
      lineStart <= o < buf.Length
    }

    ghost function Text(): string
      requires Valid()
      reads this, buf
    {
      buf[..o]
    }

    /** The lines that are complete, and the current one. */
    ghost predicate Holds(done: string, line: string)
      requires Valid()
      reads this, buf
    {
      Text() == done + line && lineStart == |done|
    }

    constructor (expected: nat)
      ensures Valid() && fresh(buf) && Holds("", "")
    {
      var none := new char[0];
      var b := EnsureCapacity(none, expected + 8);
      buf := b;
      o, lineStart := 0, 0;
    }

    method Put(c: char, ghost done: string, ghost line: string)
      requires Valid() && Holds(done, line)
      modifies this, buf
      ensures Valid() && (buf == old(buf) || fresh(buf)) && Holds(done, line + [c])
    {
      buf := EnsureCapacity(buf, o + 2);
      assert buf[..o] == done + line;
      buf[o] := c;
      o := o + 1;
      assert buf[..o] == done + (line + [c]);
    }

    method PutTab(ghost done: string, ghost line: string)
      requires Valid() && Holds(done, line)
      modifies this, buf
      ensures Valid() && (buf == old(buf) || fresh(buf)) && Holds(done, line + Blanks(TAB_WIDTH))
    {
      buf := EnsureCapacity(buf, o + TAB_WIDTH + 1);
      assert buf[..o] == done + line;
      for j := 0 to TAB_WIDTH
        invariant Valid() && o + (TAB_WIDTH - j) < buf.Length && (buf == old(buf) || fresh(buf))
        invariant Holds(done, line + Blanks(j))
      {
        buf[o] := ' ';
        o := o + 1;
        assert Blanks(j + 1) == Blanks(j) + [' '];
        assert buf[..o] == done + (line + Blanks(j + 1));
      }
    }

    /** The spaces at the end of the current line go. */
    method DropBlanks(ghost done: string, ghost line: string)
      requires Valid() && Holds(done, line)
      modifies this`o
      ensures Valid() && Holds(done, Strip(line))
    {
      ghost var rest := line;
      while o > lineStart && buf[o - 1] == ' '
        invariant Valid() && Holds(done, rest) && Strip(rest) == Strip(line)
        decreases o
      {
        assert rest[|rest| - 1] == buf[o - 1];
        o := o - 1;
        rest := rest[..|rest| - 1];
        assert buf[..o] == done + rest;
      }
      if rest != "" { assert rest[|rest| - 1] == buf[o - 1]; }
    }

    method EndLine(ghost done: string, ghost line: string)
      requires Valid() && Holds(done, line)
      modifies this, buf
      ensures Valid() && (buf == old(buf) || fresh(buf)) && Holds(done + Strip(line) + "\n", "")
    {
      DropBlanks(done, line);
      Put('\n', done, Strip(line));
      lineStart := o;
      assert done + (Strip(line) + "\n") == (done + Strip(line) + "\n") + "";
    }
  }

  lemma {:induction false} ExpandMore(line: string, c: char)
    ensures Expand(line + [c]) == Expand(line) + if c == '\t' then Blanks(TAB_WIDTH) else [c]
  {
    if line == "" {
      assert "" + [c] == [c] && [c][1..] == "";
      assert Expand([c][1..]) == "";
    } else {
      assert (line + [c])[1..] == line[1..] + [c];
      ExpandMore(line[1..], c);
    }
  }

  lemma {:induction false} LineEndAt(text: string, n: nat)
    requires n <= |text| && (n < |text| ==> IsBreak(text[n]))
    requires forall i :: 0 <= i < n ==> !IsBreak(text[i])
    ensures LineEnd(text) == n
  {
  }

  /** One character that is no line break. */
  method Copy(out: Output, c: char, ghost done: string, ghost raw: string)
    requires out.Valid() && out.Holds(done, Expand(raw)) && !IsBreak(c)
    modifies out, out.buf
    ensures out.Valid() && (out.buf == old(out.buf) || fresh(out.buf)) && out.Holds(done, Expand(raw + [c]))
  {
    hide Expand;
    ExpandMore(raw, c);
    if c == '\t' { out.PutTab(done, Expand(raw)); } else { out.Put(c, done, Expand(raw)); }
  }

  /** The last line, and a newline if one is missing. */
  method Finish(out: Output, ghost text: string, ghost start: nat, ghost done: string) returns (r: string)
    requires start <= |text| && forall k :: start <= k < |text| ==> !IsBreak(text[k])
    requires out.Valid() && out.Holds(done, Expand(text[start..]))
    requires done == "" || done[|done| - 1] == '\n'
    modifies out, out.buf
    ensures r == done + FormatLines(text[start..], done == "")
  {
    hide FormatLines, Expand, Strip, LineEnd;
    ghost var line := Expand(text[start..]);
    out.DropBlanks(done, line);
    LastLine(text, start, done);
    LastOf(out, done, Strip(line));
    if out.o == 0 || out.buf[out.o - 1] != '\n' { out.Put('\n', done, Strip(line)); }
    r := out.buf[..out.o];
  }

  /** The pass over the text: done is what the lines before "start" became. */
  method FormatSource(text: string) returns (r: string)
    ensures r == Format(text)
  {
    hide FormatLines, Expand, Strip, LineEnd;
    var out := new Output(|text|);
    ghost var done, start: nat := "", 0;
    var i := 0;
    assert text[0..] == text;
    NothingYet();
    while i < |text|
      invariant start <= i <= |text| && out.Valid() && fresh(out) && fresh(out.buf)
      invariant out.Holds(done, Expand(text[start..i]))
      invariant forall k :: start <= k < i ==> !IsBreak(text[k])
      invariant done == "" || done[|done| - 1] == '\n'
      invariant done + FormatLines(text[start..], done == "") == Format(text)
    {
      var c := text[i];
      if IsBreak(c) {
        var n := if c == '\r' && i + 1 < |text| && text[i + 1] == '\n' then 2 else 1;
        ghost var line := Expand(text[start..i]);
        out.EndLine(done, line);
        LineDone(text, start, i, done);
        i := i + n;
        done, start := done + Strip(line) + "\n", i;
        assert text[start..i] == "";
      } else {
        assert text[start..i + 1] == text[start..i] + [c];
        Copy(out, c, done, text[start..i]);
        i := i + 1;
      }
    }
    assert text[start..i] == text[start..];
    r := Finish(out, text, start, done);
  }

  lemma LineBreakAt(text: string, start: nat, i: nat)
    requires start <= i < |text| && IsBreak(text[i]) && forall k :: start <= k < i ==> !IsBreak(text[k])
    ensures var rest := text[start..];
      var n := if text[i] == '\r' && i + 1 < |text| && text[i + 1] == '\n' then 2 else 1;
      && LineEnd(rest) == i - start && i - start < |rest| && BreakLength(rest, i - start) == n
      && rest[..i - start] == text[start..i] && rest[i - start + n..] == text[i + n..]
  {
    LineEndAt(text[start..], i - start);
  }

  lemma LineDone(text: string, start: nat, i: nat, done: string)
    requires start <= i < |text| && IsBreak(text[i]) && forall k :: start <= k < i ==> !IsBreak(text[k])
    ensures var n := if text[i] == '\r' && i + 1 < |text| && text[i + 1] == '\n' then 2 else 1;
      done + FormatLines(text[start..], done == "")
        == (done + Strip(Expand(text[start..i])) + "\n") + FormatLines(text[i + n..], false)
  {
    hide FormatLines, Strip, Expand, LineEnd, BreakLength, IsBreak;
    var n := if text[i] == '\r' && i + 1 < |text| && text[i + 1] == '\n' then 2 else 1;
    LineBreakAt(text, start, i);
    FormatStep(text[start..], done == "");
    var line, more := Strip(Expand(text[start..i])), FormatLines(text[i + n..], false);
    assert done + (line + "\n" + more) == (done + line + "\n") + more;
  }

  lemma LastLine(text: string, start: nat, done: string)
    requires start <= |text| && forall k :: start <= k < |text| ==> !IsBreak(text[k])
    ensures var line := Strip(Expand(text[start..]));
      FormatLines(text[start..], done == "") == if line == "" && done != "" then "" else line + "\n"
    ensures text[start..|text|] == text[start..]
    ensures forall k :: 0 <= k < |Strip(Expand(text[start..]))| ==> Strip(Expand(text[start..]))[k] != '\n'
  {
    LineEndAt(text[start..], |text| - start);
    assert text[start..][..|text| - start] == text[start..];
    ExpandIsPlain(text[start..]);
  }

  /** Whether a newline has to be added: done is empty or ends with one, and the line holds none. */
  lemma LastOf(out: Output, done: string, line: string)
    requires out.Valid() && out.Holds(done, line)
    requires done == "" || done[|done| - 1] == '\n'
    requires forall k :: 0 <= k < |line| ==> line[k] != '\n'
    ensures (out.o == 0 || out.buf[out.o - 1] != '\n') <==> !(line == "" && done != "")
  {
    if out.o > 0 { assert out.buf[out.o - 1] == (done + line)[out.o - 1]; }
  }

  /** hosc fmt --check: reports exactly the texts that do not have the normal form. */
  method CheckFormatted(text: string) returns (changed: bool)
    ensures changed <==> !Normal(text)
  {
    var formatted := FormatSource(text);
    changed := |text| != |formatted| || text != formatted;
    FormatIsExact(text);
  }
}
