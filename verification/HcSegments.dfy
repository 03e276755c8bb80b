/** What the prefix rewriter deletes, seen from a text put together from code, string literals and comments: every
    occurrence in code, and nothing else. */
module HcSegments {
  import opened HcPrefixes

  // ----- Nothing in code is forgotten -----

  /** Without an exposed prefix, every occurrence of a prefix that starts in ordinary code is deleted. */
  lemma {:induction false} EveryOccurrenceGoes(text: string, prefixes: seq<string>, i: nat, mode: Mode, j: nat, p: string)
    requires i <= j < |text| && p in prefixes && Occurs(text, j, p)
    requires forall k :: 0 <= k < |prefixes| ==> !Exposed(prefixes, k)
    requires Ordinary(text, i, mode)[j - i]
    ensures !Kept(text, prefixes, i, mode)[j - i]
    decreases |text| - i
  {
    hide Kept, Ordinary, Scan, Harmless, Occurs, Exposed, FirstAt;
    KeptStep(text, prefixes, i, mode);
    OrdinaryStep(text, i, mode);
    var (n, next) := Scan(text, i, mode);
    var k := FirstAt(text, i, prefixes);
    OneInCode(text, i, mode);
    SomeAt(text, i, prefixes, p);
    if mode == Normal && next == Normal && k < |prefixes| {
      if !Harmless(prefixes[k]) { FirstIsExposed(text, i, prefixes); }
      HarmlessOccurrence(text, i, prefixes[k]);
      var m := |prefixes[k]| + 1;
      if j >= i + m { EveryOccurrenceGoes(text, prefixes, i + m, Normal, j, p); }
    } else if j >= i + n {
      EveryOccurrenceGoes(text, prefixes, i + n, next, j, p);
    }
  }

  lemma OneInCode(text: string, i: nat, mode: Mode)
    requires i < |text|
    ensures var (n, next) := Scan(text, i, mode); mode == Normal && next == Normal ==> n == 1
  {
  }

  lemma SomeAt(text: string, i: nat, prefixes: seq<string>, p: string)
    requires p in prefixes
    ensures Occurs(text, i, p) ==> FirstAt(text, i, prefixes) < |prefixes|
  {
    hide Occurs, FirstAt;
    var j :| 0 <= j < |prefixes| && prefixes[j] == p;
  }

  // ----- Texts put together -----

  /** Code without quotes and comments, a string literal given by its characters, and the two kinds of comment. */
  datatype Segment = Code(text: string) | Str(chars: string) | Line(text: string) | Block(text: string)

  function EscapeChar(c: char): string { if c == '"' || c == '\\' then ['\\', c] else [c] }

  function Escaped(chars: string): string {
    if chars == "" then "" else EscapeChar(chars[0]) + Escaped(chars[1..])
  }

  function Written(s: Segment): string {
    match s
    case Code(text) => text
    case Str(chars) => "\"" + (Escaped(chars) + "\"")
    case Line(text) => "//" + (text + "\n")
    case Block(text) => "/*" + (text + "*/")
  }

  function WrittenAll(ss: seq<Segment>): string {
    if ss == [] then "" else Written(ss[0]) + WrittenAll(ss[1..])
  }

  /** Code holds no quote and no slash; a line comment no newline; the end of a block comment is its first. */
  predicate Proper(s: Segment) {
    match s
    case Code(text) => forall i :: 0 <= i < |text| ==> text[i] != '"' && text[i] != '/'
    case Str(_) => true
    case Line(text) => '\n' !in text
    case Block(text) => forall i :: 0 <= i < |text| - 1 && text[i] == '*' ==> text[i + 1] != '/'
  }

  /** Only code is ordinary. */
  function Marks(ss: seq<Segment>): seq<bool> {
    if ss == [] then [] else Repeat(ss[0].Code?, |Written(ss[0])|) + Marks(ss[1..])
  }

  /** n characters from i on are taken in one mode and leave the scanner in another. */
  ghost predicate Runs(text: string, i: nat, n: nat, from: Mode, to: Mode, b: bool)
  {
    i + n <= |text| && Ordinary(text, i, from) == Repeat(b, n) + Ordinary(text, i + n, to)
  }

  lemma RunsOne(text: string, i: nat, mode: Mode)
    requires i < |text|
    ensures var (n, next) := Scan(text, i, mode); Runs(text, i, n, mode, next, mode == Normal && next == Normal)
  {
    hide Scan, Ordinary;
    OrdinaryStep(text, i, mode);
  }

  lemma RunsTwice(text: string, i: nat, n: nat, m: nat, a: Mode, b: Mode, c: Mode, x: bool)
    requires Runs(text, i, n, a, b, x) && Runs(text, i + n, m, b, c, x)
    ensures Runs(text, i, n + m, a, c, x)
  {
    hide Ordinary;
    assert Repeat(x, n) + (Repeat(x, m) + Ordinary(text, i + n + m, c)) == Repeat(x, n + m) + Ordinary(text, i + n + m, c);
  }

  lemma RunsNothing(text: string, i: nat, mode: Mode, x: bool)
    requires i <= |text|
    ensures Runs(text, i, 0, mode, mode, x)
  {
    hide Ordinary;
    assert Repeat(x, 0) == [];
  }

  predicate At(text: string, i: nat, part: string) { i + |part| <= |text| && text[i..i + |part|] == part }

  lemma AtSplit(text: string, i: nat, a: string, b: string)
    requires At(text, i, a + b)
    ensures At(text, i, a) && At(text, i + |a|, b)
  {
    assert text[i..i + |a|] == (a + b)[..|a|];
    assert text[i + |a|..i + |a| + |b|] == (a + b)[|a|..];
  }

  lemma AtChars(text: string, i: nat, part: string)
    requires At(text, i, part)
    ensures forall k :: 0 <= k < |part| ==> text[i + k] == part[k]
  {
    forall k | 0 <= k < |part| ensures text[i + k] == part[k] { assert text[i..i + |part|][k] == part[k]; }
  }

  lemma {:induction false} CodeRuns(text: string, i: nat, part: string)
    requires At(text, i, part) && forall k :: 0 <= k < |part| ==> part[k] != '"' && part[k] != '/'
    ensures Runs(text, i, |part|, Normal, Normal, true)
    decreases |part|
  {
    hide Runs, At;
    if part == "" {
      PlaceInside(text, i, part);
      RunsNothing(text, i, Normal, true);
    } else {
      assert part == part[..1] + part[1..];
      AtSplit(text, i, part[..1], part[1..]);
      AtChars(text, i, part);
      PlaceInside(text, i, part);
      RunsOne(text, i, Normal);
      CodeRuns(text, i + 1, part[1..]);
      RunsTwice(text, i, 1, |part| - 1, Normal, Normal, Normal, true);
    }
  }

  lemma PlaceInside(text: string, i: nat, part: string)
    requires At(text, i, part)
    ensures i + |part| <= |text|
  {
  }

  lemma {:induction false} StringRuns(text: string, i: nat, chars: string)
    requires At(text, i, Escaped(chars) + "\"")
    ensures Runs(text, i, |Escaped(chars)| + 1, InString, Normal, false)
    decreases |chars|
  {
    hide Runs, At;
    PlaceInside(text, i, Escaped(chars) + "\"");
    if chars == "" {
      var quote := "\"";
      assert Escaped(chars) + "\"" == quote;
      AtChars(text, i, quote);
      assert text[i + 0] == quote[0];
      RunsOne(text, i, InString);
    } else {
      var head := EscapeChar(chars[0]);
      assert Escaped(chars) + "\"" == head + (Escaped(chars[1..]) + "\"");
      AtSplit(text, i, head, Escaped(chars[1..]) + "\"");
      AtChars(text, i, head);
      assert text[i + 0] == head[0] && (|head| == 2 ==> text[i + 1] == head[1]);
      RunsOne(text, i, InString);
      StringRuns(text, i + |head|, chars[1..]);
      RunsTwice(text, i, |head|, |Escaped(chars[1..])| + 1, InString, InString, Normal, false);
    }
  }

  lemma {:induction false} LineRuns(text: string, i: nat, part: string)
    requires At(text, i, part + "\n") && '\n' !in part
    ensures Runs(text, i, |part| + 1, LineComment, Normal, false)
    decreases |part|
  {
    hide Runs, At;
    PlaceInside(text, i, part + "\n");
    AtChars(text, i, part + "\n");
    assert text[i + 0] == (part + "\n")[0];
    RunsOne(text, i, LineComment);
    if part != "" {
      assert part[0] in part;
      assert part + "\n" == part[..1] + (part[1..] + "\n");
      AtSplit(text, i, part[..1], part[1..] + "\n");
      LineRuns(text, i + 1, part[1..]);
      RunsTwice(text, i, 1, |part|, LineComment, LineComment, Normal, false);
    }
  }

  lemma {:induction false} BlockRuns(text: string, i: nat, part: string)
    requires At(text, i, part + "*/") && forall k :: 0 <= k < |part| - 1 && part[k] == '*' ==> part[k + 1] != '/'
    ensures Runs(text, i, |part| + 2, BlockComment, Normal, false)
    decreases |part|
  {
    hide Runs, At;
    var all := part + "*/";
    PlaceInside(text, i, all);
    AtChars(text, i, all);
    RunsOne(text, i, BlockComment);
    if part != "" {
      assert text[i] == all[0] && text[i + 1] == all[1];
      assert all == part[..1] + (part[1..] + "*/");
      AtSplit(text, i, part[..1], part[1..] + "*/");
      BlockRuns(text, i + 1, part[1..]);
      RunsTwice(text, i, 1, |part| + 1, BlockComment, BlockComment, Normal, false);
    } else {
      assert text[i] == all[0] && text[i + 1] == all[1];
    }
  }

  lemma SegmentRuns(text: string, i: nat, s: Segment)
    requires Proper(s) && At(text, i, Written(s))
    ensures Runs(text, i, |Written(s)|, Normal, Normal, s.Code?)
  {
    hide Runs, At, Escaped;
    PlaceInside(text, i, Written(s));
    AtChars(text, i, Written(s));
    match s {
      case Code(part) => CodeRuns(text, i, part);
      case Str(chars) =>
        RunsOne(text, i, Normal);
        AtSplit(text, i, "\"", Escaped(chars) + "\"");
        StringRuns(text, i + 1, chars);
        RunsTwice(text, i, 1, |Escaped(chars)| + 1, Normal, InString, Normal, false);
      case Line(part) =>
        assert Written(s)[0] == '/' && Written(s)[1] == '/';
        RunsOne(text, i, Normal);
        AtSplit(text, i, "//", part + "\n");
        LineRuns(text, i + 2, part);
        RunsTwice(text, i, 2, |part| + 1, Normal, LineComment, Normal, false);
      case Block(part) =>
        assert Written(s)[0] == '/' && Written(s)[1] == '*';
        RunsOne(text, i, Normal);
        AtSplit(text, i, "/*", part + "*/");
        BlockRuns(text, i + 2, part);
        RunsTwice(text, i, 2, |part| + 2, Normal, BlockComment, Normal, false);
    }
  }

  /** In a text put together from segments exactly the code is ordinary. */
  lemma {:induction false} OrdinaryIsCode(text: string, i: nat, ss: seq<Segment>)
    requires (forall k :: 0 <= k < |ss| ==> Proper(ss[k])) && i <= |text| && text[i..] == WrittenAll(ss)
    ensures Ordinary(text, i, Normal) == Marks(ss)
    decreases |ss|
  {
    hide Runs, Proper, Written, Ordinary;
    if ss != [] {
      var n := |Written(ss[0])|;
      assert text[i..i + n] == text[i..][..n] == Written(ss[0]);
      assert text[i + n..] == text[i..][n..] == WrittenAll(ss[1..]);
      SegmentRuns(text, i, ss[0]);
      forall k | 0 <= k < |ss[1..]| ensures Proper(ss[1..][k]) { assert ss[1..][k] == ss[k + 1]; }
      OrdinaryIsCode(text, i + n, ss[1..]);
      RunsUnfold(text, i, n, ss[0].Code?);
    }
  }

  lemma RunsUnfold(text: string, i: nat, n: nat, b: bool)
    requires Runs(text, i, n, Normal, Normal, b)
    ensures i + n <= |text| && Ordinary(text, i, Normal) == Repeat(b, n) + Ordinary(text, i + n, Normal)
  {
  }

  /** For prefixes that are not exposed: in a text put together from segments a character is deleted only in code, and
      every occurrence of a prefix that starts in code goes. */
  lemma DeletesInCode(ss: seq<Segment>, prefixes: seq<string>, j: nat)
    requires forall k :: 0 <= k < |ss| ==> Proper(ss[k])
    requires forall k :: 0 <= k < |prefixes| ==> !Exposed(prefixes, k)
    requires j < |WrittenAll(ss)|
    ensures var text := WrittenAll(ss);
      var kept := Kept(text, prefixes, 0, Normal);
      && |Marks(ss)| == |text|
      && (!kept[j] ==> Marks(ss)[j])
      && (Marks(ss)[j] && (exists p :: p in prefixes && Occurs(text, j, p)) ==> !kept[j])
  {
    hide Kept, Ordinary, Occurs, Exposed, Proper, Marks;
    var text := WrittenAll(ss);
    assert text[0..] == text;
    OrdinaryIsCode(text, 0, ss);
    OnlyCodeIsDeleted(text, prefixes, 0, Normal, j);
    if p :| p in prefixes && Occurs(text, j, p) {
      if Marks(ss)[j] { EveryOccurrenceGoes(text, prefixes, 0, Normal, j, p); }
    }
  }
}
