/** Literals, calls and the properties of audio.play: which tokens give which expression, and which calls are refused. */
module CpCallLaws {
  import opened CpLexer
  import opened EditDistance
  import opened CpExprParser
  import opened CpLevels
  import P = CpPrinter

  // ----- Literals -----

  /** The expression of a literal token. */
  function LiteralOf(t: Token): Expr
    requires t.Num? || t.FloatLit? || t.StrLit? || t.BoolLit?
  {
    match t
    case Num(n) => Number(n)
    case FloatLit(text) => FloatNumber(text)
    case StrLit(s) => Text(s)
    case BoolLit(b) => Boolean(b)
  }

  predicate IsLiteral(t: Token) { t.Num? || t.FloatLit? || t.StrLit? || t.BoolLit? }

  /** A literal of any kind is an expression by itself, floats and booleans included. */
  lemma LiteralParsed(ts: seq<Token>, i: nat, d: nat)
    requires Terminated(ts) && i + 1 < |ts| && IsLiteral(ts[i]) && EndsOperand(ts[i + 1], 0) && d < MAX_PARSE_DEPTH
    ensures ParseExpr(ts, i, d) == Parsed(LiteralOf(ts[i]), i + 1)
  {
    hide ParseTier, EndsOperand;
    LiteralOperand(ts, i, d + 1);
    StopsTiers(ts[i + 1]);
    P.TopTier(ts, i, d + 1);
    P.Climb(ts, i, d + 1, TIERS, 0);
  }

  lemma StopsTiers(t: Token)
    requires EndsOperand(t, 0)
    ensures forall tier: nat :: 0 <= tier < TIERS ==> !InTier(t, tier)
  {
  }

  lemma LiteralOperand(ts: seq<Token>, i: nat, d: nat)
    requires Terminated(ts) && i + 1 < |ts| && IsLiteral(ts[i])
    ensures ParseUnary(ts, i, d) == Parsed(LiteralOf(ts[i]), i + 1)
  {
    hide ParseExpr, ParseCall, ParsePath;
  }

  // ----- Declared functions -----

  /** The token list declares a function of that name somewhere. */
  ghost predicate Declares(ts: seq<Token>, name: string) {
    exists i :: 0 <= i < |ts| - 1 && ts[i] == Word("func") && ts[i + 1] == Ident(name)
  }

  lemma {:induction false} DeclaredFound(ts: seq<Token>, i: nat, name: string)
    requires i <= |ts|
    ensures name in DeclaredFrom(ts, i) <==>
      exists k :: i <= k < |ts| - 1 && ts[k] == Word("func") && ts[k + 1] == Ident(name)
    decreases |ts| - i
  {
    if i < |ts| {
      DeclaredFound(ts, i + 1, name);
      var here := if IsFunctionAt(ts, i) then [ts[i + 1].name] else [];
      assert DeclaredFrom(ts, i) == here + DeclaredFrom(ts, i + 1);
      assert name in here <==> IsFunctionAt(ts, i) && ts[i + 1] == Ident(name);
    }
  }

  // ----- Misspelled calls -----

  /** The scan finds the first word among the closest, if any is within two edits. */
  lemma {:induction false} ClosestIsGood(name: string, before: seq<string>, words: seq<string>, best: Hint)
    requires GoodHint(name, before, best)
    ensures GoodHint(name, before + words, ClosestIn(name, words, best))
    decreases |words|
  {
    hide Distance, Cut;
    if words == [] {
      assert before + words == before;
    } else {
      var d := Distance(Cut(name), Cut(words[0]));
      var next := if d <= 2 && (best.NoHint? || d < Distance(Cut(name), Cut(best.word))) then Hint(words[0]) else best;
      var seen := before + [words[0]];
      if next == best {
        assert GoodHint(name, seen, next) by { KeepHint(name, before, words[0], best); }
      } else {
        assert GoodHint(name, seen, next) by { NewHint(name, before, words[0], best); }
      }
      ClosestIsGood(name, seen, words[1..], next);
      assert seen + words[1..] == before + words;
    }
  }

  lemma KeepHint(name: string, before: seq<string>, word: string, best: Hint)
    requires GoodHint(name, before, best)
    requires var d := Distance(Cut(name), Cut(word)); d > 2 || (best.Hint? && d >= Distance(Cut(name), Cut(best.word)))
    ensures GoodHint(name, before + [word], best)
  {
    hide Distance, Cut;
    var seen := before + [word];
    if best.Hint? {
      var k :| 0 <= k < |before| && before[k] == best.word && Distance(Cut(name), Cut(best.word)) <= 2
        && (forall l :: 0 <= l < |before| ==> Distance(Cut(name), Cut(best.word)) <= Distance(Cut(name), Cut(before[l])))
        && (forall l :: 0 <= l < k ==> Distance(Cut(name), Cut(best.word)) < Distance(Cut(name), Cut(before[l])));
      assert seen[k] == best.word;
      assert forall l :: 0 <= l < k ==> seen[l] == before[l];
    }
  }

  lemma NewHint(name: string, before: seq<string>, word: string, best: Hint)
    requires GoodHint(name, before, best)
    requires var d := Distance(Cut(name), Cut(word)); d <= 2 && (best.NoHint? || d < Distance(Cut(name), Cut(best.word)))
    ensures GoodHint(name, before + [word], Hint(word))
  {
    hide Distance, Cut;
    var seen := before + [word];
    assert seen[|before|] == word;
    forall l | 0 <= l < |before| ensures Distance(Cut(name), Cut(word)) < Distance(Cut(name), Cut(seen[l])) {
      assert seen[l] == before[l];
    }
  }

  /** The words a call is compared with: builtins, keywords and the other functions of the program. */
  function Known(ts: seq<Token>, path: string): seq<string> {
    BUILTINS + EditDistance.KEYWORDS + Without(DeclaredFrom(ts, 0), path)
  }

  lemma {:induction false} WithoutMember(words: seq<string>, name: string, w: string)
    ensures w in Without(words, name) <==> w in words && w != name
  {
    if words != [] { WithoutMember(words[1..], name, w); }
  }

  predicate IsBuiltin(path: string) {
    path == "print" || path == "prints" || path == "window.create" || path == "audio.play" || path == "text.create"
  }

  /** How many edits make a misspelling: one for names of up to four letters, two for longer ones. */
  function Allowed(path: string): nat { if |path| <= 4 then 1 else 2 }

  /** A call is refused if and only if its name is at least three letters long, neither a builtin nor declared anywhere,
      and the first of the closest known words has at least three letters and is close enough. */
  lemma CallRefused(ts: seq<Token>, path: string)
    ensures !CallAccepted(ts, path) <==>
      && !IsBuiltin(path) && !Declares(ts, path) && |path| >= 3
      && exists w :: GoodHint(path, Known(ts, path), Hint(w)) && |w| >= 3 && Distance(Cut(path), Cut(w)) <= Allowed(path)
  {
    hide Distance, Cut, ClosestIn, DeclaredFrom, GoodHint, Declares, Without, EditDistance.KEYWORDS, IsBuiltin, BUILTINS;
    DeclaredSomewhere(ts, path);
    BuiltinsListed(path);
    var known := Known(ts, path);
    TheHint(path, known);
    var hint := ClosestIn(path, known, NoHint);
    forall w | GoodHint(path, known, Hint(w)) ensures hint == Hint(w) { OneGoodHint(path, known, hint, Hint(w)); }
    if hint.Hint? { assert GoodHint(path, known, Hint(hint.word)); }
  }

  lemma DeclaredSomewhere(ts: seq<Token>, path: string)
    ensures path in DeclaredFrom(ts, 0) <==> Declares(ts, path)
  {
    hide DeclaredFrom;
    DeclaredFound(ts, 0, path);
  }

  lemma BuiltinsListed(path: string)
    ensures path in BUILTINS <==> IsBuiltin(path)
  {
  }

  lemma TheHint(path: string, words: seq<string>)
    ensures GoodHint(path, words, ClosestIn(path, words, NoHint))
  {
    hide GoodHint, ClosestIn;
    NothingSeen(path);
    ClosestIsGood(path, [], words, NoHint);
    assert [] + words == words;
  }

  lemma NothingSeen(path: string)
    ensures GoodHint(path, [], NoHint)
  {
  }

  /** There is only one good hint. */
  lemma OneGoodHint(name: string, words: seq<string>, a: Hint, b: Hint)
    requires GoodHint(name, words, a) && GoodHint(name, words, b)
    ensures a == b
  {
    hide Distance, Cut;
  }

  // ----- The properties of audio.play -----

  /** A property: its name and the literal behind the colon. */
  datatype Property = Property(name: string, value: Token)

  predicate ValidProperty(p: Property) { if p.name == "src" then p.value.StrLit? else IsLiteral(p.value) }

  function PropertyTokens(props: seq<Property>): seq<Token> {
    if props == [] then []
    else
      [Ident(props[0].name), Sym(":"), props[0].value]
        + (if |props| == 1 then [] else [Sym(",")] + PropertyTokens(props[1..]))
  }

  function NextSource(p: Property, src: Option<string>): Option<string> {
    if p.name == "src" && p.value.StrLit? then Some(p.value.s) else src
  }

  /** The value of the last src property. */
  function LastSource(props: seq<Property>, src: Option<string>): Option<string> {
    if props == [] then src
    else LastSource(props[1..], NextSource(props[0], src))
  }

  /** Whatever other properties there are, the last source is the argument; without a source the call is refused. */
  lemma {:induction false} ConfigParsed(ts: seq<Token>, props: seq<Property>, i: nat, src: Option<string>)
    requires Terminated(ts) && props != [] && forall k :: 0 <= k < |props| ==> ValidProperty(props[k])
    requires P.At(ts, i, PropertyTokens(props)) && ts[i + |PropertyTokens(props)|] == Sym("}")
    ensures var n := i + |PropertyTokens(props)| + 1;
      ParseConfig(ts, i, src) ==
        match LastSource(props, src)
        case Some(s) => Args([Text(s)], n)
        case None => BadArgs(n, false)
    decreases |props|
  {
    hide P.At, ValidProperty, ParseConfig, PropertyTokens, PropertyRest, LastSource;
    PropertyStep(props);
    LastStep(props, src);
    var p, rest := props[0], PropertyRest(props);
    P.AtSplit(ts, i, [Ident(p.name), Sym(":"), p.value], rest);
    ThreeTokens(ts, i, Ident(p.name), Sym(":"), p.value);
    ConfigStep(ts, i, src, p);
    if |props| > 1 {
      RestStep(ts, props, i + 3);
      ConfigParsed(ts, props[1..], i + 4, NextSource(p, src));
    }
  }

  lemma RestStep(ts: seq<Token>, props: seq<Property>, i: nat)
    requires |props| > 1 && P.At(ts, i, PropertyRest(props)) && forall k :: 0 <= k < |props| ==> ValidProperty(props[k])
    ensures i + 1 < |ts| && ts[i] == Sym(",") && P.At(ts, i + 1, PropertyTokens(props[1..]))
    ensures |PropertyRest(props)| == 1 + |PropertyTokens(props[1..])|
    ensures forall k :: 0 <= k < |props[1..]| ==> ValidProperty(props[1..][k])
  {
    hide P.At, ValidProperty, PropertyTokens;
    P.AtSplit(ts, i, [Sym(",")], PropertyTokens(props[1..]));
    P.AtOne(ts, i, Sym(","));
    forall k | 0 <= k < |props[1..]| ensures ValidProperty(props[1..][k]) { assert props[1..][k] == props[k + 1]; }
  }

  lemma LastStep(props: seq<Property>, src: Option<string>)
    requires props != []
    ensures |props| == 1 ==> LastSource(props, src) == NextSource(props[0], src)
    ensures |props| > 1 ==> LastSource(props, src) == LastSource(props[1..], NextSource(props[0], src))
  {
    if |props| == 1 { assert props[1..] == []; }
  }

  function PropertyRest(props: seq<Property>): seq<Token>
    requires props != []
  {
    if |props| == 1 then [] else [Sym(",")] + PropertyTokens(props[1..])
  }

  lemma PropertyStep(props: seq<Property>)
    requires props != []
    ensures PropertyTokens(props) == [Ident(props[0].name), Sym(":"), props[0].value] + PropertyRest(props)
    ensures |PropertyTokens(props)| == 3 + |PropertyRest(props)| && (|props| == 1 ==> PropertyRest(props) == [])
  {
  }

  /** One property and what stands behind it. */
  lemma ConfigStep(ts: seq<Token>, i: nat, src: Option<string>, p: Property)
    requires Terminated(ts) && i + 3 < |ts| && ts[i] == Ident(p.name) && ts[i + 1] == Sym(":") && ts[i + 2] == p.value
    requires ValidProperty(p)
    ensures var src1 := NextSource(p, src);
      && (ts[i + 3] == Sym(",") ==> i + 4 < |ts| && ParseConfig(ts, i, src) == ParseConfig(ts, i + 4, src1))
      && (ts[i + 3] == Sym("}") ==>
            ParseConfig(ts, i, src) == if src1.Some? then Args([Text(src1.value)], i + 4) else BadArgs(i + 4, false))
  {
    LiteralKinds(p.value);
  }

  lemma LiteralKinds(t: Token)
    ensures IsLiteral(t) <==> t.StrLit? || t.Num? || t.FloatLit? || t.BoolLit?
  {
  }

  lemma ThreeTokens(ts: seq<Token>, i: nat, a: Token, b: Token, c: Token)
    requires P.At(ts, i, [a, b, c])
    ensures i + 3 < |ts| && ts[i] == a && ts[i + 1] == b && ts[i + 2] == c
  {
    var part := ts[i..i + 3];
    assert part[0] == a && part[1] == b && part[2] == c;
  }
}
