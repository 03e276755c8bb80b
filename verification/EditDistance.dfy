/** The edit distance behind the compiler's spelling hints (compiler/src/parser.c, min_edit_distance):
    the table holds the least cost of an edit script between two prefixes, and the distance is a
    metric on what is left of the two names after 60 characters. */
module EditDistance {
  const CUT: nat := 60
  const TABLE: nat := 64

  // ----- Edit scripts -----

  datatype Edit = Keep | Change(to: char) | Drop | Insert(c: char)

  function Last(s: string): char
    requires s != ""
  {
    s[|s| - 1]
  }

  function Init(s: string): (r: string)
    requires s != ""
    ensures |r| == |s| - 1
  {
    s[..|s| - 1]
  }

  /** Read from left to right, the script turns s into t. */
  predicate Turns(script: seq<Edit>, s: string, t: string)
    decreases |script|
  {
    if script == [] then s == "" && t == ""
    else
      var rest := script[..|script| - 1];
      match script[|script| - 1]
      case Keep => s != "" && t != "" && Last(s) == Last(t) && Turns(rest, Init(s), Init(t))
      case Change(c) => s != "" && t != "" && Last(t) == c && Turns(rest, Init(s), Init(t))
      case Drop => s != "" && Turns(rest, Init(s), t)
      case Insert(c) => t != "" && Last(t) == c && Turns(rest, s, Init(t))
  }

  function Cost(script: seq<Edit>): nat
    decreases |script|
  {
    if script == [] then 0
    else (if script[|script| - 1].Keep? then 0 else 1) + Cost(script[..|script| - 1])
  }

  lemma CostMore(script: seq<Edit>, e: Edit)
    ensures Cost(script + [e]) == Cost(script) + if e.Keep? then 0 else 1
  {
    assert (script + [e])[..|script|] == script;
  }

  lemma TurnsMore(script: seq<Edit>, e: Edit, s: string, t: string)
    ensures Turns(script + [e], s, t) ==
      match e
      case Keep => s != "" && t != "" && Last(s) == Last(t) && Turns(script, Init(s), Init(t))
      case Change(c) => s != "" && t != "" && Last(t) == c && Turns(script, Init(s), Init(t))
      case Drop => s != "" && Turns(script, Init(s), t)
      case Insert(c) => t != "" && Last(t) == c && Turns(script, s, Init(t))
  {
    assert (script + [e])[..|script|] == script;
  }

  // ----- The recurrence of the table -----

  function Min3(a: nat, b: nat, c: nat): nat {
    var m := if a < b then a else b;
    if m < c then m else c
  }

  function Distance(s: string, t: string): nat
    decreases |s| + |t|
  {
    if s == "" then |t|
    else if t == "" then |s|
    else if Last(s) == Last(t) then Distance(Init(s), Init(t))
    else Min3(Distance(Init(s), t) + 1, Distance(s, Init(t)) + 1, Distance(Init(s), Init(t)) + 1)
  }

  /** Some script has that cost. */
  lemma {:induction false} BestScript(s: string, t: string) returns (script: seq<Edit>)
    ensures Turns(script, s, t) && Cost(script) == Distance(s, t)
    decreases |s| + |t|
  {
    if s == "" && t == "" {
      script := [];
    } else {
      var rest, e;
      if s == "" {
        rest := BestScript(s, Init(t));
        e := Insert(Last(t));
      } else if t == "" {
        rest := BestScript(Init(s), t);
        e := Drop;
      } else if Last(s) == Last(t) {
        rest := BestScript(Init(s), Init(t));
        e := Keep;
      } else if Distance(s, t) == Distance(Init(s), t) + 1 {
        rest := BestScript(Init(s), t);
        e := Drop;
      } else if Distance(s, t) == Distance(s, Init(t)) + 1 {
        rest := BestScript(s, Init(t));
        e := Insert(Last(t));
      } else {
        rest := BestScript(Init(s), Init(t));
        e := Change(Last(t));
      }
      script := rest + [e];
      CostMore(rest, e);
      TurnsMore(rest, e, s, t);
    }
  }

  /** One character more or less changes the distance by at most one. */
  lemma {:induction false} Neighbours(s: string, t: string)
    ensures s != "" ==> Distance(s, t) <= Distance(Init(s), t) + 1 && Distance(Init(s), t) <= Distance(s, t) + 1
    ensures t != "" ==> Distance(s, t) <= Distance(s, Init(t)) + 1 && Distance(s, Init(t)) <= Distance(s, t) + 1
    decreases |s| + |t|
  {
    if s != "" { Neighbours(Init(s), t); }
    if t != "" { Neighbours(s, Init(t)); }
    if s != "" && t != "" { Neighbours(Init(s), Init(t)); }
  }

  /** No script is cheaper. */
  lemma {:induction false} NoCheaperScript(script: seq<Edit>, s: string, t: string)
    requires Turns(script, s, t)
    ensures Distance(s, t) <= Cost(script)
    decreases |script|
  {
    if script != [] {
      var rest := script[..|script| - 1];
      var e := script[|script| - 1];
      Neighbours(s, t);
      if e.Keep? || e.Change? {
        NoCheaperScript(rest, Init(s), Init(t));
      } else if e.Drop? {
        NoCheaperScript(rest, Init(s), t);
      } else {
        NoCheaperScript(rest, s, Init(t));
      }
    }
  }

  // ----- A metric -----

  lemma {:induction false} Symmetric(s: string, t: string)
    ensures Distance(s, t) == Distance(t, s)
    decreases |s| + |t|
  {
    if s != "" && t != "" {
      Symmetric(Init(s), t);
      Symmetric(s, Init(t));
      Symmetric(Init(s), Init(t));
    }
  }

  lemma {:induction false} ZeroIsEqual(s: string, t: string)
    ensures Distance(s, t) == 0 <==> s == t
    decreases |s| + |t|
  {
    if s != "" && t != "" {
      ZeroIsEqual(Init(s), Init(t));
      if Last(s) == Last(t) && Init(s) == Init(t) {
        assert s == Init(s) + [Last(s)] && t == Init(t) + [Last(t)];
      }
    }
  }

  /** Two scripts one after the other, as one that costs no more. */
  lemma {:induction false} Compose(a: seq<Edit>, b: seq<Edit>, s: string, t: string, u: string) returns (c: seq<Edit>)
    requires Turns(a, s, t) && Turns(b, t, u)
    ensures Turns(c, s, u) && Cost(c) <= Cost(a) + Cost(b)
    decreases |a| + |b|, 0
  {
    if a == [] {
      c := b;
    } else if b == [] {
      c := a;
    } else {
      var a0, x := a[..|a| - 1], a[|a| - 1];
      var b0, y := b[..|b| - 1], b[|b| - 1];
      if x.Drop? {
        c := ComposeThen(a0, b, Init(s), t, u, Drop, s, u);
      } else if y.Insert? {
        c := ComposeThen(a, b0, s, t, Init(u), y, s, u);
      } else if x.Insert? && y.Drop? {
        c := Compose(a0, b0, s, Init(t), u);
      } else if x.Insert? {
        c := ComposeThen(a0, b0, s, Init(t), Init(u), Insert(Last(u)), s, u);
      } else if y.Drop? {
        c := ComposeThen(a0, b0, Init(s), Init(t), u, Drop, s, u);
      } else if x.Keep? && y.Keep? {
        c := ComposeThen(a0, b0, Init(s), Init(t), Init(u), Keep, s, u);
      } else {
        c := ComposeThen(a0, b0, Init(s), Init(t), Init(u), Change(Last(u)), s, u);
      }
    }
  }

  /** Composing what comes before, and one last edit that leads to s1 and u1. */
  lemma {:induction false} ComposeThen(a: seq<Edit>, b: seq<Edit>, s: string, t: string, u: string, e: Edit, s1: string, u1: string)
    returns (c: seq<Edit>)
    requires Turns(a, s, t) && Turns(b, t, u)
    requires forall script: seq<Edit> :: Turns(script, s, u) ==> Turns(script + [e], s1, u1)
    ensures Turns(c, s1, u1) && Cost(c) <= Cost(a) + Cost(b) + if e.Keep? then 0 else 1
    decreases |a| + |b|, 1
  {
    var c0 := Compose(a, b, s, t, u);
    CostMore(c0, e);
    c := c0 + [e];
  }

  lemma Triangle(s: string, t: string, u: string)
    ensures Distance(s, u) <= Distance(s, t) + Distance(t, u)
  {
    var a := BestScript(s, t);
    var b := BestScript(t, u);
    var c := Compose(a, b, s, t, u);
    NoCheaperScript(c, s, u);
  }

  // ----- The table -----

  function Cut(s: string): string { if |s| > CUT then s[..CUT] else s }

  /** Every cell of the first rows, and the first cells of row i, hold the distance of their prefixes. */
  ghost predicate Filled(dp: array2<int>, s: string, t: string, i: nat, j: nat)
    requires dp.Length0 == TABLE && dp.Length1 == TABLE && |s| <= CUT && |t| <= CUT
    reads dp
  {
    forall k, l :: 0 <= k <= |s| && 0 <= l <= |t| && (k == 0 || l == 0 || k < i || (k == i && l < j)) ==>
      dp[k, l] == Distance(s[..k], t[..l])
  }

  lemma Cell(s: string, t: string, i: nat, j: nat)
    requires 0 < i <= |s| && 0 < j <= |t|
    ensures s[i - 1] == t[j - 1] ==> Distance(s[..i], t[..j]) == Distance(s[..i - 1], t[..j - 1])
    ensures s[i - 1] != t[j - 1] ==>
      Distance(s[..i], t[..j]) ==
        Min3(Distance(s[..i - 1], t[..j]) + 1, Distance(s[..i], t[..j - 1]) + 1, Distance(s[..i - 1], t[..j - 1]) + 1)
  {
    hide Distance;
    var a, b := s[..i], t[..j];
    DistanceStep(a, b);
    assert Init(a) == s[..i - 1] && Init(b) == t[..j - 1];
    assert Last(a) == s[i - 1] && Last(b) == t[j - 1];
  }

  lemma DistanceStep(a: string, b: string)
    requires a != "" && b != ""
    ensures Last(a) == Last(b) ==> Distance(a, b) == Distance(Init(a), Init(b))
    ensures Last(a) != Last(b) ==>
      Distance(a, b) == Min3(Distance(Init(a), b) + 1, Distance(a, Init(b)) + 1, Distance(Init(a), Init(b)) + 1)
  {
    hide Init, Last, Min3;
    var d := Distance(a, b);
  }

  method MinEditDistance(s1: string, s2: string) returns (d: nat)
    ensures d == Distance(Cut(s1), Cut(s2))
  {
    var s, t := Cut(s1), Cut(s2);
    var m, n := |s|, |t|;
    var dp := new int[TABLE, TABLE]((_, _) => 0);
    for i := 0 to m + 1
      invariant forall k :: 0 <= k < i ==> dp[k, 0] == k
    {
      dp[i, 0] := i;
    }
    for j := 0 to n + 1
      invariant forall k :: 0 <= k <= m ==> dp[k, 0] == k
      invariant forall l :: 0 <= l < j ==> dp[0, l] == l
    {
      dp[0, j] := j;
    }
    Borders(s, t);
    for i := 1 to m + 1
      invariant Filled(dp, s, t, i, 1)
    {
      for j := 1 to n + 1
        invariant Filled(dp, s, t, i, j)
      {
        FillCell(dp, s, t, i, j);
      }
    }
    assert s[..m] == s && t[..n] == t;
    d := dp[m, n];
  }

  lemma Borders(s: string, t: string)
    ensures forall k :: 0 <= k <= |s| ==> Distance(s[..k], t[..0]) == k
    ensures forall l :: 0 <= l <= |t| ==> Distance(s[..0], t[..l]) == l
  {
  }

  method FillCell(dp: array2<int>, s: string, t: string, i: nat, j: nat)
    requires dp.Length0 == TABLE && dp.Length1 == TABLE && |s| <= CUT && |t| <= CUT
    requires 0 < i <= |s| && 0 < j <= |t| && Filled(dp, s, t, i, j)
    modifies dp
    ensures Filled(dp, s, t, i, j + 1)
  {
    Cell(s, t, i, j);
    assert dp[i - 1, j - 1] == Distance(s[..i - 1], t[..j - 1]);
    assert dp[i - 1, j] == Distance(s[..i - 1], t[..j]);
    assert dp[i, j - 1] == Distance(s[..i], t[..j - 1]);
    hide Distance;
    if s[i - 1] == t[j - 1] {
      dp[i, j] := dp[i - 1, j - 1];
    } else {
      var a := dp[i - 1, j] + 1;
      var b := dp[i, j - 1] + 1;
      var c := dp[i - 1, j - 1] + 1;
      var min := if a < b then a else b;
      dp[i, j] := if min < c then min else c;
    }
  }

  /** What a caller of the table gets: the least cost of turning one name into the other, as a metric on names
      cut to 60 characters. */
  lemma TableIsMetric(a: string, b: string, c: string)
    ensures exists script :: Turns(script, Cut(a), Cut(b)) && Cost(script) == Distance(Cut(a), Cut(b))
    ensures forall script :: Turns(script, Cut(a), Cut(b)) ==> Distance(Cut(a), Cut(b)) <= Cost(script)
    ensures Distance(Cut(a), Cut(b)) == Distance(Cut(b), Cut(a))
    ensures Distance(Cut(a), Cut(b)) == 0 <==> Cut(a) == Cut(b)
    ensures Distance(Cut(a), Cut(c)) <= Distance(Cut(a), Cut(b)) + Distance(Cut(b), Cut(c))
  {
    hide Distance, Turns, Cost;
    var best := BestScript(Cut(a), Cut(b));
    forall script | Turns(script, Cut(a), Cut(b)) ensures Distance(Cut(a), Cut(b)) <= Cost(script) {
      NoCheaperScript(script, Cut(a), Cut(b));
    }
    Symmetric(Cut(a), Cut(b));
    ZeroIsEqual(Cut(a), Cut(b));
    Triangle(Cut(a), Cut(b), Cut(c));
  }

  // ----- Spelling hints -----

  const KEYWORDS: seq<string> := [
    "var", "let", "const", "func", "package", "import", "print", "prints",
    "if", "else", "while", "for", "return", "break", "continue", "switch",
    "case", "default"
  ]

  datatype Hint = NoHint | Hint(word: string)

  /** The scan for the closest word keeps the first best one within two edits. */
  function ClosestIn(name: string, words: seq<string>, best: Hint): Hint
    decreases |words|
  {
    if words == [] then best
    else
      var d := Distance(Cut(name), Cut(words[0]));
      ClosestIn(name, words[1..],
                if d <= 2 && (best.NoHint? || d < Distance(Cut(name), Cut(best.word))) then Hint(words[0]) else best)
  }

  /** The hint is the first word among those closest to the name, if any is within two edits. */
  ghost predicate GoodHint(name: string, words: seq<string>, h: Hint) {
    match h
    case NoHint => forall k :: 0 <= k < |words| ==> Distance(Cut(name), Cut(words[k])) > 2
    case Hint(w) =>
      exists k :: 0 <= k < |words| && words[k] == w && Distance(Cut(name), Cut(w)) <= 2
        && (forall l :: 0 <= l < |words| ==> Distance(Cut(name), Cut(w)) <= Distance(Cut(name), Cut(words[l])))
        && (forall l :: 0 <= l < k ==> Distance(Cut(name), Cut(w)) < Distance(Cut(name), Cut(words[l])))
  }

  /** find_closest_keyword on a name that is not empty. */
  method FindClosestKeyword(name: string) returns (h: Hint)
    ensures h == ClosestIn(name, KEYWORDS, NoHint) && GoodHint(name, KEYWORDS, h)
  {
    hide ClosestIn, GoodHint;
    h := FindClosest(name, KEYWORDS);
  }

  method FindClosest(name: string, words: seq<string>) returns (h: Hint)
    ensures h == ClosestIn(name, words, NoHint) && GoodHint(name, words, h)
  {
    h := NoHint;
    var bestDist: nat := 999;
    ghost var best: nat := 0;
    assert words[0..] == words;
    for i := 0 to |words|
      invariant h.NoHint? ==> bestDist == 999 && forall l :: 0 <= l < i ==> Distance(Cut(name), Cut(words[l])) > 2
      invariant h.Hint? ==> best < i && words[best] == h.word && bestDist == Distance(Cut(name), Cut(h.word)) <= 2
      invariant h.Hint? ==> forall l :: 0 <= l < i ==> bestDist <= Distance(Cut(name), Cut(words[l]))
      invariant h.Hint? ==> forall l :: 0 <= l < best ==> bestDist < Distance(Cut(name), Cut(words[l]))
      invariant ClosestIn(name, words[i..], h) == ClosestIn(name, words, NoHint)
    {
      hide Distance, Cut;
      assert words[i..][0] == words[i] && words[i..][1..] == words[i + 1..];
      var dist := MinEditDistance(name, words[i]);
      if dist < bestDist && dist <= 2 {
        bestDist := dist;
        h := Hint(words[i]);
        best := i;
      }
    }
  }
}
