/** Removal of module prefixes (hosc_compiler.c, rewrite_prefixed_calls): a scanner that knows string
    literals and comments deletes "prefix." where it stands before a name in ordinary code. */
module HcPrefixes {
  datatype Mode = Normal | InString | LineComment | BlockComment

  predicate IsLetter(c: char) { 'a' <= c <= 'z' || 'A' <= c <= 'Z' }
  predicate IsIdentStart(c: char) { IsLetter(c) || c == '_' }
  predicate IsIdentChar(c: char) { IsLetter(c) || '0' <= c <= '9' || c == '_' }

  /** The text has c at position i; a position behind the end holds nothing. */
  predicate Has(text: string, i: nat, c: char) { i < |text| && text[i] == c }

  /** How many characters a scanner without prefixes takes at i, and the mode behind them. */
  function Scan(text: string, i: nat, mode: Mode): (r: (nat, Mode))
    requires i < |text|
    ensures 1 <= r.0 && i + r.0 <= |text|
  {
    match mode
    case Normal =>
      if text[i] == '"' then (1, InString)
      else if text[i] == '/' && Has(text, i + 1, '/') then (2, LineComment)
      else if text[i] == '/' && Has(text, i + 1, '*') then (2, BlockComment)
      else (1, Normal)
    case InString =>
      if text[i] == '\\' && i + 1 < |text| then (2, InString)
      else if text[i] == '"' then (1, Normal)
      else (1, InString)
    case LineComment => (1, if text[i] == '\n' then Normal else LineComment)
    case BlockComment => if text[i] == '*' && Has(text, i + 1, '/') then (2, Normal) else (1, BlockComment)
  }

  function Repeat(b: bool, n: nat): (r: seq<bool>)
    ensures |r| == n && forall j :: 0 <= j < n ==> r[j] == b
  {
    seq(n, _ => b)
  }

  /** Which characters from i on are ordinary code: neither inside nor a delimiter of a string literal or comment. */
  function Ordinary(text: string, i: nat, mode: Mode): (r: seq<bool>)
    requires i <= |text|
    ensures |r| == |text| - i
    decreases |text| - i
  {
    if i == |text| then []
    else
      var (n, next) := Scan(text, i, mode);
      Repeat(mode == Normal && next == Normal, n) + Ordinary(text, i + n, next)
  }

  /** "prefix." stands at i, in front of a name and not inside one. */
  predicate Occurs(text: string, i: nat, prefix: string) {
    && prefix != ""
    && i + |prefix| + 1 < |text|
    && text[i..i + |prefix|] == prefix
    && text[i + |prefix|] == '.'
    && (i == 0 || !IsIdentChar(text[i - 1]))
    && IsIdentStart(text[i + |prefix| + 1])
  }

  /** The first prefix that occurs at i, or |prefixes|. */
  function FirstAt(text: string, i: nat, prefixes: seq<string>): (k: nat)
    ensures k <= |prefixes|
    ensures k < |prefixes| ==> Occurs(text, i, prefixes[k])
    ensures forall j :: 0 <= j < k ==> !Occurs(text, i, prefixes[j])
  {
    if prefixes == [] || Occurs(text, i, prefixes[0]) then 0 else 1 + FirstAt(text, i, prefixes[1..])
  }

  /** Which characters from i on are kept. */
  function Kept(text: string, prefixes: seq<string>, i: nat, mode: Mode): (r: seq<bool>)
    requires i <= |text|
    ensures |r| == |text| - i
    decreases |text| - i
  {
    if i == |text| then []
    else
      var (n, next) := Scan(text, i, mode);
      var k := FirstAt(text, i, prefixes);
      if mode == Normal && next == Normal && k < |prefixes| then
        Repeat(false, |prefixes[k]| + 1) + Kept(text, prefixes, i + |prefixes[k]| + 1, Normal)
      else
        Repeat(true, n) + Kept(text, prefixes, i + n, next)
  }

  /** The characters of s that are marked. */
  function Filter(s: string, keep: seq<bool>): string
    requires |s| == |keep|
  {
    if s == "" then "" else (if keep[0] then [s[0]] else []) + Filter(s[1..], keep[1..])
  }

  function WithoutPrefixes(text: string, prefixes: seq<string>): string {
    Filter(text, Kept(text, prefixes, 0, Normal))
  }

  lemma KeptStep(text: string, prefixes: seq<string>, i: nat, mode: Mode)
    requires i < |text|
    ensures var (n, next) := Scan(text, i, mode);
      var k := FirstAt(text, i, prefixes);
      && (mode == Normal && next == Normal && k < |prefixes| ==>
            && i + |prefixes[k]| + 1 <= |text|
            && Kept(text, prefixes, i, mode) ==
                 Repeat(false, |prefixes[k]| + 1) + Kept(text, prefixes, i + |prefixes[k]| + 1, Normal))
      && (!(mode == Normal && next == Normal && k < |prefixes|) ==>
            Kept(text, prefixes, i, mode) == Repeat(true, n) + Kept(text, prefixes, i + n, next))
  {
    hide Scan, Repeat;
  }

  lemma OrdinaryStep(text: string, i: nat, mode: Mode)
    requires i < |text|
    ensures var (n, next) := Scan(text, i, mode);
      Ordinary(text, i, mode) == Repeat(mode == Normal && next == Normal, n) + Ordinary(text, i + n, next)
  {
  }

  lemma {:induction false} FilterAppend(s: string, keep: seq<bool>, t: string, keepT: seq<bool>)
    requires |s| == |keep| && |t| == |keepT|
    ensures Filter(s + t, keep + keepT) == Filter(s, keep) + Filter(t, keepT)
  {
    if s == "" {
      assert s + t == t && keep + keepT == keepT;
    } else {
      FilterAppend(s[1..], keep[1..], t, keepT);
      assert (s + t)[1..] == s[1..] + t;
      assert (keep + keepT)[1..] == keep[1..] + keepT;
      assert (s + t)[0] == s[0] && (keep + keepT)[0] == keep[0];
      var head := if keep[0] then [s[0]] else [];
      assert Filter(s + t, keep + keepT) == head + Filter(s[1..] + t, keep[1..] + keepT);
      assert Filter(s, keep) == head + Filter(s[1..], keep[1..]);
    }
  }

  lemma {:induction false} FilterAll(s: string, keep: seq<bool>, b: bool)
    requires |s| == |keep| && forall j :: 0 <= j < |s| ==> keep[j] == b
    ensures Filter(s, keep) == if b then s else ""
  {
    if s != "" {
      FilterAll(s[1..], keep[1..], b);
      assert s == [s[0]] + s[1..];
    }
  }

  /** What the rest of the text adds, once the next n characters are kept or deleted. */
  lemma FilterStep(text: string, i: nat, n: nat, b: bool, rest: seq<bool>)
    requires i + n <= |text| && |rest| == |text| - i - n
    ensures Filter(text[i..], Repeat(b, n) + rest) == (if b then text[i..i + n] else "") + Filter(text[i + n..], rest)
  {
    assert text[i..] == text[i..i + n] + text[i + n..];
    FilterAppend(text[i..i + n], Repeat(b, n), text[i + n..], rest);
    FilterAll(text[i..i + n], Repeat(b, n), b);
  }

  /** rewrite_prefixed_calls: one pass with a mode, appending what is kept. */
  method RewritePrefixedCalls(text: string, prefixes: seq<string>) returns (out: string)
    ensures out == WithoutPrefixes(text, prefixes)
  {
    hide Kept, Filter, Repeat, Occurs;
    out := "";
    var i := 0;
    var mode := Normal;
    assert text[0..] == text;
    while i < |text|
      invariant i <= |text|
      invariant WithoutPrefixes(text, prefixes) == out + Filter(text[i..], Kept(text, prefixes, i, mode))
    {
      var removed := 0;
      var (n, next) := Scan(text, i, mode);
      if mode == Normal && next == Normal { removed := Removed(text, i, prefixes); }
      ghost var before := out;
      KeptStep(text, prefixes, i, mode);
      if removed > 0 {
        FilterStep(text, i, removed, false, Kept(text, prefixes, i + removed, Normal));
        i := i + removed;
      } else {
        FilterStep(text, i, n, true, Kept(text, prefixes, i + n, next));
        out := out + text[i..i + n];
        i, mode := i + n, next;
      }
    }
    assert Filter(text[i..], Kept(text, prefixes, i, mode)) == "" by { FilterNothing(text, prefixes, mode); }
  }

  lemma FilterNothing(text: string, prefixes: seq<string>, mode: Mode)
    ensures Filter(text[|text|..], Kept(text, prefixes, |text|, mode)) == ""
  {
  }

  /** The inner loop over the prefixes: the length of what is removed at i. */
  method Removed(text: string, i: nat, prefixes: seq<string>) returns (n: nat)
    requires i < |text|
    ensures var k := FirstAt(text, i, prefixes); n == if k < |prefixes| then |prefixes[k]| + 1 else 0
  {
    var k := 0;
    while k < |prefixes|
      invariant k <= |prefixes|
      invariant forall j :: 0 <= j < k ==> !Occurs(text, i, prefixes[j])
    {
      if Occurs(text, i, prefixes[k]) { return |prefixes[k]| + 1; }
      k := k + 1;
    }
    n := 0;
  }

  // ----- What may be lost -----

  /** A prefix in which a scanner would find neither a string literal nor the start of a comment. */
  predicate Harmless(prefix: string) {
    && '"' !in prefix
    && forall j :: 0 <= j < |prefix| - 1 && prefix[j] == '/' ==> prefix[j + 1] != '/' && prefix[j + 1] != '*'
  }

  /** Ordinary code without quotes and slashes in front of what matters is scanned character by character. */
  lemma {:induction false} OrdinaryRun(text: string, i: nat, n: nat)
    requires i + n <= |text|
    requires forall j :: i <= j < i + n ==> Scan(text, j, Normal) == (1, Normal)
    ensures Ordinary(text, i, Normal) == Repeat(true, n) + Ordinary(text, i + n, Normal)
    decreases n
  {
    hide Ordinary, Scan;
    if n == 0 {
      assert Repeat(true, 0) == [];
    } else {
      OrdinaryRun(text, i + 1, n - 1);
      assert Scan(text, i, Normal) == (1, Normal);
      OrdinaryStep(text, i, Normal);
      assert Repeat(true, 1) + (Repeat(true, n - 1) + Ordinary(text, i + n, Normal))
          == Repeat(true, n) + Ordinary(text, i + n, Normal);
    }
  }

  lemma HarmlessOccurrence(text: string, i: nat, prefix: string)
    requires Harmless(prefix) && Occurs(text, i, prefix)
    ensures Ordinary(text, i, Normal) == Repeat(true, |prefix| + 1) + Ordinary(text, i + |prefix| + 1, Normal)
  {
    forall j | i <= j < i + |prefix| + 1 ensures Scan(text, j, Normal) == (1, Normal) {
      if j < i + |prefix| {
        assert text[j] == prefix[j - i];
        if j + 1 < i + |prefix| { assert text[j + 1] == prefix[j + 1 - i]; }
      }
    }
    OrdinaryRun(text, i, |prefix| + 1);
  }

  /** Wherever prefix p would be found, q is found too. */
  predicate Shadows(q: string, p: string) {
    q == p || (|q| + 1 < |p| && p[..|q|] == q && p[|q|] == '.' && IsIdentStart(p[|q| + 1]))
  }

  /** A harmful prefix that no earlier one takes the place of. */
  ghost predicate Exposed(prefixes: seq<string>, k: nat) {
    k < |prefixes| && !Harmless(prefixes[k]) && forall j :: 0 <= j < k ==> prefixes[j] != "" ==> !Shadows(prefixes[j], prefixes[k])
  }

  lemma ShadowOccurs(text: string, i: nat, q: string, p: string)
    requires q != "" && Shadows(q, p) && Occurs(text, i, p)
    ensures Occurs(text, i, q)
  {
    if q != p {
      assert text[i..i + |p|] == p;
      assert text[i..i + |q|] == text[i..i + |p|][..|q|];
      assert text[i + |q|] == p[|q|] && text[i + |q| + 1] == p[|q| + 1];
    }
  }

  /** A prefix that is ever the first to be found is shadowed by none before it. */
  lemma FirstIsExposed(text: string, i: nat, prefixes: seq<string>)
    requires FirstAt(text, i, prefixes) < |prefixes| && !Harmless(prefixes[FirstAt(text, i, prefixes)])
    ensures Exposed(prefixes, FirstAt(text, i, prefixes))
  {
    hide FirstAt, Shadows, Harmless, Occurs;
    var k := FirstAt(text, i, prefixes);
    forall j | 0 <= j < k && prefixes[j] != "" ensures !Shadows(prefixes[j], prefixes[k]) {
      if Shadows(prefixes[j], prefixes[k]) { ShadowOccurs(text, i, prefixes[j], prefixes[k]); }
    }
  }

  /** Without an exposed prefix every character of a string literal or comment survives. */
  lemma {:induction false} OnlyCodeIsDeleted(text: string, prefixes: seq<string>, i: nat, mode: Mode, j: nat)
    requires i <= j < |text|
    requires forall k :: 0 <= k < |prefixes| ==> !Exposed(prefixes, k)
    ensures Kept(text, prefixes, i, mode)[j - i] || Ordinary(text, i, mode)[j - i]
    decreases |text| - i
  {
    hide Kept, Ordinary, Scan, Harmless, Occurs, Exposed;
    KeptStep(text, prefixes, i, mode);
    OrdinaryStep(text, i, mode);
    var (n, next) := Scan(text, i, mode);
    var k := FirstAt(text, i, prefixes);
    if mode == Normal && next == Normal && k < |prefixes| {
      if !Harmless(prefixes[k]) { FirstIsExposed(text, i, prefixes); }
      HarmlessOccurrence(text, i, prefixes[k]);
      var m := |prefixes[k]| + 1;
      if j >= i + m { OnlyCodeIsDeleted(text, prefixes, i + m, Normal, j); }
    } else if j >= i + n {
      OnlyCodeIsDeleted(text, prefixes, i + n, next, j);
    }
  }

  /** n characters from "at" on are all deleted. */
  predicate DeletedAt(kept: seq<bool>, at: nat, n: nat) {
    at + n <= |kept| && forall q :: at <= q < at + n ==> !kept[q]
  }

  lemma DeletedBehind(a: seq<bool>, kept: seq<bool>, at: nat, n: nat)
    requires DeletedAt(kept, at, n)
    ensures DeletedAt(a + kept, |a| + at, n)
  {
    forall q | |a| + at <= q < |a| + at + n ensures !(a + kept)[q] {
      assert (a + kept)[q] == kept[q - |a|];
    }
  }

  lemma OccursInside(text: string, i: nat, prefix: string)
    requires Occurs(text, i, prefix)
    ensures i + |prefix| + 1 < |text|
  {
  }

  /** What is deleted are whole occurrences of "prefix." in front of a name: every deleted character lies
      in one, all of which is deleted. */
  lemma {:induction false} WholeOccurrences(text: string, prefixes: seq<string>, i: nat, mode: Mode, j: nat)
    returns (at: nat, k: nat)
    requires i <= j < |text| && !Kept(text, prefixes, i, mode)[j - i]
    ensures i <= at <= j && k < |prefixes| && Occurs(text, at, prefixes[k]) && j <= at + |prefixes[k]|
    ensures DeletedAt(Kept(text, prefixes, i, mode), at - i, |prefixes[k]| + 1)
    decreases |text| - i
  {
    hide Kept, Scan, Occurs, DeletedAt;
    KeptStep(text, prefixes, i, mode);
    var (n, next) := Scan(text, i, mode);
    k := FirstAt(text, i, prefixes);
    if mode == Normal && next == Normal && k < |prefixes| {
      at := i;
      OccursInside(text, i, prefixes[k]);
      var m := |prefixes[k]| + 1;
      var rest := Kept(text, prefixes, i + m, Normal);
      if j >= i + m {
        at, k := WholeOccurrences(text, prefixes, i + m, Normal, j);
        DeletedBehind(Repeat(false, m), rest, at - i - m, |prefixes[k]| + 1);
      } else {
        DeletedFirst(m, rest);
      }
    } else {
      var rest := Kept(text, prefixes, i + n, next);
      assert !(Repeat(true, n) + rest)[j - i];
      at, k := WholeOccurrences(text, prefixes, i + n, next, j);
      DeletedBehind(Repeat(true, n), rest, at - i - n, |prefixes[k]| + 1);
    }
  }

  lemma DeletedFirst(n: nat, rest: seq<bool>)
    ensures DeletedAt(Repeat(false, n) + rest, 0, n)
  {
  }

  lemma {:induction false} NoPrefixKeepsAll(text: string, i: nat, mode: Mode, j: nat)
    requires i <= j < |text|
    ensures Kept(text, [], i, mode)[j - i]
    decreases |text| - i
  {
    hide Kept, Scan;
    KeptStep(text, [], i, mode);
    var (n, next) := Scan(text, i, mode);
    if j >= i + n { NoPrefixKeepsAll(text, i + n, next, j); }
  }

  /** The whole promise: what disappears are whole occurrences of "prefix." in ordinary code, and without
      prefixes the text stays as it is. */
  lemma RewritingDeletesPrefixesOnly(text: string, prefixes: seq<string>)
    ensures var kept := Kept(text, prefixes, 0, Normal);
      && WithoutPrefixes(text, prefixes) == Filter(text, kept)
      && (forall j :: 0 <= j < |text| && !kept[j] ==>
            exists at, k :: 0 <= at <= j && 0 <= k < |prefixes| && Occurs(text, at, prefixes[k])
              && j <= at + |prefixes[k]| && DeletedAt(kept, at, |prefixes[k]| + 1))
      && ((forall k :: 0 <= k < |prefixes| ==> !Exposed(prefixes, k)) ==>
            forall j :: 0 <= j < |text| && !kept[j] ==> Ordinary(text, 0, Normal)[j])
    ensures prefixes == [] ==> WithoutPrefixes(text, prefixes) == text
  {
    var kept := Kept(text, prefixes, 0, Normal);
    forall j | 0 <= j < |text| && !kept[j]
      ensures exists at, k :: 0 <= at <= j && 0 <= k < |prefixes| && Occurs(text, at, prefixes[k])
                && j <= at + |prefixes[k]| && DeletedAt(kept, at, |prefixes[k]| + 1)
    {
      var at, k := WholeOccurrences(text, prefixes, 0, Normal, j);
    }
    if forall k :: 0 <= k < |prefixes| ==> !Exposed(prefixes, k) {
      forall j | 0 <= j < |text| && !kept[j] ensures Ordinary(text, 0, Normal)[j] {
        OnlyCodeIsDeleted(text, prefixes, 0, Normal, j);
      }
    }
    if prefixes == [] {
      forall j | 0 <= j < |text| ensures kept[j] { NoPrefixKeepsAll(text, 0, Normal, j); }
      FilterAll(text, kept, true);
    }
  }

  // ----- Exactly when strings and comments survive -----

  /** What parse_ident_path_token and an alias can make a prefix of: a name, then names, points and slashes. */
  predicate FromImport(prefix: string) {
    && prefix != "" && IsIdentStart(prefix[0])
    && forall j :: 0 <= j < |prefix| ==> IsIdentChar(prefix[j]) || prefix[j] == '.' || prefix[j] == '/' || prefix[j] == '\\'
  }

  /** Of the prefixes an import can give, exactly those with two slashes in a row are harmful. */
  lemma TwoSlashes(prefix: string)
    requires FromImport(prefix)
    ensures !Harmless(prefix) <==> exists j :: 0 <= j < |prefix| - 1 && prefix[j] == '/' == prefix[j + 1]
  {
  }

  /** The text that shows what a prefix does: the prefix itself, a point and a name. */
  function Demo(prefix: string): string { prefix + ".c" }

  lemma DemoOccurs(prefix: string, q: string)
    requires q != ""
    ensures Occurs(Demo(prefix), 0, q) <==> Shadows(q, prefix)
  {
    var text := Demo(prefix);
    assert text[|prefix|] == '.' && text[|prefix| + 1] == 'c';
    if |q| <= |prefix| { assert text[..|q|] == prefix[..|q|]; }
  }

  /** An exposed prefix is the one that is deleted from its demo. */
  lemma DemoDeleted(prefixes: seq<string>, k: nat)
    requires Exposed(prefixes, k) && FromImport(prefixes[k])
    ensures FirstAt(Demo(prefixes[k]), 0, prefixes) == k
    ensures forall j :: 0 <= j < |prefixes[k]| ==> !Kept(Demo(prefixes[k]), prefixes, 0, Normal)[j]
  {
    hide FirstAt, Occurs, Shadows, Harmless, Kept;
    var p := prefixes[k];
    var text := Demo(p);
    forall j | 0 <= j <= k && prefixes[j] != "" ensures Occurs(text, 0, prefixes[j]) <==> Shadows(prefixes[j], p) {
      DemoOccurs(p, prefixes[j]);
    }
    SelfShadow(p);
    FirstFound(text, 0, prefixes, k);
    KeptStep(text, prefixes, 0, Normal);
    assert text[0] == p[0] && Scan(text, 0, Normal) == (1, Normal);
  }

  lemma SelfShadow(p: string)
    ensures Shadows(p, p)
  {
  }

  lemma FirstFound(text: string, i: nat, prefixes: seq<string>, k: nat)
    requires k < |prefixes| && Occurs(text, i, prefixes[k])
    requires forall j :: 0 <= j < k && prefixes[j] != "" ==> !Occurs(text, i, prefixes[j])
    ensures FirstAt(text, i, prefixes) == k
  {
    var f := FirstAt(text, i, prefixes);
    assert f <= k;
  }

  /** Somewhere in a harmful prefix the scanner leaves ordinary code. */
  lemma {:induction false} NotAllOrdinary(prefix: string, i: nat, harm: nat) returns (j: nat)
    requires i <= harm < |prefix|
    requires prefix[harm] == '"'
          || (prefix[harm] == '/' && harm + 1 < |prefix| && (prefix[harm + 1] == '/' || prefix[harm + 1] == '*'))
    ensures i <= j < |prefix| && !Ordinary(Demo(prefix), i, Normal)[j - i]
    decreases harm - i
  {
    var text := Demo(prefix);
    OrdinaryStep(text, i, Normal);
    assert text[i] == prefix[i] && (i + 1 < |prefix| ==> text[i + 1] == prefix[i + 1]);
    if Scan(text, i, Normal).1 == Normal {
      j := NotAllOrdinary(prefix, i + 1, harm);
      assert (Repeat(true, 1) + Ordinary(text, i + 1, Normal))[j - i] == Ordinary(text, i + 1, Normal)[j - i - 1];
    } else {
      j := i;
    }
  }

  ghost predicate OnlyCode(text: string, prefixes: seq<string>) {
    forall j :: 0 <= j < |text| && !Kept(text, prefixes, 0, Normal)[j] ==> Ordinary(text, 0, Normal)[j]
  }

  /** For all prefixes that imports can give: strings and comments survive in every text, if and only if each prefix
      with two slashes in a row is shadowed by an earlier one. */
  lemma CodeOnlyExactly(prefixes: seq<string>)
    requires forall p :: p in prefixes ==> FromImport(p)
    ensures (forall text: string :: OnlyCode(text, prefixes))
       <==> (forall k :: 0 <= k < |prefixes| ==> !Exposed(prefixes, k))
  {
    hide FromImport;
    if forall k :: 0 <= k < |prefixes| ==> !Exposed(prefixes, k) {
      forall text: string ensures OnlyCode(text, prefixes) {
        forall j | 0 <= j < |text| && !Kept(text, prefixes, 0, Normal)[j] ensures Ordinary(text, 0, Normal)[j] {
          OnlyCodeIsDeleted(text, prefixes, 0, Normal, j);
        }
      }
    } else {
      var k :| 0 <= k < |prefixes| && Exposed(prefixes, k);
      ExposedDeletes(prefixes, k);
    }
  }

  /** In the demo of an exposed prefix a character of a comment disappears. */
  lemma ExposedDeletes(prefixes: seq<string>, k: nat)
    requires Exposed(prefixes, k) && FromImport(prefixes[k])
    ensures !OnlyCode(Demo(prefixes[k]), prefixes)
  {
    hide Kept, Ordinary, Shadows, FromImport;
    var p := prefixes[k];
    DemoDeleted(prefixes, k);
    var harm :| 0 <= harm < |p| && (p[harm] == '"'
      || (p[harm] == '/' && harm + 1 < |p| && (p[harm + 1] == '/' || p[harm + 1] == '*')));
    var j := NotAllOrdinary(p, 0, harm);
    assert j < |Demo(p)|;
  }

  /** The import of a//b gives such a prefix: part of a comment disappears from a//b.c. */
  lemma HarmfulPrefix()
    ensures var text := "a//b.c"; var kept := Kept(text, ["a//b"], 0, Normal);
      !kept[1] && !Ordinary(text, 0, Normal)[1]
  {
    var text := "a//b.c";
    assert Scan(text, 0, Normal) == (1, Normal) && Scan(text, 1, Normal) == (2, LineComment);
    assert text[0..4] == "a//b";
    assert Occurs(text, 0, "a//b");
    assert FirstAt(text, 0, ["a//b"]) == 0;
    assert Kept(text, ["a//b"], 0, Normal) == Repeat(false, 5) + Kept(text, ["a//b"], 5, Normal);
    assert Ordinary(text, 0, Normal) == Repeat(true, 1) + Ordinary(text, 1, Normal);
    assert Ordinary(text, 1, Normal) == Repeat(false, 2) + Ordinary(text, 3, LineComment);
  }
}
