/** Flattening of imports (hosc_compiler.c, resolve_imports_recursive): a depth-first search with a list of
    files already merged and a stack of files being merged.  It succeeds exactly when everything reachable
    exists and nothing imports itself, and then every file appears once, behind the files it imports. */
module HcImports {
  import opened HcPrefixes

  datatype Option<+T> = None | Some(value: T)

  /** What a line of a source file is: the directive's parser and the resolution of its path are parameters.
      An import has no target when its path cannot be resolved, and an empty prefix when it renames nothing. */
  datatype LineKind = PackageLine | ImportLine(target: Option<string>, prefix: string) | BodyLine

  datatype Project = Project(files: map<string, string>, classify: (string, string) -> LineKind)

  // ----- One file -----

  /** The length of the first line, its newline included. */
  function LineLength(text: string): (n: nat)
    ensures n <= |text| && (text != "" ==> n > 0)
  {
    if text == "" then 0 else if text[0] == '\n' then 1 else 1 + LineLength(text[1..])
  }

  function Lines(text: string): seq<string> {
    if text == "" then [] else [text[..LineLength(text)]] + Lines(text[LineLength(text)..])
  }

  function Bare(line: string): string {
    if line != "" && line[|line| - 1] == '\n' then line[..|line| - 1] else line
  }

  /** A byte order mark in front is skipped. */
  function SkipMark(text: string): string {
    if |text| >= 3 && text[0] as int == 0xEF && text[1] as int == 0xBB && text[2] as int == 0xBF then text[3..] else text
  }

  function LinesOf(p: Project, f: string): seq<string> {
    if f in p.files then Lines(SkipMark(p.files[f])) else []
  }

  function KindOf(p: Project, f: string, line: string): LineKind { p.classify(f, Bare(line)) }

  function TargetsIn(p: Project, f: string, lines: seq<string>): set<string> {
    if lines == [] then {}
    else
      var k := KindOf(p, f, lines[0]);
      (if k.ImportLine? && k.target.Some? then {k.target.value} else {}) + TargetsIn(p, f, lines[1..])
  }

  /** The files that f imports. */
  function Targets(p: Project, f: string): set<string> { TargetsIn(p, f, LinesOf(p, f)) }

  predicate ResolvableIn(p: Project, f: string, lines: seq<string>) {
    lines == [] || (!Dangling(KindOf(p, f, lines[0])) && ResolvableIn(p, f, lines[1..]))
  }

  /** An import whose path cannot be resolved. */
  predicate Dangling(k: LineKind) { k.ImportLine? && k.target.None? }

  predicate Resolvable(p: Project, f: string) { ResolvableIn(p, f, LinesOf(p, f)) }

  function BodyIn(p: Project, f: string, lines: seq<string>): string {
    if lines == [] then ""
    else (if KindOf(p, f, lines[0]).BodyLine? then lines[0] else "") + BodyIn(p, f, lines[1..])
  }

  /** strlist_push_unique */
  function PushUnique(items: seq<string>, x: string): seq<string> {
    if x in items then items else items + [x]
  }

  /** The prefixes of the import lines, in order, added to some already known. */
  function PrefixesIn(p: Project, f: string, lines: seq<string>, known: seq<string>): seq<string> {
    if lines == [] then known
    else
      var k := KindOf(p, f, lines[0]);
      PrefixesIn(p, f, lines[1..], if k.ImportLine? && k.prefix != "" then PushUnique(known, k.prefix) else known)
  }

  /** The first package line. */
  function PackageIn(p: Project, f: string, lines: seq<string>): string {
    if lines == [] then "" else if KindOf(p, f, lines[0]).PackageLine? then lines[0] else PackageIn(p, f, lines[1..])
  }

  /** What a file adds of its own: its body lines without the prefixes of its imports. */
  function Body(p: Project, f: string): string {
    WithoutPrefixes(BodyIn(p, f, LinesOf(p, f)), PrefixesIn(p, f, LinesOf(p, f), []))
  }

  // ----- The search -----

  datatype ImportError = Missing(file: string) | Circular(file: string) | Unresolvable(file: string)
  datatype Loading = Loaded(text: string, loaded: seq<string>) | Failed(error: ImportError)

  /** Files that are not being merged yet: what bounds the recursion. */
  function Waiting(p: Project, active: seq<string>): set<string> { p.files.Keys - set f | f in active }

  function Load(p: Project, path: string, loaded: seq<string>, active: seq<string>): Loading
    decreases Waiting(p, active), 0, 0
  {
    if path in loaded then Loaded("", loaded)
    else if path in active then Failed(Circular(path))
    else if path !in p.files then Failed(Missing(path))
    else
      assert path in Waiting(p, active) && path !in Waiting(p, active + [path]);
      match LoadImports(p, path, LinesOf(p, path), loaded, active + [path])
      case Failed(e) => Failed(e)
      case Loaded(text, loaded1) =>
        Loaded((if active == [] then PackageIn(p, path, LinesOf(p, path)) else "") + text + Body(p, path),
               PushUnique(loaded1, path))
  }

  /** The import lines of a file, each merged before the next is looked at. */
  function LoadImports(p: Project, f: string, lines: seq<string>, loaded: seq<string>, active: seq<string>): Loading
    decreases Waiting(p, active), 1, |lines|
  {
    if lines == [] then Loaded("", loaded)
    else
      var k := KindOf(p, f, lines[0]);
      if !k.ImportLine? then LoadImports(p, f, lines[1..], loaded, active)
      else if k.target.None? then Failed(Unresolvable(f))
      else
        match Load(p, k.target.value, loaded, active)
        case Failed(e) => Failed(e)
        case Loaded(text, loaded1) =>
          match LoadImports(p, f, lines[1..], loaded1, active)
          case Failed(e) => Failed(e)
          case Loaded(more, loaded2) => Loaded(text + more, loaded2)
  }

  // ----- What one file contributes -----

  function Join(parts: seq<string>): string {
    if parts == [] then "" else parts[0] + Join(parts[1..])
  }

  /** One line with its line break, or the rest of the text without one. */
  predicate IsLine(line: string) {
    line != "" && forall i :: 0 <= i < |line| - 1 ==> line[i] != '\n'
  }

  lemma {:induction false} FirstLine(text: string)
    requires text != ""
    ensures var n := LineLength(text); IsLine(text[..n]) && (n < |text| ==> text[n - 1] == '\n')
  {
    if text[0] != '\n' && |text| > 1 {
      FirstLine(text[1..]);
      var n := LineLength(text[1..]);
      assert LineLength(text) == n + 1;
      var line := text[..n + 1];
      forall i | 0 <= i < n ensures line[i] != '\n' {
        if i > 0 { assert line[i] == text[1..][..n][i - 1]; }
      }
    }
  }

  const MARK: string := [0xEF as char, 0xBB as char, 0xBF as char]

  /** The mark is dropped once, and only at the start of the text. */
  lemma MarkDropped(text: string)
    ensures SkipMark(MARK + text) == text
    ensures !(MARK <= text) ==> SkipMark(text) == text
  {
    assert (MARK + text)[3..] == text;
    if |text| >= 3 { assert text[..3] == [text[0], text[1], text[2]]; }
  }

  /** A text is its lines one behind the other, and only the last may lack its line break. */
  lemma {:induction false} LinesOfText(text: string)
    ensures Join(Lines(text)) == text
    ensures forall i :: 0 <= i < |Lines(text)| ==>
      var line := Lines(text)[i]; IsLine(line) && (i < |Lines(text)| - 1 ==> line[|line| - 1] == '\n')
    decreases |text|
  {
    hide LineLength, IsLine;
    if text != "" {
      var n := LineLength(text);
      FirstLine(text);
      LinesOfText(text[n..]);
      assert text[..n] + text[n..] == text;
    }
  }

  /** What is classified is the line without its line break. */
  lemma BareLine(line: string)
    requires '\n' !in line
    ensures Bare(line + "\n") == line && Bare(line) == line
  {
    assert (line + "\n")[..|line|] == line;
    if line != "" { assert line[|line| - 1] in line; }
  }

  lemma {:induction false} BodyInSplit(p: Project, f: string, a: seq<string>, b: seq<string>)
    ensures BodyIn(p, f, a + b) == BodyIn(p, f, a) + BodyIn(p, f, b)
  {
    if a == [] {
      assert a + b == b;
    } else {
      assert (a + b)[1..] == a[1..] + b;
      BodyInSplit(p, f, a[1..], b);
    }
  }

  lemma BodyOfOne(p: Project, f: string, line: string)
    ensures KindOf(p, f, line).BodyLine? ==> BodyIn(p, f, [line]) == line
    ensures !KindOf(p, f, line).BodyLine? ==> BodyIn(p, f, [line]) == ""
  {
    assert [line][1..] == [];
  }

  /** Positions in ascending order. */
  predicate Ascending(at: seq<nat>, end: nat) {
    (forall i :: 0 <= i < |at| ==> at[i] < end) && forall i, j :: 0 <= i < j < |at| ==> at[i] < at[j]
  }

  /** The lines at the given positions, which are those of all body lines. */
  ghost predicate KeepsBodyLines(p: Project, f: string, lines: seq<string>, at: seq<nat>, kept: seq<string>) {
    && Ascending(at, |lines|) && |kept| == |at|
    && (forall i :: 0 <= i < |at| ==> kept[i] == lines[at[i]])
    && forall k :: 0 <= k < |lines| ==> (KindOf(p, f, lines[k]).BodyLine? <==> k in at)
  }

  /** The body is what remains of the lines, in their order, when import and package lines are deleted. */
  lemma {:induction false} BodyIsRest(p: Project, f: string, lines: seq<string>) returns (at: seq<nat>, kept: seq<string>)
    ensures KeepsBodyLines(p, f, lines, at, kept)
    ensures BodyIn(p, f, lines) == Join(kept)
  {
    if lines == [] {
      at, kept := [], [];
    } else {
      var n := |lines| - 1;
      var front := lines[..n];
      assert front + [lines[n]] == lines;
      BodyInSplit(p, f, front, [lines[n]]);
      BodyOfOne(p, f, lines[n]);
      at, kept := BodyIsRest(p, f, front);
      if KindOf(p, f, lines[n]).BodyLine? {
        JoinMore(kept, lines[n]);
        OneMoreLine(p, f, lines, at, kept);
        at, kept := at + [n], kept + [lines[n]];
      } else {
        forall k | 0 <= k < |lines| ensures KindOf(p, f, lines[k]).BodyLine? <==> k in at {
          if k < n { assert front[k] == lines[k]; }
        }
      }
    }
  }

  lemma OneMoreLine(p: Project, f: string, lines: seq<string>, at: seq<nat>, kept: seq<string>)
    requires lines != [] && KindOf(p, f, lines[|lines| - 1]).BodyLine?
    requires KeepsBodyLines(p, f, lines[..|lines| - 1], at, kept)
    ensures KeepsBodyLines(p, f, lines, at + [|lines| - 1], kept + [lines[|lines| - 1]])
  {
    hide KindOf;
    var n := |lines| - 1;
    forall k | 0 <= k < |lines| ensures KindOf(p, f, lines[k]).BodyLine? <==> k in at + [n] {
      if k < n { assert lines[..n][k] == lines[k]; }
    }
  }

  lemma {:induction false} JoinMore(parts: seq<string>, part: string)
    ensures Join(parts + [part]) == Join(parts) + part
  {
    if parts == [] {
      assert [] + [part] == [part] && [part][1..] == [];
    } else {
      assert (parts + [part])[1..] == parts[1..] + [part];
      JoinMore(parts[1..], part);
    }
  }

  predicate GivesPrefix(k: LineKind, prefix: string) { k.ImportLine? && k.prefix == prefix && prefix != "" }

  /** A prefix is removed if and only if some import line gives it, and each is listed once. */
  lemma {:induction false} PrefixesGiven(p: Project, f: string, lines: seq<string>, known: seq<string>)
    requires forall i, j :: 0 <= i < j < |known| ==> known[i] != known[j]
    ensures var r := PrefixesIn(p, f, lines, known);
      && known <= r && (forall i, j :: 0 <= i < j < |r| ==> r[i] != r[j])
      && forall x :: x in r <==> x in known || exists i :: 0 <= i < |lines| && GivesPrefix(KindOf(p, f, lines[i]), x)
    decreases |lines|
  {
    hide KindOf;
    if lines != [] {
      var k := KindOf(p, f, lines[0]);
      var more := if k.ImportLine? && k.prefix != "" then PushUnique(known, k.prefix) else known;
      PrefixesGiven(p, f, lines[1..], more);
      var r := PrefixesIn(p, f, lines, known);
      forall x ensures x in r <==> x in known || exists i :: 0 <= i < |lines| && GivesPrefix(KindOf(p, f, lines[i]), x) {
        if i :| 0 <= i < |lines| && GivesPrefix(KindOf(p, f, lines[i]), x) {
          if i > 0 { assert GivesPrefix(KindOf(p, f, lines[1..][i - 1]), x); }
        }
        if x in r && x !in more {
          var i :| 0 <= i < |lines[1..]| && GivesPrefix(KindOf(p, f, lines[1..][i]), x);
          assert GivesPrefix(KindOf(p, f, lines[i + 1]), x);
        } else if x in more && x !in known {
          assert GivesPrefix(KindOf(p, f, lines[0]), x);
        }
      }
    }
  }

  /** A file is imported if and only if some import line names it. */
  lemma {:induction false} TargetsNamed(p: Project, f: string, lines: seq<string>, t: string)
    ensures t in TargetsIn(p, f, lines) <==>
      exists i :: 0 <= i < |lines| && KindOf(p, f, lines[i]).ImportLine? && KindOf(p, f, lines[i]).target == Some(t)
  {
    hide KindOf;
    if lines != [] {
      TargetsNamed(p, f, lines[1..], t);
      if i :| 0 <= i < |lines[1..]| && KindOf(p, f, lines[1..][i]).ImportLine? && KindOf(p, f, lines[1..][i]).target == Some(t) {
        assert lines[i + 1] == lines[1..][i];
      }
      if i :| 0 < i < |lines| && KindOf(p, f, lines[i]).ImportLine? && KindOf(p, f, lines[i]).target == Some(t) {
        assert lines[i] == lines[1..][i - 1];
      }
    }
  }

  /** The package line is the first of its kind; without one there is none. */
  lemma {:induction false} PackageIsFirst(p: Project, f: string, lines: seq<string>, k: nat)
    requires k <= |lines| && forall i :: 0 <= i < k ==> !KindOf(p, f, lines[i]).PackageLine?
    requires k < |lines| ==> KindOf(p, f, lines[k]).PackageLine?
    ensures PackageIn(p, f, lines) == if k < |lines| then lines[k] else ""
  {
    hide KindOf;
    if k > 0 {
      forall i | 0 <= i < k - 1 ensures !KindOf(p, f, lines[1..][i]).PackageLine? {
        assert lines[1..][i] == lines[i + 1];
      }
      PackageIsFirst(p, f, lines[1..], k - 1);
    }
  }

  /** A file without directives. */
  predicate OnlyBody(p: Project, f: string) {
    f in p.files && forall i :: 0 <= i < |LinesOf(p, f)| ==> KindOf(p, f, LinesOf(p, f)[i]).BodyLine?
  }

  lemma {:induction false} OnlyBodyLines(p: Project, f: string, lines: seq<string>, loaded: seq<string>, active: seq<string>)
    requires forall i :: 0 <= i < |lines| ==> KindOf(p, f, lines[i]).BodyLine?
    ensures BodyIn(p, f, lines) == Join(lines)
    ensures PrefixesIn(p, f, lines, []) == [] && PackageIn(p, f, lines) == ""
    ensures LoadImports(p, f, lines, loaded, active) == Loaded("", loaded)
    decreases |lines|
  {
    hide KindOf;
    if lines != [] {
      forall i | 0 <= i < |lines[1..]| ensures KindOf(p, f, lines[1..][i]).BodyLine? {
        assert lines[1..][i] == lines[i + 1];
      }
      OnlyBodyLines(p, f, lines[1..], loaded, active);
    }
  }

  /** Flattening a file without directives gives its text, without a byte order mark. */
  lemma PlainEntry(p: Project, entry: string)
    requires OnlyBody(p, entry)
    ensures Load(p, entry, [], []) == Loaded(SkipMark(p.files[entry]), [entry])
  {
    hide Lines, SkipMark, WithoutPrefixes, Kept;
    var text := SkipMark(p.files[entry]);
    OnlyBodyLines(p, entry, LinesOf(p, entry), [], [entry]);
    LinesOfText(text);
    RewritingDeletesPrefixesOnly(text, []);
    assert [] + [entry] == [entry];
    assert entry in Waiting(p, []) && entry !in Waiting(p, [entry]);
    assert "" + "" + text == text;
  }

  // ----- The graph of imports -----

  /** A walk along imports. */
  ghost predicate Chain(p: Project, s: seq<string>) {
    s != [] && forall i :: 0 <= i < |s| - 1 ==> Imports(p, s[i], s[i + 1])
  }

  ghost predicate Imports(p: Project, f: string, g: string) { f in p.files && g in Targets(p, f) }

  ghost predicate Reaches(p: Project, a: string, b: string) {
    exists s :: Chain(p, s) && s[0] == a && s[|s| - 1] == b
  }

  lemma ReachesSelf(p: Project, a: string)
    ensures Reaches(p, a, a)
  {
    assert Chain(p, [a]);
  }

  lemma ReachesStep(p: Project, f: string, t: string, g: string)
    requires Imports(p, f, t) && Reaches(p, t, g)
    ensures Reaches(p, f, g)
  {
    hide Imports;
    var s :| Chain(p, s) && s[0] == t && s[|s| - 1] == g;
    var w := [f] + s;
    forall i | 0 <= i < |w| - 1 ensures Imports(p, w[i], w[i + 1]) {
      if i > 0 { assert w[i] == s[i - 1] && w[i + 1] == s[i]; }
    }
    assert Chain(p, w) && w[0] == f && w[|w| - 1] == g;
  }

  /** A list of files in which each comes once, exists, and comes behind everything it imports. */
  ghost predicate Ordered(p: Project, order: seq<string>) {
    forall i :: 0 <= i < |order| ==> InPlace(p, order, i)
  }

  ghost predicate InPlace(p: Project, order: seq<string>, i: nat)
    requires i < |order|
  {
    && order[i] in p.files && Resolvable(p, order[i])
    && order[i] !in order[..i]
    && forall t :: t in Targets(p, order[i]) ==> t in order[..i]
  }

  function Bodies(p: Project, files: seq<string>): string {
    if files == [] then "" else Body(p, files[0]) + Bodies(p, files[1..])
  }

  lemma {:induction false} BodiesAppend(p: Project, a: seq<string>, b: seq<string>)
    ensures Bodies(p, a + b) == Bodies(p, a) + Bodies(p, b)
  {
    hide Body;
    if a == [] {
      assert a + b == b;
    } else {
      assert (a + b)[1..] == a[1..] + b;
      BodiesAppend(p, a[1..], b);
    }
  }

  // ----- What a successful search has done -----

  /** loaded1 extends loaded by files that some member of "from" reaches, and text is their bodies. */
  ghost predicate Extends(p: Project, from: set<string>, loaded: seq<string>, active: seq<string>, loaded1: seq<string>, text: string) {
    && loaded <= loaded1
    && Ordered(p, loaded1)
    && (forall f :: f in active ==> f !in loaded1)
    && (forall g :: g in loaded1[|loaded|..] ==> ReachedFrom(p, from, g))
    && text == Bodies(p, loaded1[|loaded|..])
  }

  ghost predicate ReachedFrom(p: Project, from: set<string>, g: string) {
    exists t :: t in from && Reaches(p, t, g)
  }

  lemma {:induction false} LoadSound(p: Project, path: string, loaded: seq<string>, active: seq<string>)
    requires Ordered(p, loaded) && forall f :: f in active ==> f !in loaded
    ensures var r := Load(p, path, loaded, active);
      r.Loaded? ==>
        && path in r.loaded
        && exists text :: Extends(p, {path}, loaded, active, r.loaded, text)
             && r.text == (if active == [] && path !in loaded then PackageIn(p, path, LinesOf(p, path)) else "") + text
    decreases Waiting(p, active), 0, 0
  {
    var r := Load(p, path, loaded, active);
    if path in loaded {
      assert Extends(p, {path}, loaded, active, loaded, "") by { assert loaded[|loaded|..] == []; }
    } else if path !in active && path in p.files {
      assert path in Waiting(p, active) && path !in Waiting(p, active + [path]);
      ImportsSound(p, path, LinesOf(p, path), loaded, active + [path]);
      var i := LoadImports(p, path, LinesOf(p, path), loaded, active + [path]);
      if i.Loaded? { OneMore(p, path, loaded, active, i.loaded, i.text); }
    }
  }

  /** The file itself comes behind its imports. */
  lemma OneMore(p: Project, f: string, loaded: seq<string>, active: seq<string>, loaded1: seq<string>, text: string)
    requires f in p.files && f !in loaded && f !in active
    requires Extends(p, Targets(p, f), loaded, active + [f], loaded1, text)
    requires Targets(p, f) <= set g | g in loaded1
    requires Resolvable(p, f)
    ensures f !in loaded1
    ensures Extends(p, {f}, loaded, active, loaded1 + [f], text + Body(p, f))
  {
    hide Resolvable, Targets, Body;
    assert f in active + [f];
    var all := loaded1 + [f];
    forall i | 0 <= i < |all| ensures InPlace(p, all, i) {
      if i < |loaded1| {
        assert InPlace(p, loaded1, i) && all[..i] == loaded1[..i];
      } else {
        assert all[..i] == loaded1;
      }
    }
    forall g | g in all[|loaded|..] ensures ReachedFrom(p, {f}, g) {
      if g == f {
        ReachesSelf(p, f);
      } else {
        assert g in loaded1[|loaded|..];
        var t :| t in Targets(p, f) && Reaches(p, t, g);
        ReachesStep(p, f, t, g);
      }
    }
    assert all[|loaded|..] == loaded1[|loaded|..] + [f];
    BodiesAppend(p, loaded1[|loaded|..], [f]);
    assert Bodies(p, [f]) == Body(p, f);
  }

  lemma {:induction false} ImportsSound(p: Project, f: string, lines: seq<string>, loaded: seq<string>, active: seq<string>)
    requires Ordered(p, loaded) && active != [] && forall g :: g in active ==> g !in loaded
    ensures var r := LoadImports(p, f, lines, loaded, active);
      r.Loaded? ==>
        && Extends(p, TargetsIn(p, f, lines), loaded, active, r.loaded, r.text)
        && TargetsIn(p, f, lines) <= (set g | g in r.loaded)
        && ResolvableIn(p, f, lines)
    decreases Waiting(p, active), 1, |lines|
  {
    hide Ordered, Bodies;
    if lines == [] {
      assert Extends(p, {}, loaded, active, loaded, "") by { assert loaded[|loaded|..] == []; NoBodies(p); }
    } else {
      var k := KindOf(p, f, lines[0]);
      if !k.ImportLine? {
        ImportsSound(p, f, lines[1..], loaded, active);
      } else if k.target.Some? {
        LoadSound(p, k.target.value, loaded, active);
        var first := Load(p, k.target.value, loaded, active);
        if first.Loaded? {
          ExtendsOrdered(p, {k.target.value}, loaded, active, first.loaded, first.text);
          ImportsSound(p, f, lines[1..], first.loaded, active);
          var rest := LoadImports(p, f, lines[1..], first.loaded, active);
          if rest.Loaded? {
            ExtendsTwice(p, k.target.value, TargetsIn(p, f, lines[1..]), loaded, active, first.loaded, first.text, rest.loaded, rest.text);
          }
        }
      }
    }
  }

  lemma NoBodies(p: Project)
    ensures Bodies(p, []) == ""
  {
  }

  lemma ExtendsOrdered(p: Project, from: set<string>, loaded: seq<string>, active: seq<string>, loaded1: seq<string>, text: string)
    requires Extends(p, from, loaded, active, loaded1, text)
    ensures Ordered(p, loaded1) && forall g :: g in active ==> g !in loaded1
  {
  }

  lemma ExtendsTwice(p: Project, t: string, more: set<string>, loaded: seq<string>, active: seq<string>,
                     loaded1: seq<string>, text1: string, loaded2: seq<string>, text2: string)
    requires Extends(p, {t}, loaded, active, loaded1, text1)
    requires Extends(p, more, loaded1, active, loaded2, text2)
    ensures Extends(p, {t} + more, loaded, active, loaded2, text1 + text2)
  {
    hide Ordered, Body, Reaches;
    var a, b := loaded1[|loaded|..], loaded2[|loaded1|..];
    assert loaded2[|loaded|..] == a + b;
    BodiesAppend(p, a, b);
    forall g | g in a + b ensures ReachedFrom(p, {t} + more, g) {
      if g in a {
        assert ReachedFrom(p, {t}, g);
      } else {
        var u :| u in more && Reaches(p, u, g);
        assert u in {t} + more;
      }
    }
  }

  // ----- What a failed search has found -----

  ghost predicate OnCycle(p: Project, f: string) {
    exists s :: Chain(p, s) && |s| >= 2 && s[0] == f && s[|s| - 1] == f
  }

  /** The error is real: the file is reachable from root and is missing, imports something unresolvable, or
      imports itself. */
  ghost predicate Justified(p: Project, root: string, e: ImportError) {
    && Reaches(p, root, e.file)
    && match e
       case Missing(f) => f !in p.files
       case Unresolvable(f) => f in p.files && !Resolvable(p, f)
       case Circular(f) => OnCycle(p, f)
  }

  lemma ChainReaches(p: Project, s: seq<string>, i: nat)
    requires Chain(p, s) && i < |s|
    ensures Reaches(p, s[0], s[i])
  {
    var w := s[..i + 1];
    forall j | 0 <= j < |w| - 1 ensures Imports(p, w[j], w[j + 1]) {
      assert Imports(p, s[j], s[j + 1]);
    }
    assert Chain(p, w) && w[0] == s[0] && w[|w| - 1] == s[i];
  }

  lemma ChainMore(p: Project, s: seq<string>, t: string)
    requires Chain(p, s) && Imports(p, s[|s| - 1], t)
    ensures Chain(p, s + [t])
  {
    var w := s + [t];
    forall j | 0 <= j < |w| - 1 ensures Imports(p, w[j], w[j + 1]) {
      if j < |s| - 1 { assert Imports(p, s[j], s[j + 1]); }
    }
  }

  /** The file is on the stack already: the stack from there on is a cycle. */
  lemma StackIsCycle(p: Project, active: seq<string>, path: string)
    requires Chain(p, active + [path]) && path in active
    ensures OnCycle(p, path)
  {
    var s := active + [path];
    var i :| 0 <= i < |active| && active[i] == path;
    var w := s[i..];
    forall j | 0 <= j < |w| - 1 ensures Imports(p, w[j], w[j + 1]) {
      assert Imports(p, s[i + j], s[i + j + 1]);
    }
    assert Chain(p, w) && w[0] == path && w[|w| - 1] == path;
  }

  lemma {:induction false} LoadFails(p: Project, path: string, loaded: seq<string>, active: seq<string>)
    requires Chain(p, active + [path])
    ensures var r := Load(p, path, loaded, active); r.Failed? ==> Justified(p, (active + [path])[0], r.error)
    decreases Waiting(p, active), 0, 0
  {
    hide Chain, OnCycle, Reaches, Body, WithoutPrefixes;
    var s := active + [path];
    ChainReaches(p, s, |active|);
    if path !in loaded && path in active {
      StackIsCycle(p, active, path);
    } else if path !in loaded && path in p.files {
      assert path in Waiting(p, active) && path !in Waiting(p, active + [path]);
      AllOwnTargets(p, path);
      ImportsFail(p, path, LinesOf(p, path), loaded, active + [path]);
    }
  }

  lemma AllOwnTargets(p: Project, f: string)
    ensures ResolvableIn(p, f, LinesOf(p, f)) == Resolvable(p, f)
    ensures TargetsIn(p, f, LinesOf(p, f)) == Targets(p, f)
  {
  }

  lemma {:induction false} ImportsFail(p: Project, f: string, lines: seq<string>, loaded: seq<string>, active: seq<string>)
    requires active != [] && Chain(p, active) && active[|active| - 1] == f && f in p.files
    requires TargetsIn(p, f, lines) <= Targets(p, f)
    requires !ResolvableIn(p, f, lines) ==> !Resolvable(p, f)
    ensures var r := LoadImports(p, f, lines, loaded, active); r.Failed? ==> Justified(p, active[0], r.error)
    decreases Waiting(p, active), 1, |lines|
  {
    hide Chain, OnCycle, Reaches, Resolvable, Targets;
    if lines != [] {
      var k := KindOf(p, f, lines[0]);
      if !k.ImportLine? {
        ImportsFail(p, f, lines[1..], loaded, active);
      } else if k.target.None? {
        LastOfChain(p, active);
      } else {
        var t := k.target.value;
        assert t in TargetsIn(p, f, lines);
        ChainMore(p, active, t);
        LoadFails(p, t, loaded, active);
        var first := Load(p, t, loaded, active);
        assert (active + [t])[0] == active[0];
        if first.Loaded? {
          ImportsFail(p, f, lines[1..], first.loaded, active);
          var rest := LoadImports(p, f, lines[1..], first.loaded, active);
          assert rest.Failed? ==> LoadImports(p, f, lines, loaded, active) == rest;
        }
      }
    }
  }

  lemma LastOfChain(p: Project, active: seq<string>)
    requires Chain(p, active)
    ensures Reaches(p, active[0], active[|active| - 1])
  {
    ChainReaches(p, active, |active| - 1);
  }

  // ----- Order and cycles -----

  lemma {:induction false} OrderedChain(p: Project, order: seq<string>, s: seq<string>, i: nat)
    requires Ordered(p, order) && Chain(p, s) && i < |order| && s[0] == order[i]
    ensures exists j :: 0 <= j <= i && order[j] == s[|s| - 1] && (|s| >= 2 ==> j < i)
    decreases |s|
  {
    if |s| >= 2 {
      assert InPlace(p, order, i) && Imports(p, s[0], s[1]);
      var k :| 0 <= k < i && order[k] == s[1];
      var rest := s[1..];
      forall j | 0 <= j < |rest| - 1 ensures Imports(p, rest[j], rest[j + 1]) {
        assert Imports(p, s[j + 1], s[j + 2]);
      }
      OrderedChain(p, order, rest, k);
    } else {
      assert order[i] == s[|s| - 1];
    }
  }

  lemma OrderedDistinct(p: Project, order: seq<string>, i: nat, j: nat)
    requires Ordered(p, order) && j < i < |order|
    ensures order[i] != order[j]
  {
    assert InPlace(p, order, i) && order[j] in order[..i];
  }

  /** Everything reachable from a file of an ordered list is in the list, and nothing there imports itself. */
  lemma OrderedIsClosed(p: Project, order: seq<string>, entry: string, g: string)
    requires Ordered(p, order) && entry in order && Reaches(p, entry, g)
    ensures g in order && g in p.files && Resolvable(p, g) && !OnCycle(p, g)
  {
    hide Ordered, Resolvable;
    var s :| Chain(p, s) && s[0] == entry && s[|s| - 1] == g;
    var i :| 0 <= i < |order| && order[i] == entry;
    OrderedChain(p, order, s, i);
    var j :| 0 <= j < |order| && order[j] == g;
    InPlaceAt(p, order, j);
    if OnCycle(p, g) {
      var c :| Chain(p, c) && |c| >= 2 && c[0] == g && c[|c| - 1] == g;
      OrderedChain(p, order, c, j);
      var k :| 0 <= k < j && order[k] == g;
      OrderedDistinct(p, order, j, k);
    }
  }

  lemma InPlaceAt(p: Project, order: seq<string>, i: nat)
    requires Ordered(p, order) && i < |order|
    ensures order[i] in p.files && Resolvable(p, order[i])
  {
    assert InPlace(p, order, i);
  }

  // ----- The whole promise -----

  /** What an entry needs: everything reachable exists, resolves its own imports and is on no cycle. */
  ghost predicate Mergeable(p: Project, entry: string) {
    forall f :: Reaches(p, entry, f) ==> f in p.files && Resolvable(p, f) && !OnCycle(p, f)
  }

  /** order is what is reachable, each file once and behind its imports, and text is the entry's package line
      followed by their bodies in that order. */
  ghost predicate Merged(p: Project, entry: string, order: seq<string>, text: string) {
    && Ordered(p, order)
    && (forall f :: f in order <==> Reaches(p, entry, f))
    && text == PackageIn(p, entry, LinesOf(p, entry)) + Bodies(p, order)
  }

  /** Flattening succeeds exactly when everything reachable from the entry exists, resolves and is free of
      cycles; then every reachable file's body is there once, behind the bodies of the files it imports.
      When it fails, the file it names is at fault: reachable and missing, unresolvable or on a cycle. */
  lemma FlatteningIsExact(p: Project, entry: string)
    ensures var r := Load(p, entry, [], []);
      && (r.Loaded? <==> Mergeable(p, entry))
      && (r.Loaded? ==> Merged(p, entry, r.loaded, r.text))
      && (r.Failed? ==> Justified(p, entry, r.error))
  {
    hide Load, Chain, Reaches, OnCycle, Bodies, Resolvable, Ordered;
    var r := Load(p, entry, [], []);
    EmptyOrdered(p);
    LoadSound(p, entry, [], []);
    assert [] + [entry] == [entry];
    OneChain(p, entry);
    LoadFails(p, entry, [], []);
    if r.Loaded? {
      var text :| Extends(p, {entry}, [], [], r.loaded, text)
             && r.text == PackageIn(p, entry, LinesOf(p, entry)) + text;
      assert r.loaded[0..] == r.loaded;
      forall f ensures f in r.loaded <==> Reaches(p, entry, f) {
        if f in r.loaded { assert ReachedFrom(p, {entry}, f); }
        if Reaches(p, entry, f) { OrderedIsClosed(p, r.loaded, entry, f); }
      }
      forall f | Reaches(p, entry, f) ensures f in p.files && Resolvable(p, f) && !OnCycle(p, f) {
        OrderedIsClosed(p, r.loaded, entry, f);
      }
    }
  }

  lemma EmptyOrdered(p: Project)
    ensures Ordered(p, [])
  {
  }

  lemma OneChain(p: Project, entry: string)
    ensures Chain(p, [entry])
  {
  }

  // ----- The search in its own form -----

  datatype Outcome = Text(text: string) | Refused(error: ImportError)

  class ImportContext {
    const p: Project
    var loaded: seq<string>
    var active: seq<string>

    constructor (p: Project)
      ensures this.p == p && loaded == [] && active == []
    {
      this.p := p;
      loaded, active := [], [];
    }

    /** strlist_contains */
    static method Contains(items: seq<string>, x: string) returns (found: bool)
      ensures found == (x in items)
    {
      var i := 0;
      while i < |items|
        invariant i <= |items| && x !in items[..i]
      {
        if items[i] == x { return true; }
        i := i + 1;
      }
      found := false;
    }

    /** resolve_imports_recursive.  After a failure the whole merge is given up. */
    method Resolve(path: string) returns (r: Outcome)
      modifies this
      ensures active == old(active)
      ensures var l := Load(p, path, old(loaded), old(active));
        && (l.Loaded? ==> r == Text(l.text) && loaded == l.loaded)
        && (l.Failed? ==> r == Refused(l.error))
      decreases Waiting(p, active), 0, 0
    {
      hide Body, LinesOf, PackageIn;
      var known := Contains(loaded, path);
      if known { return Text(""); }
      var busy := Contains(active, path);
      if busy { return Refused(Circular(path)); }
      if path !in p.files { return Refused(Missing(path)); }
      assert path in Waiting(p, active) && path !in Waiting(p, active + [path]);
      active := active + [path];
      var isEntry := |active| == 1;
      var lines := LinesOf(p, path);
      r := ResolveLines(path, lines);
      active := active[..|active| - 1];
      if r.Text? {
        var prefixes := CollectPrefixes(path, lines);
        var body := RewritePrefixedCalls(BodyIn(p, path, lines), prefixes);
        OwnBody(p, path);
        r := Text((if isEntry then PackageIn(p, path, lines) else "") + r.text + body);
        var again := Contains(loaded, path);
        if !again { loaded := loaded + [path]; }
      }
    }

    /** The import lines, one after the other. */
    method ResolveLines(f: string, lines: seq<string>) returns (r: Outcome)
      requires f in active
      modifies this
      ensures active == old(active)
      ensures var l := LoadImports(p, f, lines, old(loaded), old(active));
        && (l.Loaded? ==> r == Text(l.text) && loaded == l.loaded)
        && (l.Failed? ==> r == Refused(l.error))
      decreases Waiting(p, active), 1, |lines|
    {
      var text := "";
      var i := 0;
      while i < |lines|
        invariant i <= |lines| && active == old(active)
        invariant Behind(text, LoadImports(p, f, lines[i..], loaded, active), LoadImports(p, f, lines, old(loaded), old(active)))
      {
        var k := KindOf(p, f, lines[i]);
        assert lines[i..][0] == lines[i] && lines[i..][1..] == lines[i + 1..];
        if k.ImportLine? {
          if k.target.None? { return Refused(Unresolvable(f)); }
          ghost var before := loaded;
          var part := Resolve(k.target.value);
          if part.Refused? { return part; }
          ghost var rest := LoadImports(p, f, lines[i + 1..], loaded, active);
          if rest.Loaded? { assert text + (part.text + rest.text) == (text + part.text) + rest.text; }
          text := text + part.text;
        }
        i := i + 1;
      }
      r := Text(text);
    }

    /** The prefixes of the import lines, each once. */
    method CollectPrefixes(f: string, lines: seq<string>) returns (prefixes: seq<string>)
      ensures prefixes == PrefixesIn(p, f, lines, [])
    {
      prefixes := [];
      var i := 0;
      while i < |lines|
        invariant i <= |lines|
        invariant PrefixesIn(p, f, lines[i..], prefixes) == PrefixesIn(p, f, lines, [])
      {
        var k := KindOf(p, f, lines[i]);
        assert lines[i..][0] == lines[i] && lines[i..][1..] == lines[i + 1..];
        if k.ImportLine? && k.prefix != "" {
          var known := Contains(prefixes, k.prefix);
          if !known { prefixes := prefixes + [k.prefix]; }
        }
        i := i + 1;
      }
    }
  }

  /** The result of the remaining lines behind text already merged. */
  ghost predicate Behind(text: string, rest: Loading, whole: Loading) {
    && whole.Loaded? == rest.Loaded?
    && (rest.Loaded? ==> whole.text == text + rest.text && whole.loaded == rest.loaded)
    && (rest.Failed? ==> whole.error == rest.error)
  }

  lemma OwnBody(p: Project, f: string)
    ensures Body(p, f) == WithoutPrefixes(BodyIn(p, f, LinesOf(p, f)), PrefixesIn(p, f, LinesOf(p, f), []))
  {
  }

  /** resolve_source_with_imports */
  method Flatten(p: Project, entry: string) returns (r: Outcome)
    ensures r.Text? <==> Mergeable(p, entry)
    ensures r.Text? ==> exists order :: Merged(p, entry, order, r.text)
    ensures r.Refused? ==> Justified(p, entry, r.error)
    ensures OnlyBody(p, entry) ==> r == Text(SkipMark(p.files[entry]))
  {
    hide Load, Mergeable, Merged, Justified, SkipMark, LinesOf;
    if OnlyBody(p, entry) { PlainEntry(p, entry); }
    var ctx := new ImportContext(p);
    r := ctx.Resolve(entry);
    FlatteningIsExact(p, entry);
    if r.Text? { assert Merged(p, entry, ctx.loaded, r.text); }
  }
}
