/** What an expansion means.  Substituting parameters by themselves changes nothing, and evaluating a body with literals
    put in for its parameters is evaluating the body in a scope that binds the parameters to them. */
module BsSubstitution {
  import opened BsAst
  import opened BsValue
  import opened BsScopes
  import opened BsInterpreter
  import opened BsMacros

  // ----- Identity -----

  lemma {:induction false} SubstNothing(n: Node)
    ensures Subst(n, [], []) == n
    decreases n
  {
    if !n.Identifier? {
      var ks := seq(|Kids(n)|, i requires 0 <= i < |Kids(n)| => Subst(Kids(n)[i], [], []));
      forall i | 0 <= i < |Kids(n)| ensures ks[i] == Kids(n)[i] { SubstNothing(Kids(n)[i]); }
      assert ks == Kids(n);
    }
  }

  function Themselves(params: seq<string>): seq<Node> {
    seq(|params|, i requires 0 <= i < |params| => Identifier(params[i]))
  }

  /** A tree whose parameters are replaced by themselves is the same tree, whatever its nodes are. */
  lemma {:induction false} SubstThemselves(n: Node, params: seq<string>)
    ensures Subst(n, params, Themselves(params)) == n
    decreases n
  {
    if !n.Identifier? {
      var args := Themselves(params);
      var ks := seq(|Kids(n)|, i requires 0 <= i < |Kids(n)| => Subst(Kids(n)[i], params, args));
      forall i | 0 <= i < |Kids(n)| ensures ks[i] == Kids(n)[i] { SubstThemselves(Kids(n)[i], params); }
      assert ks == Kids(n);
    }
  }

  // ----- Which bodies and which states -----

  predicate Apart(names: seq<string>, params: seq<string>) {
    forall i :: 0 <= i < |names| ==> names[i] !in params
  }

  /** The name a node binds, assigns or calls. */
  predicate NameApart(n: Node, params: seq<string>) {
    match n
    case Assign(x, _) => x !in params
    case VarDecl(x, _, _) => x !in params
    case Call(f, _) => f !in params
    case CustomCall(f, _, _) => f !in params
    case FuncDecl(f, ps, _) => f !in params && Apart(ps, params)
    case CommandDef(_, ps, _) => Apart(ps, params)
    case MacroDef(_, ps, _) => Apart(ps, params)
    case _ => true
  }

  /** The tree does not mention the parameters at all. */
  predicate Unmentioned(n: Node, params: seq<string>)
    decreases n, 1
  {
    && (n.Identifier? ==> n.name !in params)
    && (n.Literal? ==> ValueApart(n.lit, params))
    && NameApart(n, params)
    && forall i :: 0 <= i < |Kids(n)| ==> Unmentioned(Kids(n)[i], params)
  }

  /** A function value that does not mention them; every other value. */
  predicate ValueApart(v: Value, params: seq<string>)
    decreases v, 0
  {
    v.Function? ==> Apart(v.params, params) && Unmentioned(v.body, params)
  }

  /** A body that uses its parameters as values only: it binds, assigns and calls none of them, and the functions and
      commands it defines do not mention them. */
  predicate UsesOnly(n: Node, params: seq<string>)
    decreases n
  {
    && (n.Literal? ==> ValueApart(n.lit, params))
    && NameApart(n, params)
    && (n.FuncDecl? || n.CommandDef? || n.MacroDef? ==> Unmentioned(n, params))
    && forall i :: 0 <= i < |Kids(n)| ==> UsesOnly(Kids(n)[i], params)
  }

  lemma {:induction false} UnmentionedUses(n: Node, params: seq<string>)
    requires Unmentioned(n, params)
    ensures UsesOnly(n, params)
    decreases n
  {
    forall i | 0 <= i < |Kids(n)| ensures UsesOnly(Kids(n)[i], params) { UnmentionedUses(Kids(n)[i], params); }
  }

  /** Where no parameter is mentioned nothing is substituted. */
  lemma {:induction false} UnmentionedSubst(n: Node, params: seq<string>, args: seq<Node>)
    requires Unmentioned(n, params) && |params| <= |args|
    ensures Subst(n, params, args) == n
    decreases n
  {
    if !n.Identifier? {
      var ks := seq(|Kids(n)|, i requires 0 <= i < |Kids(n)| => Subst(Kids(n)[i], params, args));
      forall i | 0 <= i < |Kids(n)| ensures ks[i] == Kids(n)[i] { UnmentionedSubst(Kids(n)[i], params, args); }
      assert ks == Kids(n);
    }
  }

  /** Functions are called in the scope of their caller, so the functions and commands that exist must not mention the
      parameters either, nor must values that come from outside. */
  ghost predicate Outside(h: Host, params: seq<string>) {
    && (forall name, args :: ValueApart(h.natives(name, args).0, params))
    && forall a, b :: ValueApart(h.floatDiv(a, b), params)
  }

  predicate ScopeApart(scope: Scope, params: seq<string>) {
    forall x :: x in scope ==> ValueApart(scope[x].value, params)
  }

  predicate StateApart(s: State, params: seq<string>) {
    && (forall j :: 0 <= j < |s.scopes| ==> ScopeApart(s.scopes[j], params))
    && forall c :: c in s.cmds && s.cmds[c].AstCommand? ==>
         Apart(s.cmds[c].params, params) && Unmentioned(s.cmds[c].body, params)
  }

  // ----- Two states: with the literals in the tree, and with a scope that binds the parameters -----

  /** Parameters and the values put in for them. */
  datatype Binder = Binder(params: seq<string>, values: seq<Value>) {
    predicate Valid() {
      |params| <= |values| && forall i :: 0 <= i < |values| ==> ValueApart(values[i], params)
    }
    function Literals(): (r: seq<Node>)
      ensures |r| == |values| && forall i :: 0 <= i < |r| ==> r[i] == Literal(values[i])
    {
      seq(|values|, i requires 0 <= i < |values| => Literal(values[i]))
    }
    function Bound(): (r: Scope)
      requires |params| <= |values|
      ensures forall x :: x in r <==> x in params
      ensures forall x :: x in r ==> r[x] == Binding(values[IndexOf(params, x)], false)
    {
      map x | x in params :: Binding(values[IndexOf(params, x)], false)
    }
    function In(n: Node): Node
      requires |params| <= |values|
    {
      Subst(n, params, Literals())
    }
  }

  function Get(scope: Scope, x: string): Option<Binding> { if x in scope then Some(scope[x]) else None }

  /** Scope b is scope a under a scope that binds the parameters and may have gained other names. */
  ghost predicate Merged(bound: Scope, a: Scope, over: Scope, b: Scope) {
    forall x :: if x in bound then Get(over, x) == Some(bound[x]) && Get(a, x) == Get(b, x)
                else Get(a, x) == if x in over then Some(over[x]) else Get(b, x)
  }

  /** The second chain has the scope of the parameters below its d innermost scopes. */
  ghost predicate Inserted(bound: Scope, d: nat, a: seq<Scope>, b: seq<Scope>) {
    && d < |a| && |b| == |a| + 1
    && (forall j :: 0 <= j < d ==> a[j] == b[j] && forall x :: x in bound ==> x !in a[j])
    && (forall j :: d < j < |a| ==> a[j] == b[j + 1])
    && Merged(bound, a[d], b[d], b[d + 1])
  }

  ghost predicate Matches(c: Binder, d: nat, s: State, t: State) {
    && c.Valid() && Inserted(c.Bound(), d, s.scopes, t.scopes)
    && s.cmds == t.cmds && s.out == t.out
    && StateApart(s, c.params)
  }

  ghost predicate SameResult(c: Binder, d: nat, r: Result, q: Result) {
    r.status == q.status && r.value == q.value && ValueApart(r.value, c.params) && Matches(c, d, r.st, q.st)
  }

  // ----- Scope operations keep the match -----

  lemma {:induction false} LookupMatches(bound: Scope, d: nat, a: seq<Scope>, b: seq<Scope>, x: string)
    requires Inserted(bound, d, a, b)
    ensures x in bound ==> Lookup(b, x) == Some(bound[x])
    ensures x !in bound ==> Lookup(a, x) == Lookup(b, x)
    decreases d
  {
    if d > 0 {
      InsertedRest(bound, d, a, b);
      LookupMatches(bound, d - 1, a[1..], b[1..], x);
    } else {
      assert a[1..] == b[2..] && b[1..][0] == b[1] && b[1..][1..] == b[2..];
      assert Get(a[0], x) == Get(a[0], x);
    }
  }

  lemma InsertedRest(bound: Scope, d: nat, a: seq<Scope>, b: seq<Scope>)
    requires Inserted(bound, d, a, b) && d > 0
    ensures Inserted(bound, d - 1, a[1..], b[1..]) && a[0] == b[0]
  {
    hide Merged;
    forall j | 0 <= j < d - 1 ensures a[1..][j] == b[1..][j] && forall x :: x in bound ==> x !in a[1..][j] {
      assert a[1..][j] == a[j + 1];
    }
  }

  lemma InsertedMore(bound: Scope, d: nat, a: seq<Scope>, b: seq<Scope>, top: Scope)
    requires Inserted(bound, d, a, b) && forall x :: x in bound ==> x !in top
    ensures Inserted(bound, d + 1, [top] + a, [top] + b)
  {
    hide Merged;
    var a1, b1 := [top] + a, [top] + b;
    assert a1[d + 1] == a[d] && b1[d + 1] == b[d] && b1[d + 2] == b[d + 1];
    forall j | 0 <= j < d + 1 ensures a1[j] == b1[j] && forall x :: x in bound ==> x !in a1[j] {
      if j > 0 { assert a1[j] == a[j - 1] && b1[j] == b[j - 1]; }
    }
    forall j | d + 1 < j < |a1| ensures a1[j] == b1[j + 1] { assert a1[j] == a[j - 1] && b1[j + 1] == b[j]; }
  }

  lemma {:induction false} AssignMatches(bound: Scope, d: nat, a: seq<Scope>, b: seq<Scope>, x: string, v: Value)
    requires Inserted(bound, d, a, b) && x !in bound
    ensures var r, q := AssignTo(a, x, v), AssignTo(b, x, v);
      r.Some? == q.Some? && (r.Some? ==> Inserted(bound, d, r.value, q.value))
    decreases d
  {
    hide Inserted;
    if d > 0 {
      TopKeeps(bound, d, a, b);
      InsertedRest(bound, d, a, b);
      AssignMatches(bound, d - 1, a[1..], b[1..], x, v);
      AssignDeeper(bound, d, a, b, x, v);
    } else {
      AssignHere(bound, a, b, x, v);
    }
  }

  lemma AssignDeeper(bound: Scope, d: nat, a: seq<Scope>, b: seq<Scope>, x: string, v: Value)
    requires Inserted(bound, d, a, b) && x !in bound && d > 0
    requires var r, q := AssignTo(a[1..], x, v), AssignTo(b[1..], x, v);
      r.Some? == q.Some? && (r.Some? ==> Inserted(bound, d - 1, r.value, q.value))
    ensures var r, q := AssignTo(a, x, v), AssignTo(b, x, v);
      r.Some? == q.Some? && (r.Some? ==> Inserted(bound, d, r.value, q.value))
  {
    TopKeeps(bound, d, a, b);
    hide Inserted;
    if x in a[0] {
      if !a[0][x].isConst { ReplacedTop(bound, d, a, b, a[0][x := Binding(v, false)]); }
    } else {
      var r, q := AssignTo(a[1..], x, v), AssignTo(b[1..], x, v);
      if r.Some? { InsertedMore(bound, d - 1, r.value, q.value, a[0]); }
    }
  }

  lemma TopKeeps(bound: Scope, d: nat, a: seq<Scope>, b: seq<Scope>)
    requires Inserted(bound, d, a, b) && d > 0
    ensures a != [] && b != [] && a[0] == b[0] && forall x :: x in bound ==> x !in a[0]
  {
    hide Merged;
  }

  lemma ReplacedTop(bound: Scope, d: nat, a: seq<Scope>, b: seq<Scope>, top: Scope)
    requires Inserted(bound, d, a, b) && d > 0 && forall x :: x in bound ==> x !in top
    ensures Inserted(bound, d, a[0 := top], b[0 := top])
  {
    hide Merged;
  }

  lemma AssignHere(bound: Scope, a: seq<Scope>, b: seq<Scope>, x: string, v: Value)
    requires Inserted(bound, 0, a, b) && x !in bound
    ensures var r, q := AssignTo(a, x, v), AssignTo(b, x, v);
      r.Some? == q.Some? && (r.Some? ==> Inserted(bound, 0, r.value, q.value))
  {
    assert Get(a[0], x) == if x in b[0] then Some(b[0][x]) else Get(b[1], x);
    assert a[1..] == b[2..] && b[1..][0] == b[1] && b[1..][1..] == b[2..];
    var n := Binding(v, false);
    if x in b[0] {
      if !b[0][x].isConst {
        MergedOver(bound, a[0], b[0], b[1], x, n);
        SameBelow(bound, a, b, a[0 := a[0][x := n]], b[0 := b[0][x := n]]);
      }
    } else if x in b[1] {
      if !b[1][x].isConst {
        MergedUnder(bound, a[0], b[0], b[1], x, n);
        assert AssignTo(b[1..], x, v) == Some(b[1..][0 := b[1][x := n]]);
        SameBelow(bound, a, b, a[0 := a[0][x := n]], [b[0]] + b[1..][0 := b[1][x := n]]);
      }
    } else {
      var r := AssignTo(a[1..], x, v);
      if r.Some? {
        AssignLength(a[1..], x, v);
        BelowChanged(bound, a, b, r.value);
      }
    }
  }

  lemma MergedOver(bound: Scope, a: Scope, over: Scope, b: Scope, x: string, n: Binding)
    requires Merged(bound, a, over, b) && x !in bound
    ensures Merged(bound, a[x := n], over[x := n], b)
  {
  }

  lemma MergedUnder(bound: Scope, a: Scope, over: Scope, b: Scope, x: string, n: Binding)
    requires Merged(bound, a, over, b) && x !in bound && x !in over
    ensures Merged(bound, a[x := n], over, b[x := n])
  {
  }

  lemma SameBelow(bound: Scope, a: seq<Scope>, b: seq<Scope>, a1: seq<Scope>, b1: seq<Scope>)
    requires Inserted(bound, 0, a, b) && |a1| == |a| && |b1| == |b|
    requires (forall j :: 0 < j < |a| ==> a1[j] == a[j]) && forall j :: 1 < j < |b| ==> b1[j] == b[j]
    requires Merged(bound, a1[0], b1[0], b1[1])
    ensures Inserted(bound, 0, a1, b1)
  {
    hide Merged;
  }

  lemma BelowChanged(bound: Scope, a: seq<Scope>, b: seq<Scope>, below: seq<Scope>)
    requires Inserted(bound, 0, a, b) && |below| == |a| - 1
    ensures Inserted(bound, 0, [a[0]] + below, [b[0]] + ([b[1]] + below))
  {
    hide Merged;
    var a1, b1 := [a[0]] + below, [b[0]] + ([b[1]] + below);
    assert b1[1] == b[1];
    forall j | 0 < j < |a1| ensures a1[j] == b1[j + 1] { assert a1[j] == below[j - 1] && b1[j + 1] == below[j - 1]; }
  }

  lemma {:induction false} AssignLength(a: seq<Scope>, x: string, v: Value)
    requires AssignTo(a, x, v).Some?
    ensures |AssignTo(a, x, v).value| == |a|
  {
    if x !in a[0] { AssignLength(a[1..], x, v); }
  }

  lemma DefineMatches(bound: Scope, d: nat, a: seq<Scope>, b: seq<Scope>, x: string, v: Value, isConst: bool)
    requires Inserted(bound, d, a, b) && x !in bound
    ensures Inserted(bound, d, Define(a, x, v, isConst), Define(b, x, v, isConst))
  {
    var n := Binding(v, isConst);
    if d > 0 {
      ReplacedTop(bound, d, a, b, a[0][x := n]);
    } else {
      MergedOver(bound, a[0], b[0], b[1], x, n);
      SameBelow(bound, a, b, a[0 := a[0][x := n]], b[0 := b[0][x := n]]);
    }
  }

  // ----- States -----

  lemma {:induction false} LookupApart(scopes: seq<Scope>, x: string, params: seq<string>)
    requires forall j :: 0 <= j < |scopes| ==> ScopeApart(scopes[j], params)
    ensures var b := Lookup(scopes, x); b.Some? ==> ValueApart(b.value.value, params)
  {
    hide ValueApart;
    if scopes != [] && x !in scopes[0] { LookupApart(scopes[1..], x, params); }
  }

  lemma {:induction false} AssignApart(scopes: seq<Scope>, x: string, v: Value, params: seq<string>)
    requires (forall j :: 0 <= j < |scopes| ==> ScopeApart(scopes[j], params)) && ValueApart(v, params)
    ensures var r := AssignTo(scopes, x, v); r.Some? ==> forall j :: 0 <= j < |r.value| ==> ScopeApart(r.value[j], params)
  {
    hide ValueApart;
    if scopes != [] && x !in scopes[0] { AssignApart(scopes[1..], x, v, params); }
  }

  lemma ReadMatches(c: Binder, d: nat, s: State, t: State, x: string)
    requires Matches(c, d, s, t)
    ensures x in c.params ==> Lookup(t.scopes, x) == Some(Binding(c.values[IndexOf(c.params, x)], false))
    ensures x !in c.params ==>
      Lookup(s.scopes, x) == Lookup(t.scopes, x)
      && (Lookup(s.scopes, x).Some? ==> ValueApart(Lookup(s.scopes, x).value.value, c.params))
  {
    hide ValueApart, Inserted, Lookup;
    LookupMatches(c.Bound(), d, s.scopes, t.scopes, x);
    LookupApart(s.scopes, x, c.params);
  }

  lemma WriteMatches(c: Binder, d: nat, s: State, t: State, x: string, v: Value)
    requires Matches(c, d, s, t) && x !in c.params && ValueApart(v, c.params)
    ensures var r, q := AssignTo(s.scopes, x, v), AssignTo(t.scopes, x, v);
      r.Some? == q.Some? && (r.Some? ==> Matches(c, d, s.(scopes := r.value), t.(scopes := q.value)))
  {
    hide ValueApart, Inserted, AssignTo;
    AssignMatches(c.Bound(), d, s.scopes, t.scopes, x, v);
    AssignApart(s.scopes, x, v, c.params);
  }

  lemma NewMatches(c: Binder, d: nat, s: State, t: State, x: string, v: Value, isConst: bool)
    requires Matches(c, d, s, t) && x !in c.params && ValueApart(v, c.params)
    ensures Matches(c, d, s.(scopes := Define(s.scopes, x, v, isConst)), t.(scopes := Define(t.scopes, x, v, isConst)))
  {
    hide ValueApart, Inserted;
    DefineMatches(c.Bound(), d, s.scopes, t.scopes, x, v, isConst);
  }

  lemma PushMatches(c: Binder, d: nat, s: State, t: State)
    requires Matches(c, d, s, t)
    ensures Matches(c, d + 1, s.Push(), t.Push())
  {
    hide ValueApart, Inserted;
    InsertedMore(c.Bound(), d, s.scopes, t.scopes, map[]);
  }

  lemma PopMatches(c: Binder, d: nat, s: State, t: State)
    requires Matches(c, d, s, t) && d > 0
    ensures Matches(c, d - 1, s.Pop(), t.Pop())
  {
    hide ValueApart;
    InsertedRest(c.Bound(), d, s.scopes, t.scopes);
    hide Inserted;
  }

  lemma {:induction false} ParamsMatch(c: Binder, d: nat, s: State, t: State, names: seq<string>, values: seq<Value>)
    requires Matches(c, d, s, t) && Apart(names, c.params)
    requires forall i :: 0 <= i < |values| ==> ValueApart(values[i], c.params)
    ensures Matches(c, d, s.(scopes := DefineParams(s.scopes, names, values)), t.(scopes := DefineParams(t.scopes, names, values)))
    decreases names
  {
    hide ValueApart, Matches, Define;
    if names != [] && values != [] {
      NewMatches(c, d, s, t, names[0], values[0], false);
      var s1 := s.(scopes := Define(s.scopes, names[0], values[0], false));
      var t1 := t.(scopes := Define(t.scopes, names[0], values[0], false));
      ParamsMatch(c, d, s1, t1, names[1..], values[1..]);
    }
  }

  /** The flag plays no part in the match. */
  lemma FlagsMatch(c: Binder, d: nat, s: State, t: State, a: bool, b: bool)
    requires Matches(c, d, s, t)
    ensures Matches(c, d, s.Check(a), t.Check(b))
  {
    hide ValueApart, Inserted;
  }

  lemma OutputMatches(c: Binder, d: nat, s: State, t: State, text: string)
    requires Matches(c, d, s, t)
    ensures Matches(c, d, s.Emit(text), t.Emit(text))
  {
    hide ValueApart, Inserted;
  }

  lemma SameCommands(c: Binder, d: nat, s: State, t: State)
    requires Matches(c, d, s, t)
    ensures s.cmds == t.cmds
    ensures forall n :: n in s.cmds && s.cmds[n].AstCommand? ==>
      Apart(s.cmds[n].params, c.params) && Unmentioned(s.cmds[n].body, c.params)
  {
    hide Inserted, Apart, Unmentioned;
  }

  // ----- Shapes of substituted trees -----

  function All(c: Binder, ns: seq<Node>): (r: seq<Node>)
    requires c.Valid()
    ensures |r| == |ns| && forall i :: 0 <= i < |r| ==> r[i] == c.In(ns[i])
  {
    seq(|ns|, i requires 0 <= i < |ns| => c.In(ns[i]))
  }

  lemma AllRest(c: Binder, ns: seq<Node>)
    requires c.Valid() && ns != []
    ensures All(c, ns) != [] && All(c, ns)[0] == c.In(ns[0]) && All(c, ns)[1..] == All(c, ns[1..])
  {
    hide Binder.In;
    var a, b := All(c, ns)[1..], All(c, ns[1..]);
    forall i | 0 <= i < |a| ensures a[i] == b[i] { assert a[i] == All(c, ns)[i + 1]; }
  }

  /** What becomes of an expression's node. */
  lemma ExprShape(c: Binder, n: Node)
    requires c.Valid()
    ensures n.Nil? ==> c.In(n) == Nil
    ensures n.Literal? ==> c.In(n) == n
    ensures n.Identifier? ==>
      c.In(n) == if n.name in c.params then Literal(c.values[IndexOf(c.params, n.name)]) else n
    ensures n.Unary? ==> c.In(n) == Unary(n.op, c.In(n.operand))
    ensures n.Binary? ==> c.In(n) == Binary(n.op, c.In(n.left), c.In(n.right))
    ensures n.Assign? ==> c.In(n) == Assign(n.name, c.In(n.expr))
  {
    hide IndexOf;
  }

  lemma SameLength(c: Binder, n: Node)
    requires c.Valid() && !n.Identifier?
    ensures Kids(c.In(n)) == All(c, Kids(n))
  {
    hide Kids, WithKids, IndexOf;
    assert Kids(c.In(n)) == All(c, Kids(n));
  }

  lemma ListShape(c: Binder, n: Node)
    requires c.Valid()
    ensures n.Call? ==> c.In(n) == Call(n.name, All(c, n.args))
    ensures n.Block? ==> c.In(n) == Block(All(c, n.stmts))
    ensures n.CustomCall? ==> c.In(n) == CustomCall(n.name, All(c, n.args), c.In(n.body))
  {
    hide IndexOf;
    if n.Call? || n.Block? || n.CustomCall? {
      SameLength(c, n);
      var ks := Kids(c.In(n));
      if n.CustomCall? {
        assert Kids(n) == n.args + [n.body];
        assert ks[..|n.args|] == All(c, n.args);
      }
    }
  }

  lemma StmtShape(c: Binder, n: Node)
    requires c.Valid()
    ensures n.VarDecl? ==> c.In(n) == VarDecl(n.name, n.isConst, c.In(n.expr))
    ensures n.ExprStmt? ==> c.In(n) == ExprStmt(c.In(n.expr))
    ensures n.If? ==> c.In(n) == If(c.In(n.cond), c.In(n.thenBranch), c.In(n.elseBranch))
    ensures n.While? ==> c.In(n) == While(c.In(n.cond), c.In(n.body))
    ensures n.For? ==> c.In(n) == For(c.In(n.init), c.In(n.cond), c.In(n.update), c.In(n.body))
    ensures n.Return? ==> c.In(n) == Return(c.In(n.expr))
    ensures n.Print? ==> c.In(n) == Print(c.In(n.expr), n.isRaw, n.addNewline)
    ensures n.Break? || n.Continue? || n.Package? || n.Import? ==> c.In(n) == n
    ensures (n.FuncDecl? || n.CommandDef? || n.MacroDef?) && Unmentioned(n, c.params) ==> c.In(n) == n
  {
    if (n.FuncDecl? || n.CommandDef? || n.MacroDef?) && Unmentioned(n, c.params) {
      UnmentionedSubst(n, c.params, c.Literals());
    }
    hide IndexOf, Unmentioned;
  }

  lemma MissingShape(c: Binder, n: Node)
    requires c.Valid()
    ensures c.In(n).Nil? == n.Nil?
  {
    hide IndexOf;
    if !n.Identifier? { SameKind(n, Kids(c.In(n))); }
  }

  lemma KidsUse(n: Node, params: seq<string>)
    requires UsesOnly(n, params)
    ensures NameApart(n, params) && (n.Literal? ==> ValueApart(n.lit, params))
    ensures n.Unary? ==> UsesOnly(n.operand, params)
    ensures n.Binary? ==> UsesOnly(n.left, params) && UsesOnly(n.right, params)
    ensures n.Assign? || n.VarDecl? || n.ExprStmt? || n.Return? || n.Print? ==> UsesOnly(n.expr, params)
    ensures n.Call? ==> forall i :: 0 <= i < |n.args| ==> UsesOnly(n.args[i], params)
    ensures n.Block? ==> forall i :: 0 <= i < |n.stmts| ==> UsesOnly(n.stmts[i], params)
    ensures n.If? ==> UsesOnly(n.cond, params) && UsesOnly(n.thenBranch, params) && UsesOnly(n.elseBranch, params)
    ensures n.While? ==> UsesOnly(n.cond, params) && UsesOnly(n.body, params)
    ensures n.For? ==>
      UsesOnly(n.init, params) && UsesOnly(n.cond, params) && UsesOnly(n.update, params) && UsesOnly(n.body, params)
    ensures n.FuncDecl? || n.CommandDef? || n.MacroDef? ==> Unmentioned(n, params)
  {
    var ks := Kids(n);
    forall i | 0 <= i < |ks| ensures UsesOnly(ks[i], params) {}
    if n.Unary? || n.Assign? || n.VarDecl? || n.ExprStmt? || n.Return? || n.Print? { assert UsesOnly(ks[0], params); }
    if n.Binary? || n.While? { assert UsesOnly(ks[0], params) && UsesOnly(ks[1], params); }
    if n.If? { assert UsesOnly(ks[0], params) && UsesOnly(ks[1], params) && UsesOnly(ks[2], params); }
    if n.For? {
      assert UsesOnly(ks[0], params) && UsesOnly(ks[1], params) && UsesOnly(ks[2], params) && UsesOnly(ks[3], params);
    }
  }

  // ----- Evaluation keeps the match -----

  lemma {:induction false} ExprMeans(h: Host, c: Binder, fuel: nat, n: Node, d: nat, s: State, t: State)
    requires Outside(h, c.params) && UsesOnly(n, c.params) && Matches(c, d, s, t)
    ensures SameResult(c, d, EvalExpr(h, fuel, c.In(n), s), EvalExpr(h, fuel, n, t))
    decreases fuel, 1, n, 2
  {
    hide Binder.In, EvalBinary, EvalCall, Matches, Outside, Unmentioned, Lookup, AssignTo, Define, IndexOf, Apart, BsValue.Truthy, UsesOnly;
    KidsUse(n, c.params);
    ValidOf(c, d, s, t);
    ExprShape(c, n);
    match n {
      case Literal(v) => LiteralMeans(h, c, fuel, n, d, s, t);
      case Identifier(x) => NameMeans(h, c, fuel, n, d, s, t);
      case Unary(op, operand) =>
        ExprMeans(h, c, fuel, operand, d, s, t);
        var r, q := EvalExpr(h, fuel, c.In(operand), s), EvalExpr(h, fuel, operand, t);
        if r.status.Ok? { UnaryMeans(h, c, op, d, r, q); }
      case Binary(_, _, _) => BinaryMeans(h, c, fuel, n, d, s, t);
      case Assign(x, value) =>
        ExprMeans(h, c, fuel, value, d, s, t);
        AssignMeans(h, c, fuel, n, d, s, t);
      case Call(_, _) =>
        ListShape(c, n);
        CallMeans(h, c, fuel, n, d, s, t);
      case _ =>
        OtherMeans(h, c, fuel, n, d, s, t);
    }
  }

  lemma ValidOf(c: Binder, d: nat, s: State, t: State)
    requires Matches(c, d, s, t)
    ensures c.Valid()
  {
    hide ValueApart, Inserted, StateApart;
  }

  lemma LiteralMeans(h: Host, c: Binder, fuel: nat, n: Node, d: nat, s: State, t: State)
    requires c.Valid() && n.Literal? && c.In(n) == n && ValueApart(n.lit, c.params) && Matches(c, d, s, t)
    ensures SameResult(c, d, EvalExpr(h, fuel, n, s), EvalExpr(h, fuel, n, t))
  {
    hide Matches, ValueApart;
    var ok := !n.lit.Float? && !n.lit.Function? && !n.lit.NativePtr?;
    FlagsMatch(c, d, s, t, ok, ok);
  }

  lemma NameMeans(h: Host, c: Binder, fuel: nat, n: Node, d: nat, s: State, t: State)
    requires n.Identifier? && Matches(c, d, s, t)
    ensures SameResult(c, d, EvalExpr(h, fuel, c.In(n), s), EvalExpr(h, fuel, n, t))
  {
    assert c.Valid();
    hide Matches, ValueApart, Binder.In, IndexOf, Lookup;
    ExprShape(c, n);
    ReadMatches(c, d, s, t, n.name);
    if n.name in c.params {
      var v := c.values[IndexOf(c.params, n.name)];
      FlagsMatch(c, d, s, t, !v.Float? && !v.Function? && !v.NativePtr?, true);
      assert t.Check(true) == t;
    }
  }

  lemma UnaryMeans(h: Host, c: Binder, op: Op, d: nat, r: Result, q: Result)
    requires SameResult(c, d, r, q)
    ensures SameResult(c, d, EvalUnary(h, op, r), EvalUnary(h, op, q))
  {
    hide Matches, BsValue.Truthy;
  }

  lemma AssignMeans(h: Host, c: Binder, fuel: nat, n: Node, d: nat, s: State, t: State)
    requires c.Valid() && n.Assign? && n.name !in c.params && c.In(n) == Assign(n.name, c.In(n.expr))
    requires SameResult(c, d, EvalExpr(h, fuel, c.In(n.expr), s), EvalExpr(h, fuel, n.expr, t))
    ensures SameResult(c, d, EvalExpr(h, fuel, c.In(n), s), EvalExpr(h, fuel, n, t))
  {
    hide Matches, ValueApart, Binder.In, AssignTo, Define;
    var r, q := EvalExpr(h, fuel, c.In(n.expr), s), EvalExpr(h, fuel, n.expr, t);
    if r.status.Ok? {
      WriteMatches(c, d, r.st, q.st, n.name, r.value);
      NewMatches(c, d, r.st, q.st, n.name, r.value, false);
      var s1 := r.st.(scopes := Define(r.st.scopes, n.name, r.value, false));
      var t1 := q.st.(scopes := Define(q.st.scopes, n.name, r.value, false));
      FlagsMatch(c, d, s1, t1, false, false);
    }
  }

  lemma OtherMeans(h: Host, c: Binder, fuel: nat, n: Node, d: nat, s: State, t: State)
    requires Matches(c, d, s, t)
    requires !n.Literal? && !n.Identifier? && !n.Unary? && !n.Binary? && !n.Assign? && !n.Call?
    ensures SameResult(c, d, EvalExpr(h, fuel, c.In(n), s), EvalExpr(h, fuel, n, t))
  {
    assert c.Valid();
    KindKept(c, n);
    hide Matches, Binder.In;
    FlagsMatch(c, d, s, t, false, false);
  }

  lemma KindKept(c: Binder, n: Node)
    requires c.Valid() && !n.Identifier?
    ensures var r := c.In(n);
      && r.Literal? == n.Literal? && r.Identifier? == n.Identifier? && r.Unary? == n.Unary? && r.Binary? == n.Binary?
      && r.Assign? == n.Assign? && r.Call? == n.Call?
  {
    hide IndexOf;
  }

  lemma {:induction false} BinaryMeans(h: Host, c: Binder, fuel: nat, n: Node, d: nat, s: State, t: State)
    requires Outside(h, c.params) && UsesOnly(n, c.params) && n.Binary? && Matches(c, d, s, t)
    requires c.In(n) == Binary(n.op, c.In(n.left), c.In(n.right))
    ensures SameResult(c, d, EvalBinary(h, fuel, c.In(n), s), EvalBinary(h, fuel, n, t))
    decreases fuel, 1, n, 1
  {
    hide Binder.In, EvalExpr, Matches, Outside, Unmentioned, BsValue.Truthy, InterpBinary, EnginesAgree, Apart, UsesOnly;
    KidsUse(n, c.params);
    ValidOf(c, d, s, t);
    ExprMeans(h, c, fuel, n.left, d, s, t);
    var l, k := EvalExpr(h, fuel, c.In(n.left), s), EvalExpr(h, fuel, n.left, t);
    if l.status.Ok? {
      FlagsMatch(c, d, l.st, k.st, l.value.Bool?, l.value.Bool?);
      ExprMeans(h, c, fuel, n.right, d, l.st, k.st);
      var r, q := EvalExpr(h, fuel, c.In(n.right), l.st), EvalExpr(h, fuel, n.right, k.st);
      FlagsMatch(c, d, r.st, q.st, r.value.Bool?, r.value.Bool?);
      var agree := EnginesAgree(h, n.op, l.value, r.value);
      FlagsMatch(c, d, r.st, q.st, agree, agree);
      BinaryApart(h, n.op, l.value, r.value, c.params);
    }
  }

  lemma BinaryApart(h: Host, op: Op, a: Value, b: Value, params: seq<string>)
    requires Outside(h, params)
    ensures ValueApart(InterpBinary(h, op, a, b), params)
  {
  }

  ghost predicate SameArgs(c: Binder, d: nat, r: ArgsResult, q: ArgsResult) {
    && r.status == q.status && r.values == q.values && Matches(c, d, r.st, q.st)
    && forall i :: 0 <= i < |r.values| ==> ValueApart(r.values[i], c.params)
  }

  lemma {:induction false} ArgsMean(h: Host, c: Binder, fuel: nat, args: seq<Node>, d: nat, s: State, t: State)
    requires Outside(h, c.params) && Matches(c, d, s, t) && forall i :: 0 <= i < |args| ==> UsesOnly(args[i], c.params)
    ensures c.Valid() && SameArgs(c, d, EvalArgs(h, fuel, All(c, args), s), EvalArgs(h, fuel, args, t))
    decreases fuel, 1, args, 1
  {
    assert c.Valid();
    hide Binder.In, EvalExpr, Matches, Outside, UsesOnly, ValueApart, All;
    if args == [] {
      NoneLeft(c);
    } else {
      AllRest(c, args);
      ExprMeans(h, c, fuel, args[0], d, s, t);
      var r, q := EvalExpr(h, fuel, c.In(args[0]), s), EvalExpr(h, fuel, args[0], t);
      if r.status.Ok? { ArgsMean(h, c, fuel, args[1..], d, r.st, q.st); }
    }
  }

  lemma NoneLeft(c: Binder)
    requires c.Valid()
    ensures All(c, []) == []
  {
  }

  lemma {:induction false} CallMeans(h: Host, c: Binder, fuel: nat, n: Node, d: nat, s: State, t: State)
    requires Outside(h, c.params) && UsesOnly(n, c.params) && n.Call? && Matches(c, d, s, t)
    requires c.Valid() && c.In(n) == Call(n.name, All(c, n.args))
    ensures SameResult(c, d, EvalCall(h, fuel, c.In(n), s), EvalCall(h, fuel, n, t))
    decreases fuel, 1, n, 1
  {
    hide Binder.In, EvalArgs, RunCommand, CallBody, Matches, Outside, Lookup, All, Unmentioned, Apart, UsesOnly;
    KidsUse(n, c.params);
    SameCommands(c, d, s, t);
    ReadMatches(c, d, s, t, n.name);
    FlagsMatch(c, d, s, t, false, false);
    ArgsMean(h, c, fuel, n.args, d, s, t);
    ArgsMean(h, c, fuel, n.args, d, s.Check(false), t.Check(false));
    if n.name in s.cmds {
      var a, b := EvalArgs(h, fuel, All(c, n.args), s), EvalArgs(h, fuel, n.args, t);
      if a.status.Ok? {
        StillCommands(c, d, a.st, b.st, s.cmds[n.name], n.name, s.cmds);
        CommandMeans(h, c, fuel, n.name, s.cmds[n.name], a.values, d, a.st, b.st);
      }
    } else {
      var f := Lookup(s.scopes, n.name);
      if f.Some? && f.value.value.Function? {
        var a := EvalArgs(h, fuel, All(c, n.args), s.Check(false));
        var b := EvalArgs(h, fuel, n.args, t.Check(false));
        if a.status.Ok? { BodyMeans(h, c, fuel, f.value.value.params, f.value.value.body, a.values, d, a.st, b.st, false); }
      }
    }
  }

  lemma StillCommands(c: Binder, d: nat, s: State, t: State, cmd: Command, name: string, before: Registry)
    requires Matches(c, d, s, t) && name in before && before[name] == cmd
    requires forall n :: n in before && before[n].AstCommand? ==> Apart(before[n].params, c.params) && Unmentioned(before[n].body, c.params)
    ensures CommandApart(cmd, c.params)
  {
  }

  /** A command whose body does not mention the parameters. */
  predicate CommandApart(cmd: Command, params: seq<string>) {
    cmd.AstCommand? ==> Apart(cmd.params, params) && Unmentioned(cmd.body, params)
  }

  lemma {:induction false} CommandMeans(h: Host, c: Binder, fuel: nat, name: string, cmd: Command, args: seq<Value>, d: nat,
                                        s: State, t: State)
    requires Outside(h, c.params) && CommandApart(cmd, c.params) && Matches(c, d, s, t)
    requires forall i :: 0 <= i < |args| ==> ValueApart(args[i], c.params)
    ensures SameResult(c, d, RunCommand(h, fuel, name, cmd, args, s), RunCommand(h, fuel, name, cmd, args, t))
    decreases fuel, 0, 1
  {
    hide CallBody, Matches, Unmentioned, Apart;
    FlagsMatch(c, d, s, t, false, false);
    match cmd {
      case Native =>
        OutputMatches(c, d, s, t, h.natives(name, args).1);
      case AstCommand(params, body) =>
        if !body.Nil? { BodyMeans(h, c, fuel, params, body, args, d, s.Check(false), t.Check(false), true); }
      case Macro(_, _) =>
    }
  }

  lemma {:induction false} BodyMeans(h: Host, c: Binder, fuel: nat, params: seq<string>, body: Node, args: seq<Value>, d: nat,
                                     s: State, t: State, isCommand: bool)
    requires Outside(h, c.params) && Apart(params, c.params) && Unmentioned(body, c.params) && Matches(c, d, s, t)
    requires forall i :: 0 <= i < |args| ==> ValueApart(args[i], c.params)
    ensures SameResult(c, d, CallBody(h, fuel, params, body, args, s, isCommand), CallBody(h, fuel, params, body, args, t, isCommand))
    decreases fuel, 0, 0
  {
    hide EvalStmt, Matches, Unmentioned, UsesOnly, Apart, Outside, ValueApart, Binder.In, State.Push, State.Pop, DefineParams,
         Binder.Valid;
    NullApart(c.params);
    if fuel > 0 {
      ValidOf(c, d, s, t);
      BodyAsItIs(c, body);
      PushMatches(c, d, s, t);
      var s1, t1 := s.Push(), t.Push();
      ParamsMatch(c, d + 1, s1, t1, params, args);
      var s2, t2 := s1.(scopes := DefineParams(s1.scopes, params, args)), t1.(scopes := DefineParams(t1.scopes, params, args));
      StmtMeans(h, c, fuel - 1, body, d + 1, s2, t2);
      PopMatches(c, d + 1, EvalStmt(h, fuel - 1, body, s2).st, EvalStmt(h, fuel - 1, body, t2).st);
    }
  }

  lemma NullApart(params: seq<string>)
    ensures ValueApart(Null, params)
  {
  }

  lemma BodyAsItIs(c: Binder, body: Node)
    requires c.Valid() && Unmentioned(body, c.params)
    ensures UsesOnly(body, c.params) && c.In(body) == body
  {
    hide Unmentioned, UsesOnly, Subst, ValueApart;
    UnmentionedUses(body, c.params);
    UnmentionedSubst(body, c.params, c.Literals());
  }

  // ----- Statements -----

  lemma {:induction false} StmtMeans(h: Host, c: Binder, fuel: nat, n: Node, d: nat, s: State, t: State)
    requires Outside(h, c.params) && UsesOnly(n, c.params) && Matches(c, d, s, t)
    ensures SameResult(c, d, EvalStmt(h, fuel, c.In(n), s), EvalStmt(h, fuel, n, t))
    decreases fuel, 1, n, 4
  {
    hide Binder.In, EvalExpr, EvalStmts, EvalLoop, EvalFor, EvalCustomCall, Matches, Outside, Unmentioned, Apart, Define, PrintText,
         State.Push, State.Pop, BsValue.Truthy, All, UsesOnly;
    KidsUse(n, c.params);
    ValidOf(c, d, s, t);
    StmtShape(c, n);
    ListShape(c, n);
    match n {
      case VarDecl(x, isConst, init) => DeclMeans(h, c, fuel, n, d, s, t);
      case ExprStmt(e) => ExprMeans(h, c, fuel, e, d, s, t);
      case Block(_) => BlockMeans(h, c, fuel, n, d, s, t);
      case If(_, _, _) => IfMeans(h, c, fuel, n, d, s, t);
      case While(cond, body) =>
        MissingShape(c, Nil);
        LoopMeans(h, c, fuel, n, cond, Nil, body, d, s, t);
      case For(_, _, _, _) => ForMeans(h, c, fuel, n, d, s, t);
      case Return(e) => ReturnMeans(h, c, fuel, n, d, s, t);
      case Break => FlagsMatch(c, d, s, t, false, false);
      case Continue => FlagsMatch(c, d, s, t, false, false);
      case Print(e, _, _) => PrintMeans(h, c, fuel, n, d, s, t);
      case FuncDecl(_, _, _) => FunctionMeans(h, c, fuel, n, d, s, t);
      case CommandDef(_, _, _) => DefinitionMeans(h, c, fuel, n, d, s, t);
      case MacroDef(_, _, _) => DefinitionMeans(h, c, fuel, n, d, s, t);
      case CustomCall(_, _, _) => CustomCallMeans(h, c, fuel, n, d, s, t);
      case _ => IdleMeans(h, c, fuel, n, d, s, t);
    }
  }

  lemma {:induction false} BlockMeans(h: Host, c: Binder, fuel: nat, n: Node, d: nat, s: State, t: State)
    requires Outside(h, c.params) && n.Block? && UsesOnly(n, c.params) && Matches(c, d, s, t)
    requires c.Valid() && c.In(n) == Block(All(c, n.stmts))
    ensures SameResult(c, d, EvalStmt(h, fuel, c.In(n), s), EvalStmt(h, fuel, n, t))
    decreases fuel, 1, n, 3
  {
    hide Binder.In, EvalStmts, Matches, Outside, All, State.Push, State.Pop, UsesOnly, Unmentioned, ValueApart, Binder.Valid;
    KidsUse(n, c.params);
    PushMatches(c, d, s, t);
    StmtsMean(h, c, fuel, n.stmts, d + 1, s.Push(), t.Push());
    PopMatches(c, d + 1, EvalStmts(h, fuel, All(c, n.stmts), s.Push()).st, EvalStmts(h, fuel, n.stmts, t.Push()).st);
  }

  lemma {:induction false} IfMeans(h: Host, c: Binder, fuel: nat, n: Node, d: nat, s: State, t: State)
    requires Outside(h, c.params) && n.If? && UsesOnly(n, c.params) && Matches(c, d, s, t)
    requires c.Valid() && c.In(n) == If(c.In(n.cond), c.In(n.thenBranch), c.In(n.elseBranch))
    ensures SameResult(c, d, EvalStmt(h, fuel, c.In(n), s), EvalStmt(h, fuel, n, t))
    decreases fuel, 1, n, 3
  {
    hide Binder.In, EvalExpr, Matches, Outside, UsesOnly, Unmentioned, ValueApart, BsValue.Truthy;
    KidsUse(n, c.params);
    ExprMeans(h, c, fuel, n.cond, d, s, t);
    var r, q := EvalExpr(h, fuel, c.In(n.cond), s), EvalExpr(h, fuel, n.cond, t);
    if r.status.Ok? {
      StmtMeans(h, c, fuel, if BsValue.Truthy(h, r.value) then n.thenBranch else n.elseBranch, d, r.st, q.st);
    }
  }

  lemma IdleMeans(h: Host, c: Binder, fuel: nat, n: Node, d: nat, s: State, t: State)
    requires Matches(c, d, s, t)
    requires n.Nil? || n.Literal? || n.Identifier? || n.Unary? || n.Binary? || n.Assign? || n.Call? || n.Package? || n.Import?
    ensures SameResult(c, d, EvalStmt(h, fuel, c.In(n), s), EvalStmt(h, fuel, n, t))
  {
    assert c.Valid();
    hide Binder.In, Matches, IndexOf;
    ExprShape(c, n);
    ListShape(c, n);
    StmtShape(c, n);
  }

  lemma {:induction false} DeclMeans(h: Host, c: Binder, fuel: nat, n: Node, d: nat, s: State, t: State)
    requires Outside(h, c.params) && UsesOnly(n, c.params) && n.VarDecl? && Matches(c, d, s, t)
    requires c.Valid() && c.In(n) == VarDecl(n.name, n.isConst, c.In(n.expr))
    ensures SameResult(c, d, EvalStmt(h, fuel, c.In(n), s), EvalStmt(h, fuel, n, t))
    decreases fuel, 1, n, 3
  {
    hide Binder.In, EvalExpr, Matches, Outside, Unmentioned, Define, UsesOnly;
    KidsUse(n, c.params);
    MissingShape(c, n.expr);
    if n.expr.Nil? {
      NewMatches(c, d, s, t, n.name, Null, n.isConst);
    } else {
      ExprMeans(h, c, fuel, n.expr, d, s, t);
      var r, q := EvalExpr(h, fuel, c.In(n.expr), s), EvalExpr(h, fuel, n.expr, t);
      if r.status.Ok? { NewMatches(c, d, r.st, q.st, n.name, r.value, n.isConst); }
    }
  }

  lemma {:induction false} ReturnMeans(h: Host, c: Binder, fuel: nat, n: Node, d: nat, s: State, t: State)
    requires Outside(h, c.params) && UsesOnly(n, c.params) && n.Return? && Matches(c, d, s, t)
    requires c.Valid() && c.In(n) == Return(c.In(n.expr))
    ensures SameResult(c, d, EvalStmt(h, fuel, c.In(n), s), EvalStmt(h, fuel, n, t))
    decreases fuel, 1, n, 3
  {
    hide Binder.In, EvalExpr, Matches, Outside, Unmentioned, UsesOnly;
    KidsUse(n, c.params);
    MissingShape(c, n.expr);
    FlagsMatch(c, d, s, t, false, false);
    if !n.expr.Nil? { ExprMeans(h, c, fuel, n.expr, d, s.Check(false), t.Check(false)); }
  }

  lemma {:induction false} PrintMeans(h: Host, c: Binder, fuel: nat, n: Node, d: nat, s: State, t: State)
    requires Outside(h, c.params) && UsesOnly(n, c.params) && n.Print? && Matches(c, d, s, t)
    requires c.Valid() && c.In(n) == Print(c.In(n.expr), n.isRaw, n.addNewline)
    ensures SameResult(c, d, EvalStmt(h, fuel, c.In(n), s), EvalStmt(h, fuel, n, t))
    decreases fuel, 1, n, 3
  {
    hide Binder.In, EvalExpr, Matches, Outside, Unmentioned, PrintText, UsesOnly;
    KidsUse(n, c.params);
    MissingShape(c, n.expr);
    var line := if n.addNewline then "\n" else "";
    if n.expr.Nil? {
      FlagsMatch(c, d, s, t, false, false);
      OutputMatches(c, d, s.Check(false), t.Check(false), line);
    } else {
      ExprMeans(h, c, fuel, n.expr, d, s, t);
      var r, q := EvalExpr(h, fuel, c.In(n.expr), s), EvalExpr(h, fuel, n.expr, t);
      if r.status.Ok? {
        var ok := n.isRaw != n.addNewline;
        FlagsMatch(c, d, r.st, q.st, ok, ok);
        OutputMatches(c, d, r.st.Check(ok), q.st.Check(ok), PrintText(h, r.value));
        OutputMatches(c, d, r.st.Check(ok).Emit(PrintText(h, r.value)), q.st.Check(ok).Emit(PrintText(h, r.value)), line);
      }
    }
  }

  lemma FunctionMeans(h: Host, c: Binder, fuel: nat, n: Node, d: nat, s: State, t: State)
    requires UsesOnly(n, c.params) && n.FuncDecl? && Matches(c, d, s, t) && c.Valid() && c.In(n) == n
    ensures SameResult(c, d, EvalStmt(h, fuel, c.In(n), s), EvalStmt(h, fuel, n, t))
  {
    hide Binder.In, Matches, Define;
    var f := Function(n.name, n.params, n.body);
    assert Kids(n)[0] == n.body && Unmentioned(n.body, c.params);
    hide Unmentioned, UsesOnly;
    FlagsMatch(c, d, s, t, false, false);
    NewMatches(c, d, s.Check(false), t.Check(false), n.name, f, false);
  }

  lemma DefinitionMeans(h: Host, c: Binder, fuel: nat, n: Node, d: nat, s: State, t: State)
    requires UsesOnly(n, c.params) && (n.CommandDef? || n.MacroDef?) && Matches(c, d, s, t) && c.Valid() && c.In(n) == n
    ensures SameResult(c, d, EvalStmt(h, fuel, c.In(n), s), EvalStmt(h, fuel, n, t))
  {
    hide Binder.In, Inserted;
    assert Kids(n)[0] == n.body && Unmentioned(n.body, c.params);
    hide Unmentioned, UsesOnly, Apart;
  }

  lemma {:induction false} StmtsMean(h: Host, c: Binder, fuel: nat, stmts: seq<Node>, d: nat, s: State, t: State)
    requires Outside(h, c.params) && Matches(c, d, s, t) && forall i :: 0 <= i < |stmts| ==> UsesOnly(stmts[i], c.params)
    ensures c.Valid() && SameResult(c, d, EvalStmts(h, fuel, All(c, stmts), s), EvalStmts(h, fuel, stmts, t))
    decreases fuel, 1, stmts, 0
  {
    assert c.Valid();
    hide Binder.In, EvalStmt, Matches, Outside, UsesOnly, All;
    if stmts == [] {
      NoneLeft(c);
    } else {
      AllRest(c, stmts);
      StmtMeans(h, c, fuel, stmts[0], d, s, t);
      var r, q := EvalStmt(h, fuel, c.In(stmts[0]), s), EvalStmt(h, fuel, stmts[0], t);
      if r.status.Ok? && |stmts| > 1 { StmtsMean(h, c, fuel, stmts[1..], d, r.st, q.st); }
    }
  }

  lemma {:induction false} CustomCallMeans(h: Host, c: Binder, fuel: nat, n: Node, d: nat, s: State, t: State)
    requires Outside(h, c.params) && UsesOnly(n, c.params) && n.CustomCall? && Matches(c, d, s, t)
    requires c.Valid() && c.In(n) == CustomCall(n.name, All(c, n.args), c.In(n.body))
    ensures SameResult(c, d, EvalCustomCall(h, fuel, c.In(n), s), EvalCustomCall(h, fuel, n, t))
    decreases fuel, 1, n, 3
  {
    hide Binder.In, EvalArgs, EvalStmt, RunCommand, CallBody, Matches, Outside, Lookup, All, Unmentioned, Apart;
    PartsUse(n, c.params);
    MissingShape(c, n.body);
    SameCommands(c, d, s, t);
    ReadMatches(c, d, s, t, n.name);
    if n.name in s.cmds {
      FlagsMatch(c, d, s, t, n.body.Nil?, n.body.Nil?);
      CommandCallMeans(h, c, fuel, n, d, s, t, s.Check(n.body.Nil?), t.Check(n.body.Nil?));
    } else {
      FlagsMatch(c, d, s, t, false, false);
      ArgsMean(h, c, fuel, n.args, d, s.Check(false), t.Check(false));
      var f := Lookup(s.scopes, n.name);
      if f.Some? && f.value.value.Function? {
        var a := EvalArgs(h, fuel, All(c, n.args), s.Check(false));
        var b := EvalArgs(h, fuel, n.args, t.Check(false));
        if a.status.Ok? { BodyMeans(h, c, fuel, f.value.value.params, f.value.value.body, a.values, d, a.st, b.st, false); }
      }
    }
  }

  lemma PartsUse(n: Node, params: seq<string>)
    requires n.CustomCall? && UsesOnly(n, params)
    ensures (forall i :: 0 <= i < |n.args| ==> UsesOnly(n.args[i], params)) && UsesOnly(n.body, params) && n.name !in params
  {
    var ks := Kids(n);
    assert ks[|n.args|] == n.body;
    forall i | 0 <= i < |n.args| ensures UsesOnly(n.args[i], params) { assert ks[i] == n.args[i]; }
  }

  lemma {:induction false} CommandCallMeans(h: Host, c: Binder, fuel: nat, n: Node, d: nat, s: State, t: State, s1: State, t1: State)
    requires Outside(h, c.params) && UsesOnly(n, c.params) && n.CustomCall? && Matches(c, d, s, t) && n.name in s.cmds
    requires c.Valid() && c.In(n) == CustomCall(n.name, All(c, n.args), c.In(n.body)) && c.In(n.body).Nil? == n.body.Nil?
    requires Matches(c, d, s1, t1) && s1 == s.Check(n.body.Nil?) && t1 == t.Check(n.body.Nil?) && s.cmds == t.cmds
    requires CommandApart(s.cmds[n.name], c.params)
    requires (forall i :: 0 <= i < |n.args| ==> UsesOnly(n.args[i], c.params)) && UsesOnly(n.body, c.params)
    ensures SameResult(c, d, EvalCustomCall(h, fuel, c.In(n), s), EvalCustomCall(h, fuel, n, t))
    decreases fuel, 1, n, 2
  {
    hide Binder.In, EvalArgs, EvalStmt, RunCommand, CallBody, Matches, Outside, Lookup, All, UsesOnly, CommandApart;
    ArgsMean(h, c, fuel, n.args, d, s1, t1);
    var a, b := EvalArgs(h, fuel, All(c, n.args), s1), EvalArgs(h, fuel, n.args, t1);
    if a.status.Ok? {
      CommandMeans(h, c, fuel, n.name, s.cmds[n.name], a.values, d, a.st, b.st);
      var r := RunCommand(h, fuel, n.name, s.cmds[n.name], a.values, a.st);
      var q := RunCommand(h, fuel, n.name, s.cmds[n.name], b.values, b.st);
      if r.status.Ok? { StmtMeans(h, c, fuel, n.body, d, r.st, q.st); }
    }
  }

  // ----- Loops -----

  lemma {:induction false} ForMeans(h: Host, c: Binder, fuel: nat, n: Node, d: nat, s: State, t: State)
    requires Outside(h, c.params) && UsesOnly(n, c.params) && n.For? && Matches(c, d, s, t)
    requires c.Valid() && c.In(n) == For(c.In(n.init), c.In(n.cond), c.In(n.update), c.In(n.body))
    ensures SameResult(c, d, EvalFor(h, fuel, c.In(n), s), EvalFor(h, fuel, n, t))
    decreases fuel, 1, n, 3
  {
    hide Binder.In, EvalStmt, EvalLoop, Matches, Outside, Unmentioned, State.Push, State.Pop, UsesOnly;
    KidsUse(n, c.params);
    PushMatches(c, d, s, t);
    FlagsMatch(c, d + 1, s.Push(), t.Push(), false, false);
    StmtMeans(h, c, fuel, n.init, d + 1, s.Push().Check(false), t.Push().Check(false));
    var i, j := EvalStmt(h, fuel, c.In(n.init), s.Push().Check(false)), EvalStmt(h, fuel, n.init, t.Push().Check(false));
    if i.status.Ok? {
      LoopMeans(h, c, fuel, n, n.cond, n.update, n.body, d + 1, i.st, j.st);
      PopMatches(c, d + 1, EvalLoop(h, fuel, c.In(n), c.In(n.cond), c.In(n.update), c.In(n.body), i.st).st,
                 EvalLoop(h, fuel, n, n.cond, n.update, n.body, j.st).st);
    } else {
      PopMatches(c, d + 1, i.st, j.st);
    }
  }

  ghost predicate SameRound(c: Binder, d: nat, r: Round, q: Round) {
    match (r, q)
    case (Stop(a), Stop(b)) => SameResult(c, d, a, b)
    case (Again(a), Again(b)) => Matches(c, d, a, b)
    case _ => false
  }

  /** The parts of a loop, in the tree and with the literals put in. */
  ghost predicate LoopParts(c: Binder, whole: Node, cond: Node, update: Node, body: Node) {
    && c.Valid()
    && cond < whole && body < whole && (update.Nil? || update < whole)
    && c.In(cond) < c.In(whole) && c.In(body) < c.In(whole) && (c.In(update).Nil? || c.In(update) < c.In(whole))
    && (c.In(whole).For? <==> whole.For?)
    && UsesOnly(cond, c.params) && UsesOnly(update, c.params) && UsesOnly(body, c.params)
    && (c.In(cond).Nil? <==> cond.Nil?) && (c.In(update).Nil? <==> update.Nil?)
  }

  lemma {:induction false} LoopMeans(h: Host, c: Binder, fuel: nat, whole: Node, cond: Node, update: Node, body: Node, d: nat,
                                     s: State, t: State)
    requires Outside(h, c.params) && Matches(c, d, s, t) && c.Valid()
    requires (whole.While? && cond == whole.cond && update == Nil && body == whole.body)
          || (whole.For? && cond == whole.cond && update == whole.update && body == whole.body)
    requires UsesOnly(whole, c.params)
    ensures c.In(cond) < c.In(whole) && c.In(body) < c.In(whole) && (c.In(update).Nil? || c.In(update) < c.In(whole))
    ensures SameResult(c, d, EvalLoop(h, fuel, c.In(whole), c.In(cond), c.In(update), c.In(body), s),
                       EvalLoop(h, fuel, whole, cond, update, body, t))
    decreases fuel, 1, whole, 2
  {
    hide Binder.In, EvalRound, EvalLoop, Matches, Outside, UsesOnly, SameResult, LoopParts;
    LoopUses(c, whole, cond, update, body);
    PartsAreSmaller(c, whole, cond, update, body);
    RoundMeans(h, c, fuel, whole, cond, update, body, d, s, t);
    var r := EvalRound(h, fuel, c.In(whole), c.In(cond), c.In(update), c.In(body), s);
    var q := EvalRound(h, fuel, whole, cond, update, body, t);
    RoundsUnfold(h, fuel, c.In(whole), c.In(cond), c.In(update), c.In(body), s);
    RoundsUnfold(h, fuel, whole, cond, update, body, t);
    if r.Again? {
      if fuel > 0 { LoopMeans(h, c, fuel - 1, whole, cond, update, body, d, r.st, q.st); }
      else { OutOfFuel(c, d, r.st, q.st); }
    }
  }

  lemma PartsAreSmaller(c: Binder, whole: Node, cond: Node, update: Node, body: Node)
    requires LoopParts(c, whole, cond, update, body)
    ensures c.Valid() && cond < whole && body < whole && (update.Nil? || update < whole)
    ensures c.In(cond) < c.In(whole) && c.In(body) < c.In(whole) && (c.In(update).Nil? || c.In(update) < c.In(whole))
  {
    hide Binder.In, Binder.Valid, UsesOnly;
  }

  lemma OutOfFuel(c: Binder, d: nat, s: State, t: State)
    requires Matches(c, d, s, t)
    ensures SameResult(c, d, Result(Timeout, Null, s), Result(Timeout, Null, t))
  {
    hide Matches;
  }

  lemma RoundsUnfold(h: Host, fuel: nat, whole: Node, cond: Node, update: Node, body: Node, s: State)
    requires cond < whole && body < whole && (update.Nil? || update < whole)
    ensures EvalLoop(h, fuel, whole, cond, update, body, s) ==
      match EvalRound(h, fuel, whole, cond, update, body, s)
      case Stop(r) => r
      case Again(st) =>
        if fuel == 0 then Result(Timeout, Null, st) else EvalLoop(h, fuel - 1, whole, cond, update, body, st)
  {
    hide EvalRound;
  }

  lemma LoopUses(c: Binder, whole: Node, cond: Node, update: Node, body: Node)
    requires c.Valid() && UsesOnly(whole, c.params)
    requires (whole.While? && cond == whole.cond && update == Nil && body == whole.body)
          || (whole.For? && cond == whole.cond && update == whole.update && body == whole.body)
    ensures LoopParts(c, whole, cond, update, body)
  {
    hide Binder.In, Unmentioned, UsesOnly, Binder.Valid, Kids;
    StmtShape(c, whole);
    MissingShape(c, cond);
    MissingShape(c, update);
    KidsUse(whole, c.params);
    NilUses(c.params);
  }

  lemma NilUses(params: seq<string>)
    ensures UsesOnly(Nil, params)
  {
  }

  lemma {:induction false} RoundMeans(h: Host, c: Binder, fuel: nat, whole: Node, cond: Node, update: Node, body: Node, d: nat,
                                      s: State, t: State)
    requires Outside(h, c.params) && Matches(c, d, s, t) && LoopParts(c, whole, cond, update, body)
    ensures SameRound(c, d, EvalRound(h, fuel, c.In(whole), c.In(cond), c.In(update), c.In(body), s),
                      EvalRound(h, fuel, whole, cond, update, body, t))
    decreases fuel, 1, whole, 1
  {
    hide Binder.In, EvalCond, EvalBody, Matches, Outside, UsesOnly, BsValue.Truthy;
    CondMeans(h, c, fuel, whole, cond, update, body, d, s, t);
    var r, q := EvalCond(h, fuel, c.In(whole), c.In(cond), s), EvalCond(h, fuel, whole, cond, t);
    if r.status.Ok? && BsValue.Truthy(h, r.value) { LoopBodyMeans(h, c, fuel, whole, cond, update, body, d, r.st, q.st); }
  }

  lemma {:induction false} CondMeans(h: Host, c: Binder, fuel: nat, whole: Node, cond: Node, update: Node, body: Node, d: nat,
                                     s: State, t: State)
    requires Outside(h, c.params) && Matches(c, d, s, t) && LoopParts(c, whole, cond, update, body)
    ensures SameResult(c, d, EvalCond(h, fuel, c.In(whole), c.In(cond), s), EvalCond(h, fuel, whole, cond, t))
    decreases fuel, 1, whole, 0
  {
    hide Binder.In, EvalExpr, Matches, Outside, UsesOnly;
    if !(cond.Nil? && whole.For?) { ExprMeans(h, c, fuel, cond, d, s, t); }
  }

  lemma {:induction false} LoopBodyMeans(h: Host, c: Binder, fuel: nat, whole: Node, cond: Node, update: Node, body: Node, d: nat,
                                         s: State, t: State)
    requires Outside(h, c.params) && Matches(c, d, s, t) && LoopParts(c, whole, cond, update, body)
    ensures SameRound(c, d, EvalBody(h, fuel, c.In(whole), c.In(update), c.In(body), s), EvalBody(h, fuel, whole, update, body, t))
    decreases fuel, 1, whole, 0
  {
    hide Binder.In, EvalExpr, EvalStmt, EvalBody, Matches, Outside, UsesOnly, ValueApart, Ending, SameRound, SameResult;
    StmtMeans(h, c, fuel, body, d, s, t);
    var b, k := EvalStmt(h, fuel, c.In(body), s), EvalStmt(h, fuel, body, t);
    BodyUnfold(h, fuel, c.In(whole), c.In(update), c.In(body), s);
    BodyUnfold(h, fuel, whole, update, body, t);
    var u := if update.Nil? then Done(b.st) else EvalExpr(h, fuel, c.In(update), b.st);
    var w := if update.Nil? then Done(k.st) else EvalExpr(h, fuel, update, k.st);
    ResultStates(c, d, b, k);
    if update.Nil? { DoneMatches(c, d, b.st, k.st); } else { ExprMeans(h, c, fuel, update, d, b.st, k.st); }
    EndingsMatch(c, d, b, k, u, w);
  }

  lemma ResultStates(c: Binder, d: nat, r: Result, q: Result)
    requires SameResult(c, d, r, q)
    ensures Matches(c, d, r.st, q.st)
  {
    hide Matches;
  }

  lemma DoneMatches(c: Binder, d: nat, s: State, t: State)
    requires Matches(c, d, s, t)
    ensures SameResult(c, d, Done(s), Done(t))
  {
    hide Matches;
  }

  /** How a round goes on behind its body and its update. */
  function Ending(b: Result, u: Result): Round {
    if b.status.Broke? then Stop(Done(b.st))
    else if !b.status.Ok? && !b.status.Continued? then Stop(b)
    else if u.status.Ok? then Again(u.st) else Stop(u)
  }

  lemma EndingsMatch(c: Binder, d: nat, b: Result, k: Result, u: Result, w: Result)
    requires SameResult(c, d, b, k) && SameResult(c, d, u, w)
    ensures SameRound(c, d, Ending(b, u), Ending(k, w))
  {
    hide Matches;
  }

  lemma BodyUnfold(h: Host, fuel: nat, whole: Node, update: Node, body: Node, s: State)
    requires body < whole && (update.Nil? || update < whole)
    ensures var b := EvalStmt(h, fuel, body, s);
      EvalBody(h, fuel, whole, update, body, s) ==
        Ending(b, if update.Nil? then Done(b.st) else EvalExpr(h, fuel, update, b.st))
  {
    hide EvalStmt, EvalExpr;
  }

  // ----- The promise -----

  lemma BoundAbove(c: Binder, s: State)
    requires c.Valid() && s.scopes != [] && StateApart(s, c.params)
    ensures Matches(c, 0, s, s.(scopes := [c.Bound()] + s.scopes))
  {
    var t := [c.Bound()] + s.scopes;
    hide ValueApart;
    assert t[1] == s.scopes[0];
    forall j | 0 < j < |s.scopes| ensures s.scopes[j] == t[j + 1] {}
  }

  /** An expression with literals in place of its parameters has the status, the value and the output that the expression
      has in a scope that binds the parameters to those values. */
  lemma SubstitutedExpr(h: Host, c: Binder, fuel: nat, body: Node, s: State)
    requires c.Valid() && s.scopes != [] && Outside(h, c.params) && StateApart(s, c.params) && UsesOnly(body, c.params)
    ensures var r := EvalExpr(h, fuel, Subst(body, c.params, c.Literals()), s);
      var q := EvalExpr(h, fuel, body, s.(scopes := [c.Bound()] + s.scopes));
      r.status == q.status && r.value == q.value && r.st.out == q.st.out && Matches(c, 0, r.st, q.st)
  {
    hide EvalExpr, StateApart, Outside, UsesOnly, Inserted;
    BoundAbove(c, s);
    ExprMeans(h, c, fuel, body, 0, s, s.(scopes := [c.Bound()] + s.scopes));
  }

  /** The same for statements: nothing a statement does tells the literals from the bound parameters. */
  lemma SubstitutedStmt(h: Host, c: Binder, fuel: nat, body: Node, s: State)
    requires c.Valid() && s.scopes != [] && Outside(h, c.params) && StateApart(s, c.params) && UsesOnly(body, c.params)
    ensures var r := EvalStmt(h, fuel, Subst(body, c.params, c.Literals()), s);
      var q := EvalStmt(h, fuel, body, s.(scopes := [c.Bound()] + s.scopes));
      r.status == q.status && r.value == q.value && r.st.out == q.st.out && Matches(c, 0, r.st, q.st)
  {
    hide EvalStmt, StateApart, Outside, UsesOnly, Inserted;
    BoundAbove(c, s);
    StmtMeans(h, c, fuel, body, 0, s, s.(scopes := [c.Bound()] + s.scopes));
  }

  /** A call of a macro with literal arguments, expanded, does what the macro's body does in a scope with its parameters. */
  lemma ExpansionMeans(h: Host, reg: Registry, n: Node, values: seq<Value>, fuel: nat, s: State)
    requires IsMacroCall(reg, n) && |reg[n.name].params| <= |ArgsOf(n)|
    requires var m := reg[n.name];
      var c := Binder(m.params, values);
      && c.Valid() && ArgsOf(n) == c.Literals() && s.scopes != []
      && Outside(h, m.params) && StateApart(s, m.params) && UsesOnly(m.body, m.params)
    ensures var m := reg[n.name];
      var t := s.(scopes := [Binder(m.params, values).Bound()] + s.scopes);
      var r, q := EvalStmt(h, fuel, Expansion(reg, n), s), EvalStmt(h, fuel, m.body, t);
      var e, f := EvalExpr(h, fuel, Expansion(reg, n), s), EvalExpr(h, fuel, m.body, t);
      && r.status == q.status && r.value == q.value && r.st.out == q.st.out
      && e.status == f.status && e.value == f.value && e.st.out == f.st.out
  {
    hide EvalStmt, EvalExpr, StateApart, Outside, UsesOnly, Matches, Binder.Bound, Subst;
    var c := Binder(reg[n.name].params, values);
    SubstitutedStmt(h, c, fuel, reg[n.name].body, s);
    SubstitutedExpr(h, c, fuel, reg[n.name].body, s);
  }

  predicate Distinct(names: seq<string>) { forall i, j :: 0 <= i < j < |names| ==> names[i] != names[j] }

  /** For parameters of different names that scope is the one a call of a function or a command makes. */
  lemma CallScope(params: seq<string>, values: seq<Value>, rest: seq<Scope>)
    requires |params| <= |values| && Distinct(params)
    ensures DefineParams([map[]] + rest, params, values) == [Binder(params, values).Bound()] + rest
  {
    var r := DefinedAll(params, values, map[], rest);
    var all := Binder(params, values).Bound();
    hide DefineParams, Binder.Bound;
    forall x ensures x in r <==> x in all {
      assert Get(r, x) == if x in params then Some(Binding(values[IndexOf(params, x)], false)) else Get(map[], x);
    }
    forall x | x in r ensures r[x] == all[x] {
      assert Get(r, x) == Some(Binding(values[IndexOf(params, x)], false));
    }
    assert r == all;
  }

  lemma {:induction false} DefinedAll(params: seq<string>, values: seq<Value>, done: Scope, rest: seq<Scope>) returns (r: Scope)
    requires |params| <= |values| && Distinct(params)
    ensures DefineParams([done] + rest, params, values) == [r] + rest
    ensures forall x :: Get(r, x) == if x in params then Some(Binding(values[IndexOf(params, x)], false)) else Get(done, x)
    decreases |params|
  {
    if params == [] {
      r := done;
    } else {
      var next := done[params[0] := Binding(values[0], false)];
      assert Define([done] + rest, params[0], values[0], false) == [next] + rest;
      r := DefinedAll(params[1..], values[1..], next, rest);
      hide DefineParams, IndexOf;
      forall x ensures Get(r, x) == if x in params then Some(Binding(values[IndexOf(params, x)], false)) else Get(done, x) {
        FirstOrRest(params, values, x);
      }
    }
  }

  lemma FirstOrRest(params: seq<string>, values: seq<Value>, x: string)
    requires params != [] && |params| <= |values| && Distinct(params)
    ensures x in params <==> x == params[0] || x in params[1..]
    ensures x == params[0] ==> x !in params[1..] && IndexOf(params, x) == 0
    ensures x in params[1..] ==> values[IndexOf(params, x)] == values[1..][IndexOf(params[1..], x)]
  {
    forall i | 0 <= i < |params[1..]| ensures params[1..][i] != params[0] { assert params[1..][i] == params[i + 1]; }
    if x in params && x != params[0] {
      var i :| 0 <= i < |params| && params[i] == x;
      assert params[1..][i - 1] == x;
    }
  }

  /** Why the functions in scope must not mention the parameters: a function reads them from its caller's scopes, but an
      expansion leaves no binding behind.  Here g returns x, and the body of a macro with the parameter x calls g. */
  lemma CalleeSeesParameter(h: Host, fuel: nat, cmds: Registry, i: int)
    requires fuel > 0 && "g" !in cmds
    ensures var g: Scope := map["g" := Binding(Function("g", [], Return(Identifier("x"))), false)];
      var s := State([g], cmds, "", false);
      var c := Binder(["x"], [Int(i)]);
      var body := Call("g", []);
      && c.Valid()
      && EvalExpr(h, fuel, Subst(body, c.params, c.Literals()), s).value == Null
      && EvalExpr(h, fuel, body, s.(scopes := [c.Bound()] + s.scopes)).value == Int(i)
  {
    var f := Function("g", [], Return(Identifier("x")));
    var g: Scope := map["g" := Binding(f, false)];
    var s := State([g], cmds, "", false);
    var c := Binder(["x"], [Int(i)]);
    var t := s.(scopes := [c.Bound()] + s.scopes);
    assert "x" in c.Bound() && "g" !in c.Bound();
    assert t.scopes[1..] == s.scopes && Lookup(t.scopes, "g") == Some(Binding(f, false)) == Lookup(s.scopes, "g");
    Unseen(h, fuel, s);
    Seen(h, fuel, t, i);
    UnmentionedSubst(Call("g", []), c.params, c.Literals());
    hide CallBody, Subst, Binder.Bound;
    assert EvalCall(h, fuel, Call("g", []), s) == CallBody(h, fuel, [], f.body, [], s.Check(false), false);
    assert EvalCall(h, fuel, Call("g", []), t) == CallBody(h, fuel, [], f.body, [], t.Check(false), false);
  }

  lemma Unseen(h: Host, fuel: nat, s: State)
    requires fuel > 0 && |s.scopes| == 1 && "x" !in s.scopes[0] && !s.clean
    ensures CallBody(h, fuel, [], Return(Identifier("x")), [], s, false).value == Null
  {
    assert s.Push().scopes[1..] == s.scopes && s.scopes[1..] == [] && Lookup(s.scopes[1..], "x") == None;
    assert Lookup(s.Push().scopes, "x") == Lookup(s.scopes, "x") == None;
    assert EvalExpr(h, fuel - 1, Identifier("x"), s.Push().Check(false)).status.Error?;
  }

  lemma Seen(h: Host, fuel: nat, t: State, i: int)
    requires fuel > 0 && t.scopes != [] && "x" in t.scopes[0] && t.scopes[0]["x"].value == Int(i) && !t.clean
    ensures CallBody(h, fuel, [], Return(Identifier("x")), [], t, false).value == Int(i)
  {
    assert t.Push().scopes[1..] == t.scopes && Lookup(t.scopes, "x") == Some(t.scopes[0]["x"]);
    assert t.Push().Check(false) == t.Push() && Lookup(t.Push().scopes, "x") == Lookup(t.scopes, "x");
    assert EvalExpr(h, fuel - 1, Identifier("x"), t.Push().Check(false)) == Result(Ok, Int(i), t.Push());
  }
}
