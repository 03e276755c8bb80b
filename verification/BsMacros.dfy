/** Macro expansion (bs_ast_rewriter.c): arguments are substituted unexpanded and possibly several
    times, then the result is rewritten again.  A weight that counts a call as its body's weight
    under the weights of its arguments drops with every expansion, so rewriting ends whenever
    macros do not call each other in a cycle and calls pass enough arguments. */
module BsMacros {
  import opened BsAst

  /** The direct children of a node, missing ones included. */
  function Kids(n: Node): (r: seq<Node>)
    ensures forall i :: 0 <= i < |r| ==> r[i] < n
  {
    match n
    case Unary(_, operand) => [operand]
    case Binary(_, left, right) => [left, right]
    case Assign(_, value) => [value]
    case Call(_, args) => args
    case VarDecl(_, _, init) => [init]
    case ExprStmt(e) => [e]
    case Block(stmts) => stmts
    case If(cond, thenBranch, elseBranch) => [cond, thenBranch, elseBranch]
    case While(cond, body) => [cond, body]
    case For(init, cond, update, body) => [init, cond, update, body]
    case Return(e) => [e]
    case Print(e, _, _) => [e]
    case FuncDecl(_, _, body) => [body]
    case CommandDef(_, _, body) => [body]
    case MacroDef(_, _, body) => [body]
    case CustomCall(_, args, body) => args + [body]
    case _ => []
  }

  /** The same node with other children. */
  function WithKids(n: Node, ks: seq<Node>): (r: Node)
    requires |ks| == |Kids(n)|
    ensures Kids(r) == ks
    ensures ks == Kids(n) ==> r == n
  {
    match n
    case Unary(op, _) => Unary(op, ks[0])
    case Binary(op, _, _) => Binary(op, ks[0], ks[1])
    case Assign(x, _) => Assign(x, ks[0])
    case Call(f, _) => Call(f, ks)
    case VarDecl(x, isConst, _) => VarDecl(x, isConst, ks[0])
    case ExprStmt(_) => ExprStmt(ks[0])
    case Block(_) => Block(ks)
    case If(_, _, _) => If(ks[0], ks[1], ks[2])
    case While(_, _) => While(ks[0], ks[1])
    case For(_, _, _, _) => For(ks[0], ks[1], ks[2], ks[3])
    case Return(_) => Return(ks[0])
    case Print(_, isRaw, addNewline) => Print(ks[0], isRaw, addNewline)
    case FuncDecl(x, params, _) => FuncDecl(x, params, ks[0])
    case CommandDef(x, params, _) => CommandDef(x, params, ks[0])
    case MacroDef(x, params, _) => MacroDef(x, params, ks[0])
    case CustomCall(f, args, body) => CustomCall(f, ks[..|args|], ks[|args|])
    case _ => n
  }

  lemma SameKind(n: Node, ks: seq<Node>)
    requires |ks| == |Kids(n)|
    ensures var r := WithKids(n, ks);
      && r.Identifier? == n.Identifier? && r.Nil? == n.Nil?
      && r.CommandDef? == n.CommandDef? && r.MacroDef? == n.MacroDef?
      && r.Call? == n.Call? && r.CustomCall? == n.CustomCall?
      && (n.Call? || n.CustomCall? ==> r.name == n.name && |r.args| == |n.args|)
  {
  }

  predicate IsMacroCall(reg: Registry, n: Node) {
    (n.Call? || n.CustomCall?) && n.name in reg && reg[n.name].Macro?
  }

  /** The arguments of an expansion: a trailing block counts as the last one. */
  function ArgsOf(n: Node): (r: seq<Node>)
    requires n.Call? || n.CustomCall?
    ensures |r| <= |Kids(n)| && r == Kids(n)[..|r|]
  {
    if n.CustomCall? && !n.body.Nil? then n.args + [n.body] else n.args
  }

  /** The first parameter of that name, or -1. */
  function IndexOf(params: seq<string>, x: string): (r: int)
    ensures -1 <= r < |params|
    ensures r >= 0 ==> params[r] == x
    ensures forall i :: 0 <= i < r ==> params[i] != x
    ensures r < 0 ==> x !in params
  {
    if params == [] then -1
    else if params[0] == x then 0
    else
      var r := IndexOf(params[1..], x);
      if r < 0 then -1 else r + 1
  }

  /** substitute_ast_params */
  function Subst(n: Node, params: seq<string>, args: seq<Node>): Node
    requires |params| <= |args|
    decreases n
  {
    if n.Identifier? then
      var i := IndexOf(params, n.name);
      if i >= 0 then args[i] else n
    else
      WithKids(n, seq(|Kids(n)|, i requires 0 <= i < |Kids(n)| => Subst(Kids(n)[i], params, args)))
  }

  // ----- Registries whose macros do not call each other in a cycle -----

  type Ranks = map<string, nat>

  /** A tree that can be expanded: it defines nothing, its macro calls go to macros below rank k and pass
      enough arguments, none of them missing. */
  predicate Expandable(reg: Registry, rank: Ranks, k: nat, n: Node)
    decreases n
  {
    && !n.CommandDef? && !n.MacroDef?
    && (IsMacroCall(reg, n) ==>
          && n.name in rank && rank[n.name] < k && |reg[n.name].params| <= |ArgsOf(n)|
          && forall i :: 0 <= i < |n.args| ==> !n.args[i].Nil?)
    && forall i :: 0 <= i < |Kids(n)| ==> Expandable(reg, rank, k, Kids(n)[i])
  }

  /** Every macro's body calls only macros of a lower rank: there is no cycle. */
  predicate Acyclic(reg: Registry, rank: Ranks) {
    forall m :: m in reg && reg[m].Macro? ==> m in rank && Expandable(reg, rank, rank[m], reg[m].body)
  }

  lemma {:induction false} ExpandableMore(reg: Registry, rank: Ranks, k: nat, k1: nat, n: Node)
    requires Expandable(reg, rank, k, n) && k <= k1
    ensures Expandable(reg, rank, k1, n)
    decreases n
  {
    forall i | 0 <= i < |Kids(n)| ensures Expandable(reg, rank, k1, Kids(n)[i]) {
      ExpandableMore(reg, rank, k, k1, Kids(n)[i]);
    }
  }

  // ----- Weights -----

  type Weights = map<string, nat>

  function Sum(ws: seq<nat>): nat {
    if ws == [] then 0 else ws[0] + Sum(ws[1..])
  }

  lemma {:induction false} SumBounds(ws: seq<nat>, i: nat)
    requires i < |ws|
    ensures ws[i] <= Sum(ws)
  {
    if i > 0 { SumBounds(ws[1..], i - 1); }
  }

  /** The parameters with the weights of their arguments; the first of two equal names counts. */
  function Bind(params: seq<string>, ws: seq<nat>): (r: Weights)
    requires |params| <= |ws|
    ensures forall x :: x in r <==> x in params
    ensures forall x :: x in r ==> r[x] == ws[IndexOf(params, x)]
  {
    if params == [] then map[] else Bind(params[1..], ws[1..])[params[0] := ws[0]]
  }

  /** The weight of a tree under given weights of identifiers. */
  ghost function Weight(reg: Registry, rank: Ranks, k: nat, n: Node, rho: Weights): (w: nat)
    requires Acyclic(reg, rank) && Expandable(reg, rank, k, n)
    decreases k, n
  {
    var ws := KidWeights(reg, rank, k, n, rho);
    if n.Identifier? then (if n.name in rho then rho[n.name] else 1)
    else if IsMacroCall(reg, n) then
      var m := reg[n.name];
      1 + Weight(reg, rank, rank[n.name], m.body, Bind(m.params, ws[..|ArgsOf(n)|]))
    else 1 + Sum(ws)
  }

  ghost function KidWeights(reg: Registry, rank: Ranks, k: nat, n: Node, rho: Weights): (ws: seq<nat>)
    requires Acyclic(reg, rank) && Expandable(reg, rank, k, n)
    ensures |ws| == |Kids(n)|
    decreases k, n, 0
  {
    seq(|Kids(n)|, i requires 0 <= i < |Kids(n)| => Weight(reg, rank, k, Kids(n)[i], rho))
  }

  /** The bound on the ranks does not matter. */
  lemma {:induction false} WeightAnyBound(reg: Registry, rank: Ranks, k: nat, k1: nat, n: Node, rho: Weights)
    requires Acyclic(reg, rank) && Expandable(reg, rank, k, n) && Expandable(reg, rank, k1, n)
    ensures Weight(reg, rank, k, n, rho) == Weight(reg, rank, k1, n, rho)
    decreases n
  {
    var ws, ws1 := KidWeights(reg, rank, k, n, rho), KidWeights(reg, rank, k1, n, rho);
    forall i | 0 <= i < |Kids(n)| ensures ws[i] == ws1[i] {
      WeightAnyBound(reg, rank, k, k1, Kids(n)[i], rho);
    }
    assert ws == ws1;
  }

  /** Weights do not see substitution: substituting arguments and binding their weights is the same. */
  lemma {:induction false} SubstWeight(reg: Registry, rank: Ranks, k: nat, n: Node, params: seq<string>,
                                       args: seq<Node>, ws: seq<nat>, rho: Weights)
    requires Acyclic(reg, rank) && Expandable(reg, rank, k, n) && |params| <= |args| == |ws|
    requires forall i :: 0 <= i < |args| ==> !args[i].Nil? && Expandable(reg, rank, k, args[i])
    requires forall i :: 0 <= i < |args| ==> ws[i] == Weight(reg, rank, k, args[i], rho)
    ensures Subst(n, params, args).Nil? == n.Nil?
    ensures Expandable(reg, rank, k, Subst(n, params, args))
    ensures Weight(reg, rank, k, Subst(n, params, args), rho) == Weight(reg, rank, k, n, rho + Bind(params, ws))
    decreases n
  {
    if n.Identifier? {
    } else {
      var s := Subst(n, params, args);
      SameKind(n, Kids(s));
      hide Kids, WithKids, Acyclic, Bind;
      var rho1 := rho + Bind(params, ws);
      forall i | 0 <= i < |Kids(n)|
        ensures Kids(s)[i] == Subst(Kids(n)[i], params, args) && Kids(s)[i].Nil? == Kids(n)[i].Nil?
        ensures Expandable(reg, rank, k, Kids(s)[i])
        ensures Weight(reg, rank, k, Kids(s)[i], rho) == Weight(reg, rank, k, Kids(n)[i], rho1)
      {
        SubstWeight(reg, rank, k, Kids(n)[i], params, args, ws, rho);
      }
      SubstKeepsArguments(n, params, args);
      SameShape(reg, rank, k, n, s, rho1, rho);
    }
  }

  /** Two nodes of one kind whose children weigh the same weigh the same. */
  lemma SameShape(reg: Registry, rank: Ranks, k: nat, n: Node, s: Node, rho1: Weights, rho: Weights)
    requires Acyclic(reg, rank) && Expandable(reg, rank, k, n) && !n.Identifier?
    requires |Kids(s)| == |Kids(n)| && Alike(n, s)
    requires forall i :: 0 <= i < |Kids(n)| ==> Expandable(reg, rank, k, Kids(s)[i])
    requires forall i :: 0 <= i < |Kids(n)| ==> Weight(reg, rank, k, Kids(s)[i], rho) == Weight(reg, rank, k, Kids(n)[i], rho1)
    ensures Expandable(reg, rank, k, s)
    ensures Weight(reg, rank, k, s, rho) == Weight(reg, rank, k, n, rho1)
  {
    AlikeExpandable(reg, rank, k, n, s);
    hide Kids, ArgsOf, Acyclic, Bind, Expandable;
    var ws, ws1 := KidWeights(reg, rank, k, s, rho), KidWeights(reg, rank, k, n, rho1);
    forall i | 0 <= i < |Kids(n)| ensures ws[i] == ws1[i] {
      assert Weight(reg, rank, k, Kids(s)[i], rho) == Weight(reg, rank, k, Kids(n)[i], rho1);
    }
    assert ws == ws1;
  }

  lemma AlikeExpandable(reg: Registry, rank: Ranks, k: nat, n: Node, s: Node)
    requires Expandable(reg, rank, k, n) && !n.Identifier?
    requires |Kids(s)| == |Kids(n)| && Alike(n, s)
    requires forall i :: 0 <= i < |Kids(n)| ==> Expandable(reg, rank, k, Kids(s)[i])
    ensures Expandable(reg, rank, k, s) && IsMacroCall(reg, s) == IsMacroCall(reg, n)
  {
    hide Kids, ArgsOf;
  }

  /** Two nodes that a rewriter treats the same way, whatever their children. */
  predicate Alike(n: Node, s: Node) {
    && s.Identifier? == n.Identifier? && s.CommandDef? == n.CommandDef? && s.MacroDef? == n.MacroDef?
    && s.Call? == n.Call? && s.CustomCall? == n.CustomCall?
    && (n.Call? || n.CustomCall? ==>
          && s.name == n.name && |s.args| == |n.args| && |ArgsOf(s)| == |ArgsOf(n)|
          && forall i :: 0 <= i < |n.args| ==> s.args[i].Nil? == n.args[i].Nil?)
  }

  lemma SubstKeepsArguments(n: Node, params: seq<string>, args: seq<Node>)
    requires !n.Identifier? && |params| <= |args|
    requires var s := Subst(n, params, args);
      |Kids(s)| == |Kids(n)| && forall i :: 0 <= i < |Kids(n)| ==> Kids(s)[i].Nil? == Kids(n)[i].Nil?
    ensures Alike(n, Subst(n, params, args))
  {
    var s := Subst(n, params, args);
    SameKind(n, Kids(s));
    if n.CustomCall? { assert Kids(s)[|n.args|] == s.body && Kids(n)[|n.args|] == n.body; }
    if n.Call? || n.CustomCall? {
      forall i | 0 <= i < |n.args| ensures s.args[i].Nil? == n.args[i].Nil? {
        assert Kids(s)[i] == s.args[i] && Kids(n)[i] == n.args[i];
      }
    }
  }

  /** bs_ast_expand_macro on a call. */
  function Expansion(reg: Registry, n: Node): Node
    requires IsMacroCall(reg, n) && |reg[n.name].params| <= |ArgsOf(n)|
  {
    Subst(reg[n.name].body, reg[n.name].params, ArgsOf(n))
  }

  /** One expansion, even if it copies its arguments, is one lighter than the call. */
  lemma ExpansionIsLighter(reg: Registry, rank: Ranks, k: nat, n: Node)
    requires Acyclic(reg, rank) && Expandable(reg, rank, k, n) && IsMacroCall(reg, n)
    ensures Expandable(reg, rank, k, Expansion(reg, n))
    ensures Weight(reg, rank, k, Expansion(reg, n), map[]) + 1 == Weight(reg, rank, k, n, map[])
  {
    var m := reg[n.name];
    var args := ArgsOf(n);
    var ws := KidWeights(reg, rank, k, n, map[])[..|args|];
    forall i | 0 <= i < |args|
      ensures !args[i].Nil? && Expandable(reg, rank, k, args[i]) && ws[i] == Weight(reg, rank, k, args[i], map[])
    {
      assert args[i] == Kids(n)[i];
    }
    ExpandableMore(reg, rank, rank[n.name], k, m.body);
    SubstWeight(reg, rank, k, m.body, m.params, args, ws, map[]);
    assert map[] + Bind(m.params, ws) == Bind(m.params, ws);
    WeightAnyBound(reg, rank, k, rank[n.name], m.body, Bind(m.params, ws));
  }

  lemma KidIsLighter(reg: Registry, rank: Ranks, k: nat, n: Node, i: nat)
    requires Acyclic(reg, rank) && Expandable(reg, rank, k, n) && !IsMacroCall(reg, n) && i < |Kids(n)|
    ensures Expandable(reg, rank, k, Kids(n)[i])
    ensures Weight(reg, rank, k, Kids(n)[i], map[]) < Weight(reg, rank, k, n, map[])
  {
    SumBounds(KidWeights(reg, rank, k, n, map[]), i);
  }

  // ----- Rewriting -----

  /** bs_ast_rewrite on a tree that defines nothing: it ends, because the weight drops. */
  ghost function Rewritten(reg: Registry, rank: Ranks, k: nat, n: Node): Node
    requires Acyclic(reg, rank) && Expandable(reg, rank, k, n)
    decreases Weight(reg, rank, k, n, map[])
  {
    if IsMacroCall(reg, n) then
      ExpansionIsLighter(reg, rank, k, n);
      Rewritten(reg, rank, k, Expansion(reg, n))
    else
      WithKids(n, seq(|Kids(n)|, i requires 0 <= i < |Kids(n)| =>
        KidIsLighter(reg, rank, k, n, i); Rewritten(reg, rank, k, Kids(n)[i])))
  }

  /** No macro is invoked anywhere in the tree. */
  predicate MacroFree(reg: Registry, n: Node)
    decreases n
  {
    !IsMacroCall(reg, n) && forall i :: 0 <= i < |Kids(n)| ==> MacroFree(reg, Kids(n)[i])
  }

  /** The rewritten tree invokes no macro. */
  lemma {:induction false} RewrittenIsMacroFree(reg: Registry, rank: Ranks, k: nat, n: Node)
    requires Acyclic(reg, rank) && Expandable(reg, rank, k, n)
    ensures MacroFree(reg, Rewritten(reg, rank, k, n))
    decreases Weight(reg, rank, k, n, map[])
  {
    if IsMacroCall(reg, n) {
      ExpansionIsLighter(reg, rank, k, n);
      RewrittenIsMacroFree(reg, rank, k, Expansion(reg, n));
    } else {
      var r := Rewritten(reg, rank, k, n);
      SameKind(n, Kids(r));
      forall i | 0 <= i < |Kids(n)| ensures MacroFree(reg, Kids(r)[i]) {
        KidIsLighter(reg, rank, k, n, i);
        RewrittenIsMacroFree(reg, rank, k, Kids(n)[i]);
      }
    }
  }

  /** A tree that invokes no macro comes back unchanged. */
  lemma {:induction false} RewrittenMacroFree(reg: Registry, rank: Ranks, k: nat, n: Node)
    requires Acyclic(reg, rank) && Expandable(reg, rank, k, n) && MacroFree(reg, n)
    ensures Rewritten(reg, rank, k, n) == n
    decreases n
  {
    var r := Rewritten(reg, rank, k, n);
    forall i | 0 <= i < |Kids(n)| ensures Kids(r)[i] == Kids(n)[i] {
      RewrittenMacroFree(reg, rank, k, Kids(n)[i]);
    }
    assert Kids(r) == Kids(n);
  }

  /** The rewritten tree can be rewritten again: it defines nothing, and calls no macro. */
  lemma {:induction false} RewrittenIsExpandable(reg: Registry, rank: Ranks, k: nat, n: Node)
    requires Acyclic(reg, rank) && Expandable(reg, rank, k, n)
    ensures Expandable(reg, rank, k, Rewritten(reg, rank, k, n))
    decreases Weight(reg, rank, k, n, map[])
  {
    hide Acyclic, Weight;
    if IsMacroCall(reg, n) {
      ExpansionIsLighter(reg, rank, k, n);
      RewrittenIsExpandable(reg, rank, k, Expansion(reg, n));
    } else {
      var r := Rewritten(reg, rank, k, n);
      SameKind(n, Kids(r));
      forall i | 0 <= i < |Kids(n)| ensures Expandable(reg, rank, k, Kids(r)[i]) {
        KidIsLighter(reg, rank, k, n, i);
        RewrittenIsExpandable(reg, rank, k, Kids(n)[i]);
      }
    }
  }
}
