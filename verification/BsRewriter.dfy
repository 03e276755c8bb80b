/** The rewriter in its own form: a registry that definitions write to, and trees whose children are
    rewritten one after the other. */
module BsRewriter {
  import opened BsAst
  import opened BsMacros

  /** The rewritten tree does not depend on how the registry was found to be acyclic. */
  lemma {:induction false} RewrittenIsUnique(reg: Registry, rank: Ranks, k: nat, rank1: Ranks, k1: nat, n: Node)
    requires Acyclic(reg, rank) && Expandable(reg, rank, k, n)
    requires Acyclic(reg, rank1) && Expandable(reg, rank1, k1, n)
    ensures Rewritten(reg, rank, k, n) == Rewritten(reg, rank1, k1, n)
    decreases Weight(reg, rank, k, n, map[])
  {
    if IsMacroCall(reg, n) {
      ExpansionIsLighter(reg, rank, k, n);
      ExpansionIsLighter(reg, rank1, k1, n);
      RewrittenIsUnique(reg, rank, k, rank1, k1, Expansion(reg, n));
    } else {
      var r, r1 := Rewritten(reg, rank, k, n), Rewritten(reg, rank1, k1, n);
      forall i | 0 <= i < |Kids(n)| ensures Kids(r)[i] == Kids(r1)[i] {
        KidIsLighter(reg, rank, k, n, i);
        KidIsLighter(reg, rank1, k1, n, i);
        RewrittenIsUnique(reg, rank, k, rank1, k1, Kids(n)[i]);
      }
      assert Kids(r) == Kids(r1);
    }
  }

  /** Rewriting n under reg ends with r. */
  ghost predicate RewritesTo(reg: Registry, n: Node, r: Node) {
    exists rank: Ranks, k: nat ::
      Acyclic(reg, rank) && Expandable(reg, rank, k, n) && r == Rewritten(reg, rank, k, n)
  }

  predicate IsDefinition(n: Node) { n.MacroDef? || n.CommandDef? }

  /** bs_register_macro and bs_register_ast_command replace an entry of the same name. */
  function Registered(reg: Registry, n: Node): Registry
    requires IsDefinition(n)
  {
    reg[n.name := if n.MacroDef? then Macro(n.params, n.body) else AstCommand(n.params, n.body)]
  }

  /** The registry after the definitions among the first statements. */
  function RegistryAfter(reg: Registry, stmts: seq<Node>): Registry {
    if stmts == [] then reg
    else
      var before := RegistryAfter(reg, stmts[..|stmts| - 1]);
      var last := stmts[|stmts| - 1];
      if IsDefinition(last) then Registered(before, last) else before
  }

  /** Each statement defines something or can be expanded under the definitions before it. */
  ghost predicate Rewritable(reg: Registry, stmts: seq<Node>) {
    forall i :: 0 <= i < |stmts| ==> RewritableAt(RegistryAfter(reg, stmts[..i]), stmts[i])
  }

  ghost predicate RewritableAt(reg: Registry, n: Node) {
    IsDefinition(n) || exists rank: Ranks, k: nat :: Acyclic(reg, rank) && Expandable(reg, rank, k, n)
  }

  /** What becomes of one statement of a program. */
  ghost predicate Handled(reg: Registry, n: Node, r: Node) {
    if IsDefinition(n) then r == n else RewritesTo(reg, n, r)
  }

  class Rewriter {
    var registry: Registry

    constructor (registry: Registry)
      ensures this.registry == registry
    {
      this.registry := registry;
    }

    /** bs_ast_rewrite on a tree without definitions; it leaves the registry alone. */
    method Rewrite(n: Node, ghost rank: Ranks, ghost k: nat) returns (r: Node)
      requires Acyclic(registry, rank) && Expandable(registry, rank, k, n)
      ensures r == Rewritten(registry, rank, k, n)
      decreases Weight(registry, rank, k, n, map[])
    {
      hide Acyclic, Weight, Expansion, WithKids;
      if IsMacroCall(registry, n) {
        ExpansionIsLighter(registry, rank, k, n);
        r := Rewrite(Expansion(registry, n), rank, k);
      } else {
        var kids := Kids(n);
        var i := 0;
        while i < |kids|
          invariant i <= |kids| == |Kids(n)|
          invariant forall j :: 0 <= j < i ==> kids[j] == Kids(Rewritten(registry, rank, k, n))[j]
          invariant forall j :: i <= j < |kids| ==> kids[j] == Kids(n)[j]
        {
          KidIsLighter(registry, rank, k, n, i);
          var kid := Rewrite(kids[i], rank, k);
          kids := kids[i := kid];
          i := i + 1;
        }
        assert kids == Kids(Rewritten(registry, rank, k, n));
        r := WithKids(n, kids);
      }
    }

    /** A definition is registered and stays; anything else is rewritten. */
    method RewriteStatement(n: Node) returns (r: Node)
      requires RewritableAt(registry, n)
      modifies this
      ensures registry == if IsDefinition(n) then Registered(old(registry), n) else old(registry)
      ensures Handled(old(registry), n, r)
    {
      hide Acyclic, Expandable;
      if IsDefinition(n) {
        r := n;
        registry := Registered(registry, n);
      } else {
        ghost var rank: Ranks, k: nat :| Acyclic(registry, rank) && Expandable(registry, rank, k, n);
        r := Rewrite(n, rank, k);
        assert RewritesTo(registry, n, r);
      }
    }

    /** The statements of a program in order, each under the definitions before it. */
    method RewriteProgram(stmts: seq<Node>) returns (r: seq<Node>)
      requires Rewritable(registry, stmts)
      modifies this
      ensures registry == RegistryAfter(old(registry), stmts)
      ensures |r| == |stmts|
      ensures forall i :: 0 <= i < |stmts| ==> Handled(RegistryAfter(old(registry), stmts[..i]), stmts[i], r[i])
    {
      hide Handled, RewritableAt, Registered;
      r := [];
      var i := 0;
      assert stmts[..0] == [];
      while i < |stmts|
        invariant i <= |stmts| && |r| == i
        invariant registry == RegistryAfter(old(registry), stmts[..i])
        invariant forall j :: 0 <= j < i ==> Handled(RegistryAfter(old(registry), stmts[..j]), stmts[j], r[j])
      {
        var s := RewriteStatement(stmts[i]);
        assert stmts[..i + 1][..i] == stmts[..i];
        r := r + [s];
        i := i + 1;
      }
      assert stmts[..|stmts|] == stmts;
    }
  }

  /** What rewriting leaves invokes none of the macros known at that point and is its only result; it can be rewritten
      again, and that changes nothing. */
  lemma RewritingIsFinal(reg: Registry, n: Node, r: Node)
    requires RewritesTo(reg, n, r)
    ensures MacroFree(reg, r)
    ensures forall r1 :: RewritesTo(reg, n, r1) ==> r1 == r
    ensures RewritesTo(reg, r, r)
    ensures forall r1 :: RewritesTo(reg, r, r1) ==> r1 == r
  {
    hide Acyclic, Expandable, Rewritten, MacroFree;
    var rank: Ranks, k: nat :| Acyclic(reg, rank) && Expandable(reg, rank, k, n) && r == Rewritten(reg, rank, k, n);
    RewrittenIsMacroFree(reg, rank, k, n);
    RewrittenIsExpandable(reg, rank, k, n);
    RewrittenMacroFree(reg, rank, k, r);
    forall r1 | RewritesTo(reg, n, r1) ensures r1 == r {
      var rank1: Ranks, k1: nat :|
        Acyclic(reg, rank1) && Expandable(reg, rank1, k1, n) && r1 == Rewritten(reg, rank1, k1, n);
      RewrittenIsUnique(reg, rank, k, rank1, k1, n);
    }
    forall r1 | RewritesTo(reg, r, r1) ensures r1 == r {
      var rank1: Ranks, k1: nat :|
        Acyclic(reg, rank1) && Expandable(reg, rank1, k1, r) && r1 == Rewritten(reg, rank1, k1, r);
      RewrittenMacroFree(reg, rank1, k1, r);
    }
  }

  /** Behind the definition of a macro its calls are expanded by its body and its parameters, a trailing block being the
      last argument; a command definition makes a command of the name; no other name changes. */
  lemma DefinitionTakesEffect(reg: Registry, x: string, params: seq<string>, body: Node, args: seq<Node>, y: string)
    requires y != x && |params| <= |args|
    ensures var r := Registered(reg, MacroDef(x, params, body));
      && IsMacroCall(r, Call(x, args)) && Expansion(r, Call(x, args)) == Subst(body, params, args)
      && (forall block: Node :: !block.Nil? ==>
            Expansion(r, CustomCall(x, args, block)) == Subst(body, params, args + [block]))
      && Expansion(r, CustomCall(x, args, Nil)) == Subst(body, params, args)
      && (y in r <==> y in reg) && (y in r ==> r[y] == reg[y])
    ensures var r := Registered(reg, CommandDef(x, params, body));
      && !IsMacroCall(r, Call(x, args)) && x in r && r[x] == AstCommand(params, body)
      && (y in r <==> y in reg) && (y in r ==> r[y] == reg[y])
  {
    hide Subst;
  }
}
