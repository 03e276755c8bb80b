/** Which locals a compiled statement leaves behind. */
module BsLocals {
  import opened BsAst
  import opened BsBytecode
  import opened BsCodegen
  import opened BsSlots
  import opened BsWellFormed

  /** A declaration inside a scope leaves one local, anything else none. */
  function NewLocals(n: Node, depth: nat): seq<Local> {
    if depth > 0 && n.VarDecl? then [Local(n.name, depth)] else []
  }

  function DeclaredIn(stmts: seq<Node>, depth: nat): (r: seq<Local>)
    ensures forall i :: 0 <= i < |r| ==> r[i].depth == depth
    ensures depth == 0 ==> r == []
  {
    if stmts == [] then [] else NewLocals(stmts[0], depth) + DeclaredIn(stmts[1..], depth)
  }

  lemma OrderedWith(locals: seq<Local>, more: seq<Local>, depth: nat)
    requires DepthsOrdered(locals, depth)
    requires forall i :: 0 <= i < |more| ==> more[i].depth == depth && depth > 0
    ensures DepthsOrdered(locals + more, depth)
  {
  }

  lemma {:induction false} LocalsAfter(env: Env, locals: seq<Local>, depth: nat, pool: seq<Value>, n: Node)
    requires WfStmt(n, |locals|, depth) && DepthsOrdered(locals, depth)
    ensures var c := CompileStmt(env, locals, depth, pool, n);
      c.Compiled? && c.exact ==> c.locals == locals + NewLocals(n, depth)
    decreases n, 1
  {
    hide CompileExpr, CompileArgs, CompileOptional, Invoke, Encode, Pops, IfCode, IfElseCode, WhileCode, WfExpr, WfArgs;
    assert locals + [] == locals;
    if n.Block? {
      var inner := CompileStmts(env, locals, depth + 1, pool, n.stmts);
      LocalsAfterAll(env, locals, depth + 1, pool, n.stmts);
      if inner.Compiled? && inner.exact {
        KeepLocalsPrefix(locals, DeclaredIn(n.stmts, depth + 1), depth);
      }
    } else if n.If? {
      var c := CompileExpr(env, locals, pool, n.cond);
      if c.Emitted? {
        LocalsAfter(env, locals, depth, c.pool, n.thenBranch);
        var t := CompileStmt(env, locals, depth, c.pool, n.thenBranch);
        var b := CompileBranches(env, locals, depth, c.pool, n);
        assert CompileIf(env, locals, depth, pool, n).Compiled? == b.Compiled?;
        if t.Compiled? && t.exact {
          assert t.locals == locals;
          LocalsAfter(env, locals, depth, t.pool, n.elseBranch);
        }
      }
    } else if n.While? {
      var c := CompileExpr(env, locals, pool, n.cond);
      if c.Emitted? { LocalsAfter(env, locals, depth, c.pool, n.body); }
    }
  }

  lemma {:induction false} LocalsAfterAll(env: Env, locals: seq<Local>, depth: nat, pool: seq<Value>, stmts: seq<Node>)
    requires WfStmts(stmts, |locals|, depth) && DepthsOrdered(locals, depth)
    ensures var c := CompileStmts(env, locals, depth, pool, stmts);
      c.Compiled? && c.exact ==> c.locals == locals + DeclaredIn(stmts, depth)
    decreases stmts, 0
  {
    hide CompileStmt, WfStmt;
    if stmts == [] {
      assert locals + [] == locals;
    } else {
      LocalsAfter(env, locals, depth, pool, stmts[0]);
      var c := CompileStmt(env, locals, depth, pool, stmts[0]);
      if c.Compiled? && c.exact {
        OrderedWith(locals, NewLocals(stmts[0], depth), depth);
        LocalsAfterAll(env, c.locals, depth, c.pool, stmts[1..]);
        assert locals + (NewLocals(stmts[0], depth) + DeclaredIn(stmts[1..], depth))
            == (locals + NewLocals(stmts[0], depth)) + DeclaredIn(stmts[1..], depth);
      }
    }
  }
}
