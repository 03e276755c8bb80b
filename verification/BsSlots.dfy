/** Names and slots: how the code generator's locals and the stack below the temporaries
    correspond to the interpreter's chain of block scopes. */
module BsSlots {
  import opened BsAst
  import opened BsScopes
  import opened BsCodegen

  /** The last local of that name at that depth, or -1: a redeclaration in the same block adds a
      second slot, while the interpreter overwrites the one binding. */
  function LastAt(locals: seq<Local>, x: string, depth: nat): (r: int)
    ensures -1 <= r < |locals|
    ensures r >= 0 ==> locals[r] == Local(x, depth)
    ensures forall i :: r < i < |locals| ==> locals[i] != Local(x, depth)
  {
    if locals == [] then -1
    else if locals[|locals| - 1] == Local(x, depth) then |locals| - 1
    else LastAt(locals[..|locals| - 1], x, depth)
  }

  ghost predicate DepthsOrdered(locals: seq<Local>, depth: nat) {
    && (forall i :: 0 <= i < |locals| ==> 1 <= locals[i].depth <= depth)
    && (forall i, j :: 0 <= i < j < |locals| ==> locals[i].depth <= locals[j].depth)
  }

  /** Block scope number level, counted from the global scope 0. */
  function Level(scopes: seq<Scope>, level: nat): Scope
    requires level < |scopes|
  {
    scopes[|scopes| - 1 - level]
  }

  ghost predicate SlotHolds(locals: seq<Local>, slots: seq<Value>, scope: Scope, x: string, level: nat)
    requires |slots| == |locals|
  {
    var i := LastAt(locals, x, level);
    if i >= 0 then x in scope && scope[x].value == slots[i] else x !in scope
  }

  /** Every block scope binds exactly the names declared at its depth, each to the value in its last slot. */
  ghost predicate Agree(locals: seq<Local>, depth: nat, slots: seq<Value>, scopes: seq<Scope>) {
    && |scopes| == depth + 1
    && |slots| == |locals|
    && DepthsOrdered(locals, depth)
    && forall level, x :: 1 <= level <= depth ==> SlotHolds(locals, slots, Level(scopes, level), x, level)
  }

  lemma {:induction false} LookupAt(scopes: seq<Scope>, x: string, k: nat)
    requires k < |scopes| && x in scopes[k]
    requires forall j :: 0 <= j < k ==> x !in scopes[j]
    ensures Lookup(scopes, x) == Some(scopes[k][x])
  {
    if k > 0 { LookupAt(scopes[1..], x, k - 1); }
  }

  lemma {:induction false} LookupBeyond(scopes: seq<Scope>, x: string, k: nat)
    requires k <= |scopes|
    requires forall j :: 0 <= j < k ==> x !in scopes[j]
    ensures Lookup(scopes, x) == Lookup(scopes[k..], x)
  {
    if k > 0 {
      LookupBeyond(scopes[1..], x, k - 1);
      assert scopes[1..][k - 1..] == scopes[k..];
    }
  }

  lemma {:induction false} AssignAt(scopes: seq<Scope>, x: string, v: Value, k: nat)
    requires k < |scopes|
    requires forall j :: 0 <= j < k ==> x !in scopes[j]
    requires k == |scopes| - 1 || x in scopes[k]
    ensures AssignTo(scopes, x, v) ==
      if x in scopes[k] && !scopes[k][x].isConst then Some(scopes[k := scopes[k][x := Binding(v, false)]]) else None
  {
    if k > 0 {
      AssignAt(scopes[1..], x, v, k - 1);
      if x in scopes[k] && !scopes[k][x].isConst {
        assert [scopes[0]] + scopes[1..][k - 1 := scopes[k][x := Binding(v, false)]]
            == scopes[k := scopes[k][x := Binding(v, false)]];
      }
    } else if x !in scopes[0] {
      assert scopes[1..] == [];
    }
  }

  /** No local of that name lives in a scope deeper than the resolved one. */
  lemma ResolvedScope(locals: seq<Local>, depth: nat, slots: seq<Value>, scopes: seq<Scope>, x: string)
    requires Agree(locals, depth, slots, scopes)
    ensures var i := Resolve(locals, x);
      var level := if i >= 0 then locals[i].depth else 0;
      && level <= depth
      && (forall j :: 0 <= j < depth - level ==> x !in scopes[j])
      && (i >= 0 ==> x in scopes[depth - level] && scopes[depth - level][x].value == slots[i]
                     && LastAt(locals, x, level) == i)
  {
    var i := Resolve(locals, x);
    var level := if i >= 0 then locals[i].depth else 0;
    forall j | 0 <= j < depth - level ensures x !in scopes[j] {
      assert SlotHolds(locals, slots, Level(scopes, depth - j), x, depth - j);
    }
    if i >= 0 { assert SlotHolds(locals, slots, Level(scopes, level), x, level); }
  }

  /** resolve_local finds a slot exactly when a block scope binds the name, and the slot holds the
      value the scope chain gives; otherwise the chain's answer is the global scope's. */
  lemma ResolveAgrees(locals: seq<Local>, depth: nat, slots: seq<Value>, scopes: seq<Scope>, x: string)
    requires Agree(locals, depth, slots, scopes)
    ensures var i := Resolve(locals, x);
      && (i >= 0 <==> exists j :: 0 <= j < depth && x in scopes[j])
      && (i >= 0 ==> exists b :: Lookup(scopes, x) == Some(b) && b.value == slots[i])
      && (i < 0 ==> Lookup(scopes, x) == if x in scopes[depth] then Some(scopes[depth][x]) else None)
  {
    var i := Resolve(locals, x);
    ResolvedScope(locals, depth, slots, scopes, x);
    if i >= 0 {
      LookupAt(scopes, x, depth - locals[i].depth);
    } else {
      LookupBeyond(scopes, x, depth);
      assert Lookup(scopes[depth + 1..], x) == None;
    }
  }

  /** A permitted assignment to a local changes its slot and nothing else; to any other name, the
      global scope and nothing else. */
  lemma AssignAgrees(locals: seq<Local>, depth: nat, slots: seq<Value>, scopes: seq<Scope>, x: string, v: Value)
    requires Agree(locals, depth, slots, scopes)
    requires AssignTo(scopes, x, v).Some?
    ensures var i := Resolve(locals, x);
      var after := AssignTo(scopes, x, v).value;
      && |after| == depth + 1
      && (i >= 0 ==> Agree(locals, depth, slots[i := v], after) && after[depth] == scopes[depth])
      && (i < 0 ==>
            && Agree(locals, depth, slots, after)
            && x in scopes[depth] && !scopes[depth][x].isConst
            && after[depth] == scopes[depth][x := Binding(v, false)])
  {
    var i := Resolve(locals, x);
    ResolvedScope(locals, depth, slots, scopes, x);
    var k := if i >= 0 then depth - locals[i].depth else depth;
    AssignAt(scopes, x, v, k);
    var after := AssignTo(scopes, x, v).value;
    assert after == scopes[k := scopes[k][x := Binding(v, false)]];
    var slots1 := if i >= 0 then slots[i := v] else slots;
    forall level, y | 1 <= level <= depth ensures SlotHolds(locals, slots1, Level(after, level), y, level) {
      assert SlotHolds(locals, slots, Level(scopes, level), y, level);
    }
  }

  /** var in a block: the new slot is the last of its name, as the binding is the newest. */
  lemma DeclareAgrees(locals: seq<Local>, depth: nat, slots: seq<Value>, scopes: seq<Scope>,
                      x: string, v: Value, isConst: bool)
    requires Agree(locals, depth, slots, scopes) && depth >= 1
    ensures Agree(locals + [Local(x, depth)], depth, slots + [v], Define(scopes, x, v, isConst))
  {
    var locals1 := locals + [Local(x, depth)];
    var slots1 := slots + [v];
    var after := Define(scopes, x, v, isConst);
    assert DepthsOrdered(locals1, depth);
    forall level, y | 1 <= level <= depth ensures SlotHolds(locals1, slots1, Level(after, level), y, level) {
      assert SlotHolds(locals, slots, Level(scopes, level), y, level);
      assert locals1[..|locals|] == locals;
    }
  }

  lemma PushAgrees(locals: seq<Local>, depth: nat, slots: seq<Value>, scopes: seq<Scope>)
    requires Agree(locals, depth, slots, scopes)
    ensures Agree(locals, depth + 1, slots, PushScope(scopes))
  {
    var after := PushScope(scopes);
    forall level, y | 1 <= level <= depth + 1 ensures SlotHolds(locals, slots, Level(after, level), y, level) {
      if level <= depth { assert SlotHolds(locals, slots, Level(scopes, level), y, level); }
    }
  }

  /** Leaving a block: its scope and the slots of its locals go together. */
  lemma PopAgrees(locals: seq<Local>, inner: seq<Local>, depth: nat, slots: seq<Value>, scopes: seq<Scope>)
    requires Agree(locals + inner, depth + 1, slots, scopes)
    requires DepthsOrdered(locals, depth)
    requires forall i :: 0 <= i < |inner| ==> inner[i].depth == depth + 1
    ensures Agree(locals, depth, slots[..|locals|], PopScope(scopes))
  {
    var after := PopScope(scopes);
    forall level, y | 1 <= level <= depth
      ensures SlotHolds(locals, slots[..|locals|], Level(after, level), y, level)
    {
      assert SlotHolds(locals + inner, slots, Level(scopes, level), y, level);
      LastAtPrefix(locals, inner, y, level);
    }
  }

  lemma {:induction false} LastAtPrefix(locals: seq<Local>, inner: seq<Local>, x: string, level: nat)
    requires forall i :: 0 <= i < |inner| ==> inner[i].depth != level
    ensures LastAt(locals + inner, x, level) == LastAt(locals, x, level)
  {
    if inner == [] {
      assert locals + inner == locals;
    } else {
      LastAtPrefix(locals, inner[..|inner| - 1], x, level);
      assert (locals + inner)[..|locals| + |inner| - 1] == locals + inner[..|inner| - 1];
    }
  }

  lemma {:induction false} KeepLocalsPrefix(locals: seq<Local>, inner: seq<Local>, depth: nat)
    requires DepthsOrdered(locals, depth)
    requires forall i :: 0 <= i < |inner| ==> inner[i].depth == depth + 1
    ensures KeepLocals(locals + inner, depth) == locals
  {
    if inner == [] {
      assert locals + inner == locals;
    } else {
      KeepLocalsPrefix(locals, inner[..|inner| - 1], depth);
      assert (locals + inner)[..|locals| + |inner| - 1] == locals + inner[..|inner| - 1];
    }
  }
}
