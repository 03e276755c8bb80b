/** The scope chain of bs_runtime.c as a value: innermost scope first, the global scope last. */
module BsScopes {
  import opened BsAst

  datatype Binding = Binding(value: Value, isConst: bool)
  type Scope = map<string, Binding>

  /** bs_env_get */
  function Lookup(scopes: seq<Scope>, x: string): Option<Binding> {
    if scopes == [] then None
    else if x in scopes[0] then Some(scopes[0][x])
    else Lookup(scopes[1..], x)
  }

  /** bs_env_define in the current scope */
  function Define(scopes: seq<Scope>, x: string, v: Value, isConst: bool): seq<Scope> {
    if scopes == [] then scopes else scopes[0 := scopes[0][x := Binding(v, isConst)]]
  }

  /** bs_env_assign: None when no scope binds x, or when the innermost binding is a constant. */
  function AssignTo(scopes: seq<Scope>, x: string, v: Value): (r: Option<seq<Scope>>) {
    if scopes == [] then None
    else if x in scopes[0] then
      if scopes[0][x].isConst then None else Some(scopes[0 := scopes[0][x := Binding(v, false)]])
    else
      match AssignTo(scopes[1..], x, v)
      case None => None
      case Some(rest) => Some([scopes[0]] + rest)
  }

  function PushScope(scopes: seq<Scope>): seq<Scope> { [map[]] + scopes }

  /** bs_runtime_pop_scope never pops the global scope. */
  function PopScope(scopes: seq<Scope>): seq<Scope> {
    if |scopes| <= 1 then scopes else scopes[1..]
  }

  /** Parameters are bound to as many arguments as there are of both. */
  function DefineParams(scopes: seq<Scope>, params: seq<string>, args: seq<Value>): seq<Scope>
    decreases params
  {
    if params == [] || args == [] then scopes
    else DefineParams(Define(scopes, params[0], args[0], false), params[1..], args[1..])
  }

  // ----- What an evaluation may change -----

  /** One scope after an evaluation inside a nested scope: the same names, the same constants. */
  predicate SameNames(before: Scope, after: Scope) {
    && before.Keys == after.Keys
    && forall x :: x in before ==>
         && after[x].isConst == before[x].isConst
         && (before[x].isConst ==> after[x] == before[x])
  }

  /** The whole chain seen from a nested scope. */
  predicate SameBindings(before: seq<Scope>, after: seq<Scope>) {
    |before| == |after| && forall i :: 0 <= i < |before| ==> SameNames(before[i], after[i])
  }

  /** The chain seen from its own current scope, which may gain and redefine names. */
  predicate SameChain(before: seq<Scope>, after: seq<Scope>) {
    && |before| == |after|
    && (before != [] ==> before[0].Keys <= after[0].Keys && SameBindings(before[1..], after[1..]))
  }

  lemma SameBindingsTrans(a: seq<Scope>, b: seq<Scope>, c: seq<Scope>)
    requires SameBindings(a, b) && SameBindings(b, c)
    ensures SameBindings(a, c)
  {
    forall i | 0 <= i < |a| ensures SameNames(a[i], c[i]) {
      assert SameNames(a[i], b[i]) && SameNames(b[i], c[i]);
    }
  }

  lemma SameChainTrans(a: seq<Scope>, b: seq<Scope>, c: seq<Scope>)
    requires SameChain(a, b) && SameChain(b, c)
    ensures SameChain(a, c)
  {
    if a != [] { SameBindingsTrans(a[1..], b[1..], c[1..]); }
  }

  lemma BindingsGiveChain(a: seq<Scope>, b: seq<Scope>)
    requires SameBindings(a, b)
    ensures SameChain(a, b)
  {
    if a != [] { assert SameNames(a[0], b[0]); }
  }

  lemma {:induction false} AssignBindings(scopes: seq<Scope>, x: string, v: Value)
    ensures var r := AssignTo(scopes, x, v); r.Some? ==> SameBindings(scopes, r.value)
  {
    if scopes != [] && x !in scopes[0] {
      AssignBindings(scopes[1..], x, v);
    }
  }

  lemma DefineChain(scopes: seq<Scope>, x: string, v: Value, isConst: bool)
    ensures SameChain(scopes, Define(scopes, x, v, isConst))
  {
  }

  lemma {:induction false} DefineParamsChain(scopes: seq<Scope>, params: seq<string>, args: seq<Value>)
    ensures SameChain(scopes, DefineParams(scopes, params, args))
    decreases params
  {
    if params != [] && args != [] {
      var s1 := Define(scopes, params[0], args[0], false);
      DefineChain(scopes, params[0], args[0], false);
      DefineParamsChain(s1, params[1..], args[1..]);
      SameChainTrans(scopes, s1, DefineParams(s1, params[1..], args[1..]));
    }
  }

  /** A pushed scope absorbs every definition: popping it leaves the enclosing chain's names alone. */
  lemma PoppedBindings(scopes: seq<Scope>, inner: seq<Scope>)
    requires scopes != [] && SameChain(PushScope(scopes), inner)
    ensures SameBindings(scopes, PopScope(inner))
  {
    assert PushScope(scopes)[1..] == scopes;
  }
}
