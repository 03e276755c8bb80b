/** The runtime environment (bs_runtime.c) and the tree-walk interpreter (bs_interpreter.c) in
    their own form: one object whose scopes, registry and output the evaluation updates in place. */
module BsRuntime {
  import opened BsAst
  import opened BsValue
  import opened BsScopes
  import opened BsInterpreter

  /** One entry of a scope's linked list; the newest entry comes first. */
  datatype Entry = Entry(name: string, value: Value, isConst: bool)
  type Environment = seq<Entry>

  /** What a lookup in the list sees: the first entry of a name hides later ones. */
  function ScopeOf(env: Environment): Scope {
    if env == [] then map[] else ScopeOf(env[1..])[env[0].name := Binding(env[0].value, env[0].isConst)]
  }

  function ScopesOf(envs: seq<Environment>): (r: seq<Scope>)
    ensures |r| == |envs|
    ensures forall i :: 0 <= i < |envs| ==> r[i] == ScopeOf(envs[i])
  {
    if envs == [] then [] else [ScopeOf(envs[0])] + ScopesOf(envs[1..])
  }

  lemma {:induction false} ScopeOfAbsent(env: Environment, x: string)
    ensures x in ScopeOf(env) <==> exists i :: 0 <= i < |env| && env[i].name == x
  {
    if env != [] {
      ScopeOfAbsent(env[1..], x);
      if i :| 0 <= i < |env[1..]| && env[1..][i].name == x { assert env[i + 1].name == x; }
      if i :| 0 <= i < |env| && env[i].name == x && i > 0 { assert env[1..][i - 1].name == x; }
    }
  }

  /** The first entry of a name decides, and replacing it redefines the name. */
  lemma {:induction false} ScopeOfFirst(env: Environment, k: nat, v: Value, isConst: bool)
    requires k < |env|
    requires forall i :: 0 <= i < k ==> env[i].name != env[k].name
    ensures env[k].name in ScopeOf(env)
    ensures ScopeOf(env)[env[k].name] == Binding(env[k].value, env[k].isConst)
    ensures ScopeOf(env[k := Entry(env[k].name, v, isConst)]) == ScopeOf(env)[env[k].name := Binding(v, isConst)]
  {
    var e := Entry(env[k].name, v, isConst);
    if k == 0 {
      assert env[0 := e][1..] == env[1..];
    } else {
      ScopeOfFirst(env[1..], k - 1, v, isConst);
      assert env[k := e][1..] == env[1..][k - 1 := e];
    }
  }

  /** Position of the first entry of a name, by a walk along the list. */
  method Find(env: Environment, x: string) returns (k: nat)
    ensures k <= |env|
    ensures forall i :: 0 <= i < k ==> env[i].name != x
    ensures k < |env| ==>
      (env[k].name == x && x in ScopeOf(env) && ScopeOf(env)[x] == Binding(env[k].value, env[k].isConst))
    ensures k == |env| ==> x !in ScopeOf(env)
  {
    k := 0;
    while k < |env| && env[k].name != x
      invariant k <= |env|
      invariant forall i :: 0 <= i < k ==> env[i].name != x
    {
      k := k + 1;
    }
    ScopeOfAbsent(env, x);
    if k < |env| { ScopeOfFirst(env, k, Null, false); }
  }

  lemma LookupSkips(scopes: seq<Scope>, i: nat, x: string)
    requires i < |scopes| && x !in scopes[i]
    ensures Lookup(scopes[i..], x) == Lookup(scopes[i + 1..], x)
  {
    assert scopes[i..][1..] == scopes[i + 1..];
  }

  class Runtime {
    var envs: seq<Environment>   // current_env first, global_env last
    var cmds: Registry
    var out: string
    ghost var clean: bool        // no step so far left what both engines agree on
    const h: Host

    ghost function Now(): State
      reads this
    {
      State(ScopesOf(envs), cmds, out, clean)
    }

    constructor (h: Host, cmds: Registry)
      ensures this.h == h
      ensures Now() == State([map[]], cmds, "", true)
    {
      this.h := h;
      this.cmds := cmds;
      envs := [[]];
      out := "";
      clean := true;
    }

    /** bs_env_define in the current environment. */
    method Define(x: string, v: Value, isConst: bool)
      modifies this
      ensures Now() == old(Now()).(scopes := BsScopes.Define(old(Now().scopes), x, v, isConst))
    {
      if envs == [] { return; }
      ghost var before := Now().scopes;
      var k := Find(envs[0], x);
      if k < |envs[0]| {
        ScopeOfFirst(envs[0], k, v, isConst);
        envs := envs[0 := envs[0][k := Entry(x, v, isConst)]];
      } else {
        envs := envs[0 := [Entry(x, v, isConst)] + envs[0]];
        assert envs[0][1..] == old(envs[0]);
      }
      assert Now().scopes == BsScopes.Define(before, x, v, isConst);
    }

    /** bs_env_get from the current environment outwards. */
    method Get(x: string) returns (r: Option<Value>)
      ensures var b := Lookup(Now().scopes, x); r == if b.Some? then Some(b.value.value) else None
    {
      var i := 0;
      ghost var scopes := Now().scopes;
      assert scopes[0..] == scopes;
      while i < |envs|
        invariant i <= |envs|
        invariant Lookup(scopes[i..], x) == Lookup(scopes, x)
      {
        var k := Find(envs[i], x);
        if k < |envs[i]| { return Some(envs[i][k].value); }
        LookupSkips(scopes, i, x);
        i := i + 1;
      }
      r := None;
    }

    /** bs_env_assign: the innermost binding decides, and a constant refuses. */
    method AssignVar(x: string, v: Value) returns (ok: bool)
      modifies this
      ensures var a := AssignTo(old(Now().scopes), x, v);
        ok == a.Some? && Now() == if ok then old(Now()).(scopes := a.value) else old(Now())
    {
      var i := 0;
      ghost var scopes := Now().scopes;
      ok := false;
      while i < |envs|
        invariant i <= |envs| && envs == old(envs) && cmds == old(cmds) && out == old(out) && clean == old(clean)
        invariant forall j :: 0 <= j < i ==> x !in scopes[j]
      {
        var k := Find(envs[i], x);
        if k < |envs[i]| {
          AssignReaches(scopes, i, x, v);
          if envs[i][k].isConst { return; }
          ScopeOfFirst(envs[i], k, v, false);
          envs := envs[i := envs[i][k := Entry(x, v, false)]];
          assert Now().scopes == scopes[i := scopes[i][x := Binding(v, false)]];
          return true;
        }
        i := i + 1;
      }
      AssignMisses(scopes, x, v);
    }

    method PushEnv()
      modifies this
      ensures Now() == old(Now()).Push()
    {
      envs := [[]] + envs;
      assert Now().scopes == PushScope(old(Now().scopes));
    }

    /** The global environment is never popped. */
    method PopEnv()
      modifies this
      ensures Now() == old(Now()).Pop()
    {
      if |envs| > 1 {
        envs := envs[1..];
        assert Now().scopes == PopScope(old(Now().scopes));
      }
    }
  }

  lemma {:induction false} AssignReaches(scopes: seq<Scope>, i: nat, x: string, v: Value)
    requires i < |scopes| && x in scopes[i]
    requires forall j :: 0 <= j < i ==> x !in scopes[j]
    ensures AssignTo(scopes, x, v) ==
      if scopes[i][x].isConst then None else Some(scopes[i := scopes[i][x := Binding(v, false)]])
  {
    if i > 0 {
      AssignReaches(scopes[1..], i - 1, x, v);
      assert [scopes[0]] + scopes[1..][i - 1 := scopes[i][x := Binding(v, false)]]
          == scopes[i := scopes[i][x := Binding(v, false)]];
    }
  }

  lemma {:induction false} AssignMisses(scopes: seq<Scope>, x: string, v: Value)
    requires forall j :: 0 <= j < |scopes| ==> x !in scopes[j]
    ensures AssignTo(scopes, x, v) == None
  {
    if scopes != [] {
      assert x !in scopes[0];
      AssignMisses(scopes[1..], x, v);
    }
  }
}
