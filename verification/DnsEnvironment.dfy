// DNS credentials in the process environment, for the time a provider is built.
module DnsEnvironment {
  import opened Wrappers

  type Vars = map<string, string>

  const NUL: char := 0 as char

  predicate ValidName(name: string) { name != "" && '=' !in name && NUL !in name }

  predicate ValidValue(value: string) { NUL !in value }

  predicate ValidVars(vars: Vars) {
    forall name :: name in vars ==> ValidName(name) && ValidValue(vars[name])
  }

  // os.LookupEnv, os.Setenv and os.Unsetenv.
  class Environment {
    var vars: Vars

    constructor ()
      ensures vars == map[]
    {
      vars := map[];
    }

    function LookupEnv(name: string): Option<string>
      reads this
    {
      if name in vars then Some(vars[name]) else None
    }

    method Setenv(name: string, value: string) returns (ok: bool)
      modifies this
      ensures ok == (ValidName(name) && ValidValue(value))
      ensures vars == if ok then old(vars)[name := value] else old(vars)
    {
      ok := ValidName(name) && ValidValue(value);
      if ok {
        vars := vars[name := value];
      }
    }

    method Unsetenv(name: string)
      modifies this
      ensures vars == old(vars) - {name}
    {
      vars := vars - {name};
    }
  }

  // ---------- Specification ----------

  // The names of env as vars had them, the rest as it is.
  function Reverted(vars: Vars, previous: map<string, Option<string>>): Vars {
    map name |
      name in vars.Keys + previous.Keys && (name in previous ==> previous[name].Some?) ::
      if name in previous then previous[name].value else vars[name]
  }

  function Snapshot(vars: Vars, names: set<string>): map<string, Option<string>> {
    map name | name in names :: if name in vars then Some(vars[name]) else None
  }

  // Going back undoes any changes to the names of the snapshot.
  lemma RevertedIsBefore(before: Vars, now: Vars, names: set<string>)
    requires now - names == before - names
    ensures Reverted(now, Snapshot(before, names)) == before
  {
    forall name
      ensures name in Reverted(now, Snapshot(before, names)) <==> name in before
      ensures name in before ==> Reverted(now, Snapshot(before, names))[name] == before[name]
    {
      assert name in now - names <==> name in before - names;
      assert name in now - names ==> (now - names)[name] == (before - names)[name];
    }
  }

  // ---------- Implementation ----------

  predicate Restorable(previous: map<string, Option<string>>) {
    forall name :: name in previous && previous[name].Some? ==> ValidName(name) && ValidValue(previous[name].value)
  }

  // Undoes the changes to the names of a snapshot, in any order.
  method Restore(os: Environment, previous: map<string, Option<string>>)
    requires Restorable(previous)
    modifies os
    ensures os.vars == Reverted(old(os.vars), previous)
  {
    ghost var before := os.vars;
    var names := previous.Keys;
    while names != {}
      invariant names <= previous.Keys
      invariant os.vars == Reverted(before, previous - names)
    {
      var name :| name in names;
      RevertOneMore(before, previous, names, name);
      hide Reverted, ValidName, ValidValue;
      names := names - {name};
      if previous[name].Some? {
        var _ := os.Setenv(name, previous[name].value);
      } else {
        os.Unsetenv(name);
      }
    }
    assert previous - {} == previous;
  }

  lemma RevertOneMore(before: Vars, previous: map<string, Option<string>>, names: set<string>, name: string)
    requires name in names && names <= previous.Keys
    ensures var r := Reverted(before, previous - names);
            Reverted(before, previous - (names - {name})) ==
              if previous[name].Some? then r[name := previous[name].value] else r - {name}
  {
  }

  // Sets the parsed variables, in any order. On an error everything set so far is
  // undone; otherwise the snapshot is what the returned function restores.
  method ApplyDnsEnvironment(os: Environment, env: Vars) returns (previous: Option<map<string, Option<string>>>)
    requires ValidVars(os.vars)
    modifies os
    ensures previous.Some? <==> ValidVars(env)
    ensures previous == None ==> os.vars == old(os.vars)
    ensures previous.Some? ==> os.vars == old(os.vars) + env && previous.value == Snapshot(old(os.vars), env.Keys)
  {
    ghost var before := os.vars;
    var saved: map<string, Option<string>> := map[];
    var names := env.Keys;
    assert Snapshot(before, {}) == map[] && before + map[] == before;
    while names != {}
      invariant names <= env.Keys
      invariant saved == Snapshot(before, env.Keys - names)
      invariant os.vars == before + (env - names)
      invariant ValidVars(env - names)
    {
      var name :| name in names;
      SaveOneMore(before, env, names, name);
      SetOneMore(before, env, names, name);
      ValidEntry(env, name);
      hide Snapshot, ValidVars, ValidName, ValidValue;
      names := names - {name};
      saved := saved[name := os.LookupEnv(name)];
      var ok := os.Setenv(name, env[name]);
      if !ok {
        UndoneIsBefore(before, env, names, name);
        Restore(os, saved);
        return None;
      }
    }
    assert env - {} == env;
    return Some(saved);
  }

  lemma ValidEntry(env: Vars, name: string)
    requires name in env
    ensures ValidVars(env) ==> ValidName(name) && ValidValue(env[name])
  {
  }

  lemma SetOneMore(before: Vars, env: Vars, names: set<string>, name: string)
    requires name in names && names <= env.Keys
    ensures var now, rest := before + (env - names), names - {name};
            && now[name := env[name]] == before + (env - rest)
            && now == before + (env - rest - {name})
            && (ValidVars(env - names) ==>
                  (ValidVars(env - rest) <==> ValidName(name) && ValidValue(env[name])))
  {
    hide ValidName, ValidValue;
    var now, rest := before + (env - names), names - {name};
    assert env - rest == (env - names)[name := env[name]];
    assert env - rest - {name} == env - names;
    assert now[name := env[name]] == before + (env - rest);
  }

  lemma SaveOneMore(before: Vars, env: Vars, names: set<string>, name: string)
    requires name in names && names <= env.Keys
    ensures var now, rest := before + (env - names), names - {name};
            && (name in now <==> name in before) && (name in now ==> now[name] == before[name])
            && Snapshot(before, env.Keys - rest)
                 == Snapshot(before, env.Keys - names)[name := if name in before then Some(before[name]) else None]
  {
  }

  // A variable that could not be set is in the snapshot but unchanged.
  lemma UndoneIsBefore(before: Vars, env: Vars, rest: set<string>, name: string)
    requires ValidVars(before) && name in env.Keys - rest
    ensures Reverted(before + (env - rest - {name}), Snapshot(before, env.Keys - rest)) == before
    ensures Restorable(Snapshot(before, env.Keys - rest))
  {
  }

  // Building a provider with its credentials: success or failure is a parameter,
  // and the environment is as before in either case.
  method WithProvider(os: Environment, env: Vars, built: bool) returns (ok: bool)
    requires ValidVars(os.vars)
    modifies os
    ensures os.vars == old(os.vars)
    ensures ok <==> built && ValidVars(env)
  {
    ghost var before := os.vars;
    var previous := ApplyDnsEnvironment(os, env);
    if previous == None {
      return false;
    }
    RevertedIsBefore(before, os.vars, env.Keys);
    Restore(os, previous.value);
    ok := built;
  }

  // A name is valid when it is not empty and has neither '=' nor NUL, a value when it
  // has no NUL.
  lemma ValidIff(name: string, value: string)
    ensures ValidName(name) <==> |name| > 0 && forall i :: 0 <= i < |name| ==> name[i] != '=' && name[i] as int != 0
    ensures ValidValue(value) <==> forall i :: 0 <= i < |value| ==> value[i] as int != 0
  {
  }
}
