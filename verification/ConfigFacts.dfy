/** What follows for configuration files. */
module ConfigFacts {
  import opened Bytes
  import opened LexSpec
  import opened ConfigSpec
  import C = Commands

  // ---- With and without a preview list ----

  lemma {:induction false} OptionsOnlyNeverFails(cmds: seq<C.Command>, env: C.Env)
    requires env.previews.None?
    ensures C.ExecAll(cmds, env).ok
  {
    if cmds != [] {
      OptionsOnlyNeverFails(cmds[1..], C.Exec(cmds[0], env).value);
    }
  }

  /** Without a preview list at least as much is read, and just as much if a load with one succeeds. */
  lemma {:induction false} SameTokensRead(s: Text, c: Cursor, env: C.Env)
    ensures var bare := env.(previews := None);
            && Before(LoadStops(s, c, env), LoadStops(s, c, bare))
            && (LoadFrom(s, c, env).ok ==> LoadStops(s, c, bare) == LoadStops(s, c, env))
    decreases Rem(s, c)
  {
    hide ParseCommand, ParseEnd, LoadFrom, LoadStops;
    var bare := env.(previews := None);
    LoadStep(s, c, env);
    StopsStep(s, c, env);
    StopsStep(s, c, bare);
    if c.tok.kind != Eof && ParseCommand(s, c).Done? {
      var Done(cmd, c1) := ParseCommand(s, c);
      var next := C.Exec(cmd, env);
      if next.Some? && ParseEnd(s, c1).Done? {
        assert C.Exec(cmd, bare) == Some(next.value.(previews := None));
        SameTokensRead(s, ParseEnd(s, c1).cur, next.value);
      }
    }
  }

  /**
   A file that loads with a preview list loads without one, to the same options, and
   the same tokens are read by both runs, up to the same place; without a list it loads
   exactly if it is well formed.
   */
  lemma TwoRuns(s: Text, env: C.Env)
    ensures var bare := env.(previews := None);
            && (Load(s, bare).ok <==> ParseFile(s).ok)
            && (Load(s, env).ok ==> Load(s, bare) == C.Outcome(Load(s, env).env.(previews := None), true))
            && (Load(s, env).ok ==> LoadStops(s, FirstCommand(s), bare) == LoadStops(s, FirstCommand(s), env))
  {
    OptionsOnlyNeverFails(ParseFile(s).cmds, env.(previews := None));
    SameTokensRead(s, FirstCommand(s), env);
    if Load(s, env).ok {
      C.OptionsOnlyAgrees(ParseFile(s).cmds, env);
    }
  }

  // ---- Failing ----

  /** A failing file has done what its first commands do, and stopped at the one that names no preview. */
  lemma {:induction false} FailureKeepsPrefix(cmds: seq<C.Command>, env: C.Env) returns (k: nat)
    ensures k <= |cmds|
    ensures C.ExecAll(cmds[..k], env) == C.Outcome(C.ExecAll(cmds, env).env, true)
    ensures C.ExecAll(cmds, env).ok <==> k == |cmds|
    ensures k < |cmds| ==> C.Exec(cmds[k], C.ExecAll(cmds, env).env) == None
  {
    if cmds == [] || C.Exec(cmds[0], env) == None {
      k := 0;
    } else {
      var j := FailureKeepsPrefix(cmds[1..], C.Exec(cmds[0], env).value);
      k := j + 1;
      assert cmds[..k][1..] == cmds[1..][..j];
    }
  }

  // ---- Removal ----

  /** Command `k` removes `name`, and no later one adds it again. */
  predicate LastWord(cmds: seq<C.Command>, k: nat, name: Text)
  {
    k < |cmds| && cmds[k] == C.Remove(name)
    && forall j :: k < j < |cmds| && cmds[j].Add? ==> cmds[j].name != name
  }

  ghost predicate RemovedForGood(cmds: seq<C.Command>, name: Text)
  {
    exists k :: LastWord(cmds, k, name)
  }

  lemma RemovedIsGone(s: Text, env: C.Env, name: Text)
    requires Load(s, env).ok && env.previews.Some? && RemovedForGood(ParseFile(s).cmds, name)
    ensures Load(s, env).env.previews.Some?
    ensures !C.Named(Load(s, env).env.previews.value, name)
  {
    hide C.ExecAll, C.Named, ParseCommands;
    var cmds := ParseFile(s).cmds;
    var k: nat :| LastWord(cmds, k, name);
    assert cmds == cmds[..k] + [C.Remove(name)] + cmds[k + 1..];
    C.RemovalIsFinal(cmds[..k], name, cmds[k + 1..], env);
  }
}
