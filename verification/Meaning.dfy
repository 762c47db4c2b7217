/** What commands do, said of lists and options alone, and what is left of it after a whole file. */
module Meaning {
  import opened Bytes
  import opened Previews
  import opened Commands

  // ---- One command ----

  /** Setting an option sets it, and no other, and never fails. */
  lemma SetMeaning(option: Text, value: OptVal, env: Env)
    ensures var r := Exec(Set(option, value), env);
            && r.Some? && r.value.previews == env.previews
            && r.value.opts.Keys == env.opts.Keys + {option} && r.value.opts[option] == value
            && forall name :: name in env.opts && name != option ==> r.value.opts[name] == env.opts[name]
  {
  }

  /** No other command touches options. */
  lemma OptionsUntouched(cmd: Command, env: Env)
    requires !cmd.Set? && Exec(cmd, env).Some?
    ensures Exec(cmd, env).value.opts == env.opts
  {
  }

  /** Without a list of previews there is nothing to do and nothing to miss. */
  lemma NoListMeaning(cmd: Command, env: Env)
    requires env.previews.None?
    ensures Exec(cmd, env).Some? && Exec(cmd, env).value.previews.None?
  {
  }

  /** One preview for each type comes after those there are, never failing. */
  lemma AddMeaning(name: Text, types: seq<TypeSet>, script: Text, env: Env)
    requires env.previews.Some?
    ensures var r := Exec(Add(name, types, script), env);
            && r.Some? && r.value.previews.Some?
            && var old_, new_ := env.previews.value, r.value.previews.value;
               && |new_| == |old_| + |types| && new_[..|old_|] == old_
               && forall i :: 0 <= i < |types| ==>
                    new_[|old_| + i] ==
                    Preview(name, types[i].ext, if types[i].typ == Some("*") then None else types[i].typ,
                            if types[i].subtype == Some("*") then None else types[i].subtype, script, 1, 0, false)
  {
  }

  ghost predicate SomeNamed(ps: seq<Preview>, name: Text)
  {
    exists p :: p in ps && p.name == name
  }

  /** Every preview of the name gets the priority, each at its place; it fails exactly if there is none. */
  lemma PriorityMeaning(name: Text, priority: int, env: Env)
    requires env.previews.Some?
    ensures var old_ := env.previews.value;
            var r := Exec(Priority(name, priority), env);
            && (r.Some? <==> SomeNamed(old_, name))
            && (r.Some? ==>
                  && r.value.previews.Some? && |r.value.previews.value| == |old_|
                  && forall i :: 0 <= i < |old_| ==>
                       r.value.previews.value[i] ==
                       if old_[i].name == name then old_[i].(priority := priority) else old_[i])
  {
    NamedMeaning(env.previews.value, name);
  }

  /** The previews of the name are gone, the others as often there as before; it fails exactly if there is none. */
  lemma RemoveMeaning(name: Text, env: Env)
    requires env.previews.Some?
    ensures var old_ := env.previews.value;
            var r := Exec(Remove(name), env);
            && (r.Some? <==> SomeNamed(old_, name))
            && (r.Some? ==>
                  && r.value.previews.Some?
                  && forall p :: multiset(r.value.previews.value)[p] == if p.name == name then 0 else multiset(old_)[p])
  {
    NamedMeaning(env.previews.value, name);
    forall p ensures multiset(Without(env.previews.value, name))[p] ==
                     if p.name == name then 0 else multiset(env.previews.value)[p]
    {
      WithoutCounts(env.previews.value, name, p);
    }
  }

  lemma NamedMeaning(ps: seq<Preview>, name: Text)
    ensures Named(ps, name) <==> SomeNamed(ps, name)
  {
    if Named(ps, name) {
      var i :| 0 <= i < |ps| && ps[i].name == name;
      assert ps[i] in ps;
    }
  }

  // ---- Options after a whole file ----

  /** Command `k` sets the option, and no later one does. */
  predicate LastSet(cmds: seq<Command>, k: nat, name: Text, value: OptVal)
  {
    k < |cmds| && cmds[k] == Set(name, value)
    && forall j :: k < j < |cmds| && cmds[j].Set? ==> cmds[j].option != name
  }

  predicate NeverSet(cmds: seq<Command>, name: Text)
  {
    forall j :: 0 <= j < |cmds| && cmds[j].Set? ==> cmds[j].option != name
  }

  /** An option that no command sets is as it was. */
  lemma {:induction false} NeverSetKeeps(cmds: seq<Command>, env: Env, name: Text)
    requires NeverSet(cmds, name)
    ensures var opts := ExecAll(cmds, env).env.opts;
            (name in opts <==> name in env.opts) && (name in opts ==> opts[name] == env.opts[name])
  {
    if cmds != [] && Exec(cmds[0], env).Some? {
      assert NeverSet(cmds[1..], name);
      NeverSetKeeps(cmds[1..], Exec(cmds[0], env).value, name);
    }
  }

  /** After commands that succeed, an option has the value set last. */
  lemma {:induction false} LastSetHolds(cmds: seq<Command>, env: Env, k: nat, name: Text, value: OptVal)
    requires LastSet(cmds, k, name, value) && ExecAll(cmds, env).ok
    ensures var opts := ExecAll(cmds, env).env.opts; name in opts && opts[name] == value
    decreases k
  {
    var env' := Exec(cmds[0], env).value;
    if k == 0 {
      assert NeverSet(cmds[1..], name);
      NeverSetKeeps(cmds[1..], env', name);
    } else {
      LastSetHolds(cmds[1..], env', k - 1, name, value);
    }
  }

  /** What a list of commands makes of options: the value set last, or the one from before. */
  ghost predicate OptionsSet(cmds: seq<Command>, before: Options, after: Options)
  {
    && (forall k: nat, name, value :: LastSet(cmds, k, name, value) ==> name in after && after[name] == value)
    && (forall name :: NeverSet(cmds, name) ==>
          (name in after <==> name in before) && (name in after ==> after[name] == before[name]))
  }

  lemma OptionsAreSet(cmds: seq<Command>, env: Env)
    requires ExecAll(cmds, env).ok
    ensures OptionsSet(cmds, env.opts, ExecAll(cmds, env).env.opts)
  {
    hide ExecAll, LastSet, NeverSet;
    var after := ExecAll(cmds, env).env.opts;
    forall k: nat, name, value | LastSet(cmds, k, name, value) ensures name in after && after[name] == value {
      LastSetHolds(cmds, env, k, name, value);
    }
    forall name | NeverSet(cmds, name)
      ensures (name in after <==> name in env.opts) && (name in after ==> after[name] == env.opts[name])
    {
      NeverSetKeeps(cmds, env, name);
    }
  }

  // ---- Priorities after a whole file ----

  /** After command `j` there is no other of the name that sets a priority or defines a preview. */
  predicate QuietAfter(cmds: seq<Command>, k: int, name: Text)
  {
    forall j :: 0 <= j < |cmds| && k < j ==>
      (cmds[j].Priority? ==> cmds[j].name != name) && (cmds[j].Add? ==> cmds[j].name != name)
  }

  predicate LastPriority(cmds: seq<Command>, k: nat, name: Text, priority: int)
  {
    k < |cmds| && cmds[k] == Priority(name, priority) && QuietAfter(cmds, k, name)
  }

  ghost predicate AllOf(ps: seq<Preview>, name: Text, priority: int)
  {
    forall p :: p in ps && p.name == name ==> p.priority == priority
  }

  /** A command that neither defines a preview of the name nor sets its priority leaves the priorities. */
  lemma QuietKeeps(cmd: Command, env: Env, name: Text, priority: int)
    requires env.previews.Some? && AllOf(env.previews.value, name, priority) && Exec(cmd, env).Some?
    requires (cmd.Priority? ==> cmd.name != name) && (cmd.Add? ==> cmd.name != name)
    ensures Exec(cmd, env).value.previews.Some? && AllOf(Exec(cmd, env).value.previews.value, name, priority)
  {
    if cmd.Remove? {
      RemoveMeaning(cmd.name, env);
      forall p | p in Exec(cmd, env).value.previews.value && p.name == name ensures p.priority == priority {
        assert p in multiset(Exec(cmd, env).value.previews.value) && p in multiset(env.previews.value);
      }
    }
  }

  lemma {:induction false} QuietAllKeep(cmds: seq<Command>, env: Env, name: Text, priority: int)
    requires env.previews.Some? && AllOf(env.previews.value, name, priority) && QuietAfter(cmds, -1, name)
    ensures ExecAll(cmds, env).env.previews.Some?
    ensures AllOf(ExecAll(cmds, env).env.previews.value, name, priority)
  {
    hide AllOf;
    if cmds != [] && Exec(cmds[0], env).Some? {
      QuietKeeps(cmds[0], env, name, priority);
      assert QuietAfter(cmds[1..], -1, name);
      QuietAllKeep(cmds[1..], Exec(cmds[0], env).value, name, priority);
    }
  }

  /** After commands that succeed, the previews of a name have the priority given last, if none was defined since. */
  lemma {:induction false} LastPriorityHolds(cmds: seq<Command>, env: Env, k: nat, name: Text, priority: int)
    requires env.previews.Some? && LastPriority(cmds, k, name, priority) && ExecAll(cmds, env).ok
    ensures ExecAll(cmds, env).env.previews.Some?
    ensures AllOf(ExecAll(cmds, env).env.previews.value, name, priority)
    decreases k
  {
    KeepsPreviews([cmds[0]], env);
    assert [cmds[0]][1..] == [];
    var env' := Exec(cmds[0], env).value;
    if k == 0 {
      assert QuietAfter(cmds[1..], -1, name);
      QuietAllKeep(cmds[1..], env', name, priority);
    } else {
      assert LastPriority(cmds[1..], k - 1, name, priority);
      LastPriorityHolds(cmds[1..], env', k - 1, name, priority);
    }
  }

  /** What a list of commands makes of priorities. */
  ghost predicate PrioritiesSet(cmds: seq<Command>, ps: seq<Preview>)
  {
    forall k: nat, name, priority :: LastPriority(cmds, k, name, priority) ==> AllOf(ps, name, priority)
  }

  lemma PrioritiesAreSet(cmds: seq<Command>, env: Env, ps: seq<Preview>)
    requires env.previews.Some? && ExecAll(cmds, env).ok
    requires ExecAll(cmds, env).env.previews.Some? ==>
               multiset(ps) == multiset(ExecAll(cmds, env).env.previews.value)
    ensures PrioritiesSet(cmds, ps)
  {
    hide ExecAll, LastPriority;
    forall k: nat, name, priority | LastPriority(cmds, k, name, priority) ensures AllOf(ps, name, priority) {
      LastPriorityHolds(cmds, env, k, name, priority);
      var end := ExecAll(cmds, env).env.previews.value;
      forall p | p in ps && p.name == name ensures p.priority == priority {
        assert p in multiset(ps) && p in multiset(end) && p in end;
      }
    }
  }

  // ---- Definitions after a whole file ----

  /** Command `k` defines previews, and no later one removes them. */
  predicate Defines(cmds: seq<Command>, k: nat, name: Text, types: seq<TypeSet>, script: Text)
  {
    k < |cmds| && cmds[k] == Add(name, types, script) && StaysAfter(cmds, k, name)
  }

  predicate StaysAfter(cmds: seq<Command>, k: int, name: Text)
  {
    forall j :: 0 <= j < |cmds| && k < j && cmds[j].Remove? ==> cmds[j].name != name
  }

  lemma StaysOnce(cmd: Command, env: Env, q: Preview)
    requires env.previews.Some? && KnownTo(q, env.previews.value) && Exec(cmd, env).Some?
    requires cmd.Remove? ==> cmd.name != q.name
    ensures Exec(cmd, env).value.previews.Some? && KnownTo(q, Exec(cmd, env).value.previews.value)
  {
    var old_, new_ := env.previews.value, Exec(cmd, env).value.previews.value;
    var p :| p in old_ && SamePreview(q, p);
    match cmd
    case Set(_, _) =>
    case Add(_, _, _) => assert p in new_;
    case Priority(name, priority) =>
      var i :| 0 <= i < |old_| && old_[i] == p;
      assert new_[i] in new_ && SamePreview(q, new_[i]);
    case Remove(name) =>
      RemoveMeaning(name, env);
      assert p in multiset(old_) && p in multiset(new_) && p in new_;
  }

  lemma {:induction false} Stays(cmds: seq<Command>, env: Env, q: Preview)
    requires env.previews.Some? && KnownTo(q, env.previews.value)
    requires StaysAfter(cmds, -1, q.name) && ExecAll(cmds, env).ok
    ensures ExecAll(cmds, env).env.previews.Some?
    ensures KnownTo(q, ExecAll(cmds, env).env.previews.value)
  {
    hide KnownTo, Exec;
    if cmds != [] {
      StaysOnce(cmds[0], env, q);
      assert StaysAfter(cmds[1..], -1, q.name);
      Stays(cmds[1..], Exec(cmds[0], env).value, q);
    }
  }

  /** The preview of that type, but for its priority. */
  ghost predicate HasCustom(ps: seq<Preview>, name: Text, t: TypeSet, script: Text)
  {
    exists p :: p in ps &&
      p == Preview(name, t.ext, if t.typ == Some("*") then None else t.typ,
                   if t.subtype == Some("*") then None else t.subtype, script, 1, p.priority, false)
  }

  /** After commands that succeed, every type of a definition that was not removed has its preview. */
  lemma {:induction false} DefinedIsThere(cmds: seq<Command>, env: Env, k: nat, name: Text, types: seq<TypeSet>,
                                          script: Text, i: nat)
    requires env.previews.Some? && Defines(cmds, k, name, types, script) && ExecAll(cmds, env).ok && i < |types|
    ensures ExecAll(cmds, env).env.previews.Some?
    ensures HasCustom(ExecAll(cmds, env).env.previews.value, name, types[i], script)
    decreases k
  {
    KeepsPreviews([cmds[0]], env);
    assert [cmds[0]][1..] == [];
    var env' := Exec(cmds[0], env).value;
    if k == 0 {
      AddMeaning(name, types, script, env);
      var q := env'.previews.value[|env.previews.value| + i];
      KnownToItself(q, env'.previews.value);
      assert StaysAfter(cmds[1..], -1, name);
      Stays(cmds[1..], env', q);
      var p :| p in ExecAll(cmds, env).env.previews.value && SamePreview(q, p);
    } else {
      assert Defines(cmds[1..], k - 1, name, types, script);
      DefinedIsThere(cmds[1..], env', k - 1, name, types, script, i);
    }
  }

  /** Every type of every definition that is not removed later has its preview in `ps`. */
  ghost predicate AllDefined(cmds: seq<Command>, ps: seq<Preview>)
  {
    forall k: nat, name: Text, types: seq<TypeSet>, script: Text, i ::
      Defines(cmds, k, name, types, script) && 0 <= i < |types| ==> HasCustom(ps, name, types[i], script)
  }

  lemma AllAreDefined(cmds: seq<Command>, env: Env, ps: seq<Preview>)
    requires env.previews.Some? && ExecAll(cmds, env).ok
    requires ExecAll(cmds, env).env.previews.Some? ==>
               multiset(ps) == multiset(ExecAll(cmds, env).env.previews.value)
    ensures AllDefined(cmds, ps)
  {
    hide ExecAll, Defines;
    forall k: nat, name: Text, types: seq<TypeSet>, script: Text, i |
        Defines(cmds, k, name, types, script) && 0 <= i < |types|
      ensures HasCustom(ps, name, types[i], script)
    {
      DefinedIsThere(cmds, env, k, name, types, script, i);
      var end := ExecAll(cmds, env).env.previews.value;
      HasCustomMoves(end, ps, name, types[i], script);
    }
  }

  lemma HasCustomMoves(a: seq<Preview>, b: seq<Preview>, name: Text, t: TypeSet, script: Text)
    requires multiset(a) == multiset(b) && HasCustom(a, name, t, script)
    ensures HasCustom(b, name, t, script)
  {
    var p :| p in a &&
      p == Preview(name, t.ext, if t.typ == Some("*") then None else t.typ,
                   if t.subtype == Some("*") then None else t.subtype, script, 1, p.priority, false);
    assert p in multiset(a) && p in multiset(b) && p in b;
  }

  /** What commands that succeed make of the options, and of a list of previews that is then `ps`. */
  ghost predicate CarriedOut(cmds: seq<Command>, before: Options, after: Options, ps: Option<seq<Preview>>)
  {
    && OptionsSet(cmds, before, after)
    && (ps.Some? ==> PrioritiesSet(cmds, ps.value) && AllDefined(cmds, ps.value))
  }

  lemma AllIsDone(cmds: seq<Command>, env: Env, ps: Option<seq<Preview>>)
    requires ExecAll(cmds, env).ok && (ps.Some? ==> env.previews.Some?)
    requires ps.Some? && ExecAll(cmds, env).env.previews.Some? ==>
               multiset(ps.value) == multiset(ExecAll(cmds, env).env.previews.value)
    ensures CarriedOut(cmds, env.opts, ExecAll(cmds, env).env.opts, ps)
  {
    hide ExecAll, OptionsSet, PrioritiesSet, AllDefined;
    OptionsAreSet(cmds, env);
    if ps.Some? {
      PrioritiesAreSet(cmds, env, ps.value);
      AllAreDefined(cmds, env, ps.value);
    }
  }
}
