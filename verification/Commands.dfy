/** What a configuration file says, and what saying it does to previews and options. */
module Commands {
  import opened Bytes
  import opened Previews

  datatype TypeSet = TypeSet(typ: Option<Text>, subtype: Option<Text>, ext: Option<Text>)

  datatype OptVal = Num(i: int) | Str(s: Text)

  datatype Command =
    | Set(option: Text, value: OptVal)
    | Add(name: Text, types: seq<TypeSet>, script: Text)
    | Priority(name: Text, priority: int)
    | Remove(name: Text)

  type Options = map<Text, OptVal>

  /** `previews` is missing when a file is read for its options only. */
  datatype Env = Env(previews: Option<seq<Preview>>, opts: Options)

  const ANY_TYPE: Text := "*"

  function AnyTypeNull(t: Option<Text>): Option<Text>
  {
    if t == Some(ANY_TYPE) then None else t
  }

  /** A custom preview: order 1, no priority yet, "*" standing for any type. */
  function Custom(name: Text, set_: TypeSet, script: Text): Preview
  {
    Preview(name, set_.ext, AnyTypeNull(set_.typ), AnyTypeNull(set_.subtype), script, 1, 0, false)
  }

  function Customs(name: Text, types: seq<TypeSet>, script: Text): (ps: seq<Preview>)
  {
    seq(|types|, i requires 0 <= i < |types| => Custom(name, types[i], script))
  }

  predicate Named(ps: seq<Preview>, name: Text)
  {
    exists i :: 0 <= i < |ps| && ps[i].name == name
  }

  function Prioritized(p: Preview, name: Text, priority: int): Preview
  {
    if p.name == name then p.(priority := priority) else p
  }

  function WithPriority(ps: seq<Preview>, name: Text, priority: int): seq<Preview>
  {
    seq(|ps|, i requires 0 <= i < |ps| => Prioritized(ps[i], name, priority))
  }

  function Without(ps: seq<Preview>, name: Text): seq<Preview>
  {
    if ps == [] then []
    else (if ps[0].name == name then [] else [ps[0]]) + Without(ps[1..], name)
  }

  /** One command; None if it names a preview that does not exist. */
  function Exec(cmd: Command, env: Env): Option<Env>
  {
    match cmd
    case Set(option, value) => Some(env.(opts := env.opts[option := value]))
    case Add(name, types, script) =>
      if env.previews.None? then Some(env)
      else Some(env.(previews := Some(env.previews.value + Customs(name, types, script))))
    case Priority(name, priority) =>
      if env.previews.None? then Some(env)
      else if !Named(env.previews.value, name) then None
      else Some(env.(previews := Some(WithPriority(env.previews.value, name, priority))))
    case Remove(name) =>
      if env.previews.None? then Some(env)
      else if !Named(env.previews.value, name) then None
      else Some(env.(previews := Some(Without(env.previews.value, name))))
  }

  datatype Outcome = Outcome(env: Env, ok: bool)

  /** Commands one after the other, up to the first that fails. */
  function ExecAll(cmds: seq<Command>, env: Env): Outcome
  {
    if cmds == [] then Outcome(env, true)
    else
      match Exec(cmds[0], env)
      case None => Outcome(env, false)
      case Some(env') => ExecAll(cmds[1..], env')
  }

  // ---- The order of previews does not matter to the commands ----

  lemma {:induction false} WithoutCounts(ps: seq<Preview>, name: Text, p: Preview)
    ensures multiset(Without(ps, name))[p] == if p.name == name then 0 else multiset(ps)[p]
  {
    if ps != [] {
      WithoutCounts(ps[1..], name, p);
      assert multiset(ps) == multiset{ps[0]} + multiset(ps[1..]) by {
        assert ps == [ps[0]] + ps[1..];
      }
      assert Without(ps, name) == (if ps[0].name == name then [] else [ps[0]]) + Without(ps[1..], name);
    }
  }

  /** What is removed is gone, and nothing else is. */
  lemma WithoutMeaning(ps: seq<Preview>, name: Text)
    ensures !Named(Without(ps, name), name)
    ensures forall p :: p in ps && p.name != name ==> multiset(Without(ps, name))[p] == multiset(ps)[p]
  {
    var w := Without(ps, name);
    forall i | 0 <= i < |w| ensures w[i].name != name {
      WithoutCounts(ps, name, w[i]);
      assert w[i] in multiset(w);
    }
    forall p | p in ps && p.name != name ensures multiset(w)[p] == multiset(ps)[p] {
      WithoutCounts(ps, name, p);
    }
  }

  lemma WithoutPermutes(a: seq<Preview>, b: seq<Preview>, name: Text)
    requires multiset(a) == multiset(b)
    ensures multiset(Without(a, name)) == multiset(Without(b, name))
  {
    forall p ensures multiset(Without(a, name))[p] == multiset(Without(b, name))[p] {
      WithoutCounts(a, name, p);
      WithoutCounts(b, name, p);
    }
  }

  lemma NamedPermutes(a: seq<Preview>, b: seq<Preview>, name: Text)
    requires multiset(a) == multiset(b)
    ensures Named(a, name) <==> Named(b, name)
  {
    if Named(a, name) { NamedMoves(a, b, name); }
    if Named(b, name) { NamedMoves(b, a, name); }
  }

  lemma NamedMoves(a: seq<Preview>, b: seq<Preview>, name: Text)
    requires multiset(a) == multiset(b) && Named(a, name)
    ensures Named(b, name)
  {
    var i :| 0 <= i < |a| && a[i].name == name;
    assert a[i] in multiset(b);
  }

  lemma {:induction false} WithPriorityPermutes(a: seq<Preview>, b: seq<Preview>, name: Text, priority: int)
    requires multiset(a) == multiset(b)
    ensures multiset(WithPriority(a, name, priority)) == multiset(WithPriority(b, name, priority))
  {
    if a == [] {
      assert |multiset(b)| == |b| && |multiset(a)| == |a|;
    } else {
      assert a == [a[0]] + a[1..];
      assert a[0] in multiset(b);
      var i :| 0 <= i < |b| && b[i] == a[0];
      PriorityTakesOut(a, 0, name, priority);
      PriorityTakesOut(b, i, name, priority);
      assert TakeOut(a, 0) == a[1..];
      WithPriorityPermutes(a[1..], TakeOut(b, i), name, priority);
    }
  }

  function TakeOut(ps: seq<Preview>, i: nat): seq<Preview>
    requires i < |ps|
  {
    ps[..i] + ps[i + 1..]
  }

  lemma PriorityTakesOut(ps: seq<Preview>, i: nat, name: Text, priority: int)
    requires i < |ps|
    ensures multiset(TakeOut(ps, i)) == multiset(ps) - multiset{ps[i]}
    ensures multiset(WithPriority(ps, name, priority)) ==
            multiset(WithPriority(TakeOut(ps, i), name, priority)) + multiset{Prioritized(ps[i], name, priority)}
  {
    assert ps == ps[..i] + [ps[i]] + ps[i + 1..];
    var w := WithPriority(ps, name, priority);
    assert w == w[..i] + [w[i]] + w[i + 1..];
    assert WithPriority(TakeOut(ps, i), name, priority) == w[..i] + w[i + 1..];
  }

  /** Nothing happens to a list without that name, which is when the commands fail. */
  lemma WithPriorityOfNone(ps: seq<Preview>, name: Text, priority: int)
    requires !Named(ps, name)
    ensures WithPriority(ps, name, priority) == ps
  {
  }

  lemma {:induction false} WithoutOfNone(ps: seq<Preview>, name: Text)
    requires !Named(ps, name)
    ensures Without(ps, name) == ps
  {
    if ps != [] {
      forall i | 0 <= i < |ps| - 1 ensures ps[1..][i].name != name {
        assert ps[1..][i] == ps[i + 1];
      }
      WithoutOfNone(ps[1..], name);
    }
  }

  // ---- Two runs: with previews and for the options only ----

  /** If the commands succeed on a preview list they succeed without one and leave the same options. */
  lemma {:induction false} OptionsOnlyAgrees(cmds: seq<Command>, env: Env)
    requires ExecAll(cmds, env).ok
    ensures ExecAll(cmds, env.(previews := None)) == Outcome(ExecAll(cmds, env).env.(previews := None), true)
  {
    if cmds != [] {
      var env' := Exec(cmds[0], env).value;
      assert Exec(cmds[0], env.(previews := None)) == Some(env'.(previews := None));
      OptionsOnlyAgrees(cmds[1..], env');
    }
  }

  // ---- Removal is final ----

  lemma {:induction false} ExecAllAppend(a: seq<Command>, b: seq<Command>, env: Env)
    ensures ExecAll(a + b, env) ==
            if ExecAll(a, env).ok then ExecAll(b, ExecAll(a, env).env) else ExecAll(a, env)
  {
    if a == [] {
      assert a + b == b;
    } else {
      assert (a + b)[1..] == a[1..] + b;
      if Exec(a[0], env).Some? {
        ExecAllAppend(a[1..], b, Exec(a[0], env).value);
      }
    }
  }

  /** Without an `Add` of a name that is not there, it stays away. */
  lemma {:induction false} StaysAway(cmds: seq<Command>, env: Env, name: Text)
    requires env.previews.Some? && !Named(env.previews.value, name)
    requires forall i :: 0 <= i < |cmds| && cmds[i].Add? ==> cmds[i].name != name
    ensures ExecAll(cmds, env).env.previews.Some?
    ensures !Named(ExecAll(cmds, env).env.previews.value, name)
  {
    if cmds != [] && Exec(cmds[0], env).Some? {
      var env' := Exec(cmds[0], env).value;
      if cmds[0].Remove? {
        forall p | p in Without(env.previews.value, cmds[0].name) ensures p.name != name {
          WithoutCounts(env.previews.value, cmds[0].name, p);
          assert p in multiset(Without(env.previews.value, cmds[0].name));
          assert p in env.previews.value;
        }
      }
      StaysAway(cmds[1..], env', name);
    }
  }

  /** A name whose last `Remove` is followed by no `Add` of it is not among the previews in the end. */
  lemma RemovalIsFinal(before: seq<Command>, name: Text, after: seq<Command>, env: Env)
    requires env.previews.Some?
    requires forall i :: 0 <= i < |after| && after[i].Add? ==> after[i].name != name
    requires ExecAll(before + [Remove(name)] + after, env).ok
    ensures ExecAll(before + [Remove(name)] + after, env).env.previews.Some?
    ensures !Named(ExecAll(before + [Remove(name)] + after, env).env.previews.value, name)
  {
    var cmds := [Remove(name)] + after;
    assert before + [Remove(name)] + after == before + cmds;
    ExecAllAppend(before, cmds, env);
    var mid := ExecAll(before, env).env;
    KeepsPreviews(before, env);
    assert cmds[1..] == after;
    WithoutMeaning(mid.previews.value, name);
    StaysAway(after, Exec(Remove(name), mid).value, name);
  }

  lemma {:induction false} KeepsPreviews(cmds: seq<Command>, env: Env)
    ensures ExecAll(cmds, env).env.previews.Some? <==> env.previews.Some?
  {
    if cmds != [] && Exec(cmds[0], env).Some? {
      KeepsPreviews(cmds[1..], Exec(cmds[0], env).value);
    }
  }

  /** The previews that a command defines. */
  function Added(cmd: Command, env: Env): seq<Preview>
  {
    if cmd.Add? && env.previews.Some? then Customs(cmd.name, cmd.types, cmd.script) else []
  }

  /** Whatever is in the list in the end is custom or was there before, but for its priority. */
  lemma {:induction false} OnlyCustomsAreAdded(cmds: seq<Command>, env: Env)
    requires env.previews.Some?
    ensures ExecAll(cmds, env).env.previews.Some?
    ensures forall p :: p in ExecAll(cmds, env).env.previews.value ==> IsCustom(p) || KnownTo(p, env.previews.value)
  {
    hide Exec, KnownTo, SamePreview, IsCustom, Added;
    if cmds == [] || Exec(cmds[0], env).None? {
      forall p | p in env.previews.value ensures KnownTo(p, env.previews.value) {
        KnownToItself(p, env.previews.value);
      }
    } else {
      var env' := Exec(cmds[0], env).value;
      ExecAdds(cmds[0], env);
      OnlyCustomsAreAdded(cmds[1..], env');
      forall p | p in ExecAll(cmds, env).env.previews.value && !IsCustom(p)
        ensures KnownTo(p, env.previews.value)
      {
        FromBefore(p, env'.previews.value, env.previews.value, Added(cmds[0], env));
      }
    }
  }

  lemma KnownToItself(p: Preview, ps: seq<Preview>)
    requires p in ps
    ensures KnownTo(p, ps)
  {
    assert SamePreview(p, p);
  }

  lemma FromBefore(p: Preview, mid: seq<Preview>, known: seq<Preview>, added: seq<Preview>)
    requires KnownTo(p, mid) && forall q :: q in mid ==> KnownTo(q, known + added)
    requires forall q :: q in added ==> IsCustom(q)
    ensures IsCustom(p) || KnownTo(p, known)
  {
    var q :| q in mid && SamePreview(p, q);
    var r :| r in known + added && SamePreview(q, r);
    assert SamePreview(p, r);
  }

  /** One command leaves what was there before, or what it defines, but for priorities. */
  lemma ExecAdds(cmd: Command, env: Env)
    requires env.previews.Some? && Exec(cmd, env).Some?
    ensures Exec(cmd, env).value.previews.Some?
    ensures forall p :: p in Exec(cmd, env).value.previews.value ==>
              KnownTo(p, env.previews.value + Added(cmd, env))
    ensures forall p :: p in Added(cmd, env) ==> IsCustom(p)
  {
    var old_, new_ := env.previews.value, Exec(cmd, env).value.previews.value;
    forall p | p in new_ ensures KnownTo(p, old_ + Added(cmd, env)) {
      if cmd.Priority? {
        var i :| 0 <= i < |new_| && new_[i] == p;
        assert SamePreview(p, old_[i]);
      } else {
        if cmd.Remove? {
          WithoutCounts(old_, cmd.name, p);
          assert p in multiset(new_) && p in multiset(old_);
        }
        assert SamePreview(p, p);
      }
    }
  }

  /** What is known stays so when a command is run, if what it defines gets known too. */
  lemma ExecKnown(cmd: Command, env: Env, known: seq<Preview>)
    requires Exec(cmd, env).Some? && AllKnown(env, known)
    ensures AllKnown(Exec(cmd, env).value, known + Added(cmd, env))
  {
    if env.previews.Some? {
      ExecAdds(cmd, env);
      forall p | p in Exec(cmd, env).value.previews.value ensures KnownTo(p, known + Added(cmd, env)) {
        var q :| q in env.previews.value + Added(cmd, env) && SamePreview(p, q);
        if q in env.previews.value {
          var r :| r in known && SamePreview(q, r);
          assert SamePreview(p, r);
        }
      }
    }
  }

  ghost predicate AllKnown(env: Env, known: seq<Preview>)
  {
    env.previews.Some? ==> forall p :: p in env.previews.value ==> KnownTo(p, known)
  }

  lemma MoreKnown(env: Env, known: seq<Preview>, more: seq<Preview>)
    requires AllKnown(env, known)
    ensures AllKnown(env, known + more)
  {
    if env.previews.Some? {
      forall p | p in env.previews.value ensures KnownTo(p, known + more) {
        var q :| q in known && SamePreview(p, q);
        assert q in known + more;
      }
    }
  }

  lemma KnownToThemselves(env: Env, known: seq<Preview>)
    requires env.previews.Some? ==> env.previews.value == known
    ensures AllKnown(env, known)
  {
    if env.previews.Some? {
      forall p | p in env.previews.value ensures KnownTo(p, known) {
        KnownToItself(p, known);
      }
    }
  }

  predicate IsCustom(p: Preview) { p.order == 1 && !p.extShort }

  ghost predicate KnownTo(p: Preview, ps: seq<Preview>)
  {
    exists q :: q in ps && SamePreview(p, q)
  }

  /** The same up to priority, the only thing a file can change of an existing preview. */
  predicate SamePreview(p: Preview, q: Preview)
  {
    p == q.(priority := p.priority)
  }
}
