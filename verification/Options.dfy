/** The options of the program: each has a value of its own type, whatever a file sets. */
module Options {
  import opened Bytes
  import opened ConfigSpec
  import LS = LexSpec
  import C = Commands

  /** A text for an option of text type, a number for any other. */
  predicate Fits(value: C.OptVal, arg: ArgType)
  {
    value.Str? <==> arg == String
  }

  ghost predicate Typed(opts: C.Options)
  {
    forall name :: FindOption(OPTIONS, name).Some? ==>
      name in opts && Fits(opts[name], FindOption(OPTIONS, name).value.arg)
  }

  predicate TypedCommand(cmd: C.Command)
  {
    cmd.Set? ==>
      FindOption(OPTIONS, cmd.option).Some? && Fits(cmd.value, FindOption(OPTIONS, cmd.option).value.arg)
  }

  lemma CommandTyped(s: Text, c: Cursor)
    ensures var r := ParseCommand(s, c); r.Done? ==> TypedCommand(r.value)
  {
    hide ParseTypes, LS.Lex, FindOption;
  }

  lemma {:induction false} CommandsTyped(s: Text, c: Cursor)
    ensures forall cmd :: cmd in ParseCommands(s, c).cmds ==> TypedCommand(cmd)
    decreases Rem(s, c)
  {
    hide ParseCommand, ParseEnd, TypedCommand;
    var r := ParseCommand(s, c);
    if c.tok.kind != LS.Eof && r.Done? {
      CommandTyped(s, c);
      if ParseEnd(s, r.cur).Done? {
        CommandsTyped(s, ParseEnd(s, r.cur).cur);
      }
    }
  }

  lemma {:induction false} ExecTyped(cmds: seq<C.Command>, env: C.Env)
    requires Typed(env.opts) && forall cmd :: cmd in cmds ==> TypedCommand(cmd)
    ensures Typed(C.ExecAll(cmds, env).env.opts)
  {
    hide FindOption;
    if cmds != [] && C.Exec(cmds[0], env).Some? {
      assert TypedCommand(cmds[0]);
      ExecTyped(cmds[1..], C.Exec(cmds[0], env).value);
    }
  }

  /** Loading a file, with success or not, leaves every option with a value of its type. */
  lemma LoadTyped(s: Text, env: C.Env)
    requires Typed(env.opts)
    ensures Typed(Load(s, env).env.opts)
  {
    hide Typed, TypedCommand;
    CommandsTyped(s, FirstCommand(s));
    ExecTyped(ParseFile(s).cmds, env);
  }

  /** The shell that is to run the scripts. */
  function ShellOf(opts: C.Options): Text
  {
    if "shell" in opts && opts["shell"].Str? then opts["shell"].s else []
  }

  lemma {:induction false} FindsFirst(defs: seq<OptionDef>, k: nat)
    requires k < |defs| && forall j :: 0 <= j < k ==> defs[j].name != defs[k].name
    ensures FindOption(defs, defs[k].name) == Some(defs[k])
  {
    if k > 0 {
      FindsFirst(defs[1..], k - 1);
    }
  }

  /** There always is one. */
  lemma ShellIsSet(opts: C.Options)
    requires Typed(opts)
    ensures "shell" in opts && opts["shell"] == C.Str(ShellOf(opts))
  {
    FindsFirst(OPTIONS, 8);
    assert OPTIONS[8] == OptionDef("shell", String);
    assert FindOption(OPTIONS, "shell") == Some(OPTIONS[8]);
  }

  lemma {:induction false} FindsListed(defs: seq<OptionDef>, name: Text)
    ensures FindOption(defs, name).Some? <==> exists k :: 0 <= k < |defs| && defs[k].name == name
  {
    if defs != [] && defs[0].name != name {
      FindsListed(defs[1..], name);
      if exists k :: 0 <= k < |defs| && defs[k].name == name {
        var k :| 0 <= k < |defs| && defs[k].name == name;
        assert defs[1..][k - 1].name == name;
      }
      if exists k :: 0 <= k < |defs[1..]| && defs[1..][k].name == name {
        var k :| 0 <= k < |defs[1..]| && defs[1..][k].name == name;
        assert defs[k + 1].name == name;
      }
    }
  }

  const FLAGS: seq<Text> := ["forcekitty", "forcekittyanim", "forcechafa", "noimages", "nosymlinkinfo",
                             "autochafa", "chafasixel", "showgpg"]

  /** Eight options are flags, the shell is a text, and there are no others. */
  lemma OptionTable(name: Text)
    ensures FindOption(OPTIONS, name) ==
            if name == "shell" then Some(OptionDef(name, String))
            else if name in FLAGS then Some(OptionDef(name, Bool))
            else None
  {
    hide FindOption;
    assert OPTIONS[8] == OptionDef("shell", String) && |OPTIONS| == 9 && |FLAGS| == 8;
    FlagsListed();
    FindsListed(OPTIONS, name);
    NamesDiffer();
    assert name in FLAGS ==> exists k :: 0 <= k < |OPTIONS| && OPTIONS[k].name == name by {
      if name in FLAGS {
        var k :| 0 <= k < |FLAGS| && FLAGS[k] == name;
        assert OPTIONS[k].name == name;
      }
    }
    if k :| 0 <= k < |OPTIONS| && OPTIONS[k].name == name {
      FindsFirst(OPTIONS, k);
      assert k < 8 ==> FLAGS[k] in FLAGS && OPTIONS[k].name != OPTIONS[8].name;
    }
  }

  lemma FlagsListed()
    ensures forall k :: 0 <= k < 8 ==> OPTIONS[k] == OptionDef(FLAGS[k], Bool)
  {
  }

  lemma NamesDiffer()
    ensures forall j, k :: 0 <= j < k < |OPTIONS| ==> OPTIONS[j].name != OPTIONS[k].name
  {
    forall j, k | 0 <= j < k < |OPTIONS| ensures OPTIONS[j].name != OPTIONS[k].name {
      assert "forcekitty" < "forcekittyanim";
    }
  }
}
