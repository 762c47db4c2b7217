/**
 A well-formed configuration file means the same through every window: where the file is
 seen otherwise the lexer finds an error in it, and no command can be read across one.
 */
module SeenConfig {
  import opened Bytes
  import opened LexSpec
  import opened Windows
  import opened SeenFacts
  import opened ConfigSpec
  import C = Commands

  /** Reading on from `c`, the file `s` is seen as `t`. */
  ghost predicate Tracks(s: Text, t: Text, size: nat, c: Cursor)
  {
    exists e :: Foreseen(s, size, e, c.lex, t)
  }

  /** `r` was read from `s`, and unless an error was met, `r'`, read from `t`, is the same. */
  ghost predicate Same<T>(s: Text, t: Text, size: nat, r: Parsed<T>, r': Parsed<T>)
  {
    r.Done? && r.cur.tok.kind != Err ==> r' == r && Tracks(s, t, size, r.cur)
  }

  lemma AdvanceSame(s: Text, t: Text, size: nat, c: Cursor, numIsText: bool)
    requires Tracks(s, t, size, c)
    ensures var a := Advance(s, c, numIsText);
            a.tok.kind != Err ==> Advance(t, c, numIsText) == a && Tracks(s, t, size, a)
  {
    hide Lex, Foreseen, CallMisread, CallWindow;
    var e :| Foreseen(s, size, e, c.lex, t);
    CallSeen(s, size, e, c.lex, t, numIsText);
    if CallMisread(s, size, e, c.lex) {
      MisreadCall(s, size, e, c.lex, numIsText);
    } else {
      CallForeseen(s, size, e, c.lex, t, numIsText, CallWindow(s, size, e, c.lex), Lex(t, c.lex, numIsText).next);
    }
  }

  lemma ExpectSame(s: Text, t: Text, size: nat, c: Cursor, kind: Kind, numIsText: bool)
    requires Tracks(s, t, size, c) && kind != Eof
    ensures Same(s, t, size, Expect(s, c, kind, numIsText), Expect(t, c, kind, numIsText))
  {
    hide Tracks, Advance;
    AdvanceSame(s, t, size, c, numIsText);
  }

  lemma {:induction false} SkipSame(s: Text, t: Text, size: nat, c: Cursor)
    requires Tracks(s, t, size, c)
    ensures var r := SkipNewlines(s, c);
            r.tok.kind != Err ==> SkipNewlines(t, c) == r && Tracks(s, t, size, r)
    decreases Rem(s, c)
  {
    hide Tracks, Advance;
    if c.tok.kind == NewLn {
      AdvanceShrinks(s, c, false);
      AdvanceSame(s, t, size, c, false);
      if Advance(s, c, false).tok.kind != Err {
        SkipSame(s, t, size, Advance(s, c, false));
      }
    }
  }

  lemma MimePartSame(s: Text, t: Text, size: nat, c: Cursor)
    requires Tracks(s, t, size, c)
    ensures Same(s, t, size, ParseMimePart(s, c), ParseMimePart(t, c))
  {
    hide Tracks, Advance, Expect;
    AdvanceSame(s, t, size, c, true);
    ExpectSame(s, t, size, c, Str, true);
  }

  lemma TypeSame(s: Text, t: Text, size: nat, c: Cursor)
    requires Tracks(s, t, size, c)
    ensures Same(s, t, size, ParseType(s, c), ParseType(t, c))
  {
    hide Tracks, Advance, ParseMimePart;
    if c.tok.kind == Dot {
      AdvanceSame(s, t, size, c, true);
      if Advance(s, c, true).tok.kind != Err {
        ExpectSame(s, t, size, Advance(s, c, true), Str, true);
      }
    } else {
      MimePartSame(s, t, size, c);
      var r := ParseMimePart(s, c);
      if r.Done? && r.cur.tok.kind != Err {
        ExpectSame(s, t, size, r.cur, Slash, true);
        var r2 := Expect(s, r.cur, Slash, true);
        if r2.Done? && r2.cur.tok.kind != Err {
          MimePartSame(s, t, size, r2.cur);
        } else if r2.Done? {
          NothingOfError(s, r2.cur);
        }
      }
    }
  }

  /** Nothing that needs a token can be read where there is an error. */
  lemma NothingOfError(s: Text, c: Cursor)
    requires c.tok.kind == Err
    ensures ParseMimePart(s, c).Fail? && ParseType(s, c).Fail? && ParseScript(s, c).Fail?
    ensures forall types :: |types| <= MAX_TYPES ==> ParseTypes(s, c, types).Fail?
  {
  }

  lemma {:induction false} TypesSame(s: Text, t: Text, size: nat, c: Cursor, types: seq<C.TypeSet>)
    requires Tracks(s, t, size, c) && |types| <= MAX_TYPES
    ensures Same(s, t, size, ParseTypes(s, c, types), ParseTypes(t, c, types))
    decreases MAX_TYPES - |types|
  {
    hide Tracks, Advance, ParseType;
    if c.tok.kind == BlkOpen {
      AdvanceSame(s, t, size, c, false);
    } else if |types| < MAX_TYPES {
      TypeSame(s, t, size, c);
      var r := ParseType(s, c);
      if r.Done? && r.cur.tok.kind != Err {
        TypesSame(s, t, size, r.cur, types + [r.value]);
      } else if r.Done? {
        NothingOfError(s, r.cur);
      }
    }
  }

  lemma ScriptSame(s: Text, t: Text, size: nat, c: Cursor)
    requires Tracks(s, t, size, c)
    ensures Same(s, t, size, ParseScript(s, c), ParseScript(t, c))
  {
    hide Tracks, Advance;
    ExpectSame(s, t, size, c, Str, false);
    var r := Expect(s, c, Str, false);
    if r.Done? && r.cur.tok.kind != Err {
      ExpectSame(s, t, size, r.cur, BlkCls, false);
    }
  }

  lemma ValueSame(s: Text, t: Text, size: nat, c: Cursor, name: Text, arg: ArgType)
    requires Tracks(s, t, size, c)
    ensures Same(s, t, size, ParseValue(s, c, name, arg), ParseValue(t, c, name, arg))
  {
    hide Tracks, Advance;
    AdvanceSame(s, t, size, c, false);
    ExpectSame(s, t, size, c, Int, false);
    ExpectSame(s, t, size, c, Str, false);
  }

  lemma SetSame(s: Text, t: Text, size: nat, c: Cursor)
    requires Tracks(s, t, size, c)
    ensures Same(s, t, size, ParseSet(s, c), ParseSet(t, c))
  {
    hide Tracks, Advance, Expect, FindOption;
    ExpectSame(s, t, size, c, Str, false);
    var r := Expect(s, c, Str, false);
    if r.Done? && r.cur.tok.kind != Err && FindOption(OPTIONS, r.value.text).Some? {
      ValueSame(s, t, size, r.cur, r.value.text, FindOption(OPTIONS, r.value.text).value.arg);
    } else if r.Done? && r.cur.tok.kind == Err && FindOption(OPTIONS, r.value.text).Some? {
      ValueOfError(s, r.cur, r.value.text, FindOption(OPTIONS, r.value.text).value.arg);
    }
  }

  lemma ValueOfError(s: Text, c: Cursor, name: Text, arg: ArgType)
    requires c.tok.kind == Err
    ensures ParseValue(s, c, name, arg).cur.tok.kind == Err
  {
  }

  lemma PreviewSame(s: Text, t: Text, size: nat, c: Cursor)
    requires Tracks(s, t, size, c)
    ensures Same(s, t, size, ParsePreview(s, c), ParsePreview(t, c))
  {
    hide Tracks, Advance, Expect, ParseTypes, ParseScript;
    ExpectSame(s, t, size, c, Str, false);
    var r := Expect(s, c, Str, false);
    if r.Done? && r.cur.tok.kind != Err {
      TypesSame(s, t, size, r.cur, []);
      var r2 := ParseTypes(s, r.cur, []);
      if r2.Done? && r2.cur.tok.kind != Err {
        ScriptSame(s, t, size, r2.cur);
      } else if r2.Done? {
        NothingOfError(s, r2.cur);
      }
    } else if r.Done? {
      NothingOfError(s, r.cur);
    }
  }

  lemma PrioritySame(s: Text, t: Text, size: nat, c: Cursor)
    requires Tracks(s, t, size, c)
    ensures Same(s, t, size, ParsePriority(s, c), ParsePriority(t, c))
  {
    hide Tracks, Advance, Expect;
    ExpectSame(s, t, size, c, Str, false);
    var r := Expect(s, c, Str, false);
    if r.Done? && r.cur.tok.kind != Err {
      AdvanceSame(s, t, size, r.cur, false);
    }
  }

  lemma RemoveSame(s: Text, t: Text, size: nat, c: Cursor)
    requires Tracks(s, t, size, c)
    ensures Same(s, t, size, ParseRemove(s, c), ParseRemove(t, c))
  {
    hide Tracks, Advance, Expect;
    ExpectSame(s, t, size, c, Str, false);
  }

  lemma CommandSame(s: Text, t: Text, size: nat, c: Cursor)
    requires Tracks(s, t, size, c)
    ensures Same(s, t, size, ParseCommand(s, c), ParseCommand(t, c))
  {
    hide Tracks, Advance, Expect, ParseSet, ParsePreview, ParsePriority, ParseRemove;
    ExpectSame(s, t, size, c, Str, false);
    var r := Expect(s, c, Str, false);
    if r.Done? && r.cur.tok.kind != Err {
      SetSame(s, t, size, r.cur);
      PreviewSame(s, t, size, r.cur);
      PrioritySame(s, t, size, r.cur);
      RemoveSame(s, t, size, r.cur);
    } else if r.Done? {
      ArgumentsOfError(s, r.cur);
    }
  }

  lemma ArgumentsOfError(s: Text, c: Cursor)
    requires c.tok.kind == Err
    ensures ParseSet(s, c).Fail? && ParsePreview(s, c).Fail? && ParsePriority(s, c).Fail? && ParseRemove(s, c).Fail?
  {
  }

  lemma EndSame(s: Text, t: Text, size: nat, c: Cursor)
    requires Tracks(s, t, size, c)
    ensures Same(s, t, size, ParseEnd(s, c), ParseEnd(t, c))
  {
    hide Tracks, Advance, SkipNewlines;
    AdvanceSame(s, t, size, c, false);
    ExpectSame(s, t, size, c, NewLn, false);
    var r := Expect(s, c, NewLn, false);
    if r.Done? && r.cur.tok.kind != Err {
      SkipSame(s, t, size, r.cur);
    } else {
      SkipStep(s, r.cur);
    }
  }

  lemma {:induction false} CommandsSame(s: Text, t: Text, size: nat, c: Cursor)
    requires Tracks(s, t, size, c)
    ensures ParseCommands(s, c).ok ==> ParseCommands(t, c) == ParseCommands(s, c)
    decreases Rem(s, c)
  {
    hide Tracks, ParseCommand, ParseEnd;
    var r := ParseCommand(s, c);
    if c.tok.kind != Eof && r.Done? {
      CommandSame(s, t, size, c);
      if r.cur.tok.kind == Err {
        EndOfError(s, r.cur);
      } else {
        EndSame(s, t, size, r.cur);
        var r2 := ParseEnd(s, r.cur);
        if r2.Done? && r2.cur.tok.kind != Err {
          CommandsSame(s, t, size, r2.cur);
        } else if r2.Done? {
          CommandOfError(s, r2.cur);
        }
      }
    }
  }

  lemma EndOfError(s: Text, c: Cursor)
    requires c.tok.kind == Err
    ensures ParseEnd(s, c).Fail?
  {
  }

  lemma CommandOfError(s: Text, c: Cursor)
    requires c.tok.kind == Err
    ensures !ParseCommands(s, c).ok
  {
  }

  /** A well-formed file says the same through every window, and so loading it does what it says. */
  lemma WellFormedSeen(s: Text, size: nat, env: C.Env)
    ensures ParseFile(s).ok ==> ParseFile(SeenBy(s, size)) == ParseFile(s)
    ensures ParseFile(s).ok ==> Load(SeenBy(s, size), env) == Load(s, env)
  {
    hide SeenFrom, Lex, ParseCommands, Advance;
    var t := SeenBy(s, size);
    var before := Cursor(START, Tok(Kind.Null, 0, 0, 0, []));
    assert Tracks(s, t, size, before) by {
      assert Foreseen(s, size, size, START, t);
    }
    FirstSame(s, t, size, before);
    if FirstCommand(s).tok.kind == Err {
      CommandOfError(s, FirstCommand(s));
    } else {
      CommandsSame(s, t, size, FirstCommand(s));
    }
  }

  lemma FirstSame(s: Text, t: Text, size: nat, before: Cursor)
    requires Tracks(s, t, size, before) && before.lex == START
    ensures FirstCommand(s).tok.kind != Err ==>
              FirstCommand(t) == FirstCommand(s) && Tracks(s, t, size, FirstCommand(s))
  {
    hide Tracks, Lex;
    AdvanceSame(s, t, size, before, false);
    var a := Advance(s, before, false);
    if a.tok.kind != Err {
      SkipSame(s, t, size, a);
    } else {
      SkipStep(s, a);
    }
  }
}
