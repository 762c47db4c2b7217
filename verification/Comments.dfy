/** Comments and the lines around them: where the code does not do what the manual says. */
module Comments {
  import opened Bytes
  import opened LexSpec
  import opened ConfigSpec
  import opened Printer
  import opened RoundTrip
  import C = Commands

  /** Text in one line. */
  predicate IsLine(w: Text) { '\n' !in w }

  lemma {:induction false} LineRead(s: Text, p: nat, w: Text)
    requires Has(s, p, w + "\n") && IsLine(w)
    ensures AfterNewline(s, p) == p + |w| + 1
    decreases |w|
  {
    HasAt(s, p, w + "\n", 0);
    if w != [] {
      assert w + "\n" == [w[0]] + (w[1..] + "\n");
      HasSplit(s, p, [w[0]], w[1..] + "\n");
      LineRead(s, p + 1, w[1..]);
    }
  }

  function Comment(w: Text): Text { "#" + w + "\n" }

  /** A comment is skipped with its newline, and nothing more is. */
  lemma CommentSkipped(s: Text, p: nat, w: Text)
    requires Has(s, p, Comment(w)) && IsLine(w) && At(s, p + |Comment(w)|) != '#'
    ensures At(s, p) == '#' && !IsBlank(At(s, p))
    ensures SkipComments(s, p) == p + |Comment(w)|
    ensures TokenStart(s, p) == p + |Comment(w)|
  {
    assert Comment(w) == ("#" + w) + "\n";
    LineRead(s, p, "#" + w);
    HasAt(s, p, Comment(w), 0);
    assert SkipComments(s, p + |Comment(w)|) == p + |Comment(w)|;
  }

  /** Where a comment stands, the next token is read as if what follows it stood there. */
  lemma CommentHere(s: Text, p: nat, w: Text)
    requires Has(s, p, Comment(w)) && IsLine(w) && Starts(s, p + |Comment(w)|)
    ensures Here(s, p, false) == Here(s, p + |Comment(w)|, false)
  {
    CommentSkipped(s, p, w);
    var q := p + |Comment(w)|;
    assert TokenStart(s, q) == q;
  }

  /** What printed commands, or none, start with. */
  lemma CommandsStart(s: Text, p: nat, cmds: seq<C.Command>, bare: Text -> bool)
    requires forall c :: c in cmds ==> Printable(c)
    requires Has(s, p, PrintAll(cmds, bare)) && p + |PrintAll(cmds, bare)| == |s|
    ensures Starts(s, p) && At(s, p) != '\n' && (cmds == [] ==> p == |s|)
    ensures Here(s, p, false).tok.kind == if cmds == [] then Eof else Str
  {
    hide Lex, Has, PrintCommand, Printable, Starts, CommandEnds, ParseCommand, IsWord;
    if cmds == [] {
      EofHere(s, p);
    } else {
      var w := PrintCommand(cmds[0], bare);
      HasSplit(s, p, w, "\n" + PrintAll(cmds[1..], bare));
      HasSplit(s, p + |w|, "\n", PrintAll(cmds[1..], bare));
      HasAt(s, p + |w|, "\n", 0);
      NewLineToken(s, p + |w|);
      CommandParsed(s, p, cmds[0], bare);
      KeywordIsWord(cmds[0], bare);
      WordStarts(s, p, Keyword(cmds[0]), " " + Arguments(cmds[0], bare));
    }
  }

  // ---- A comment behind a command ----

  /** A command with a comment behind it, so many empty lines, and more commands. */
  function Commented(cmd: C.Command, w: Text, gap: nat, rest: seq<C.Command>, bare: Text -> bool): Text
  {
    PrintCommand(cmd, bare) + (" " + (Comment(w) + (Newlines(gap) + PrintAll(rest, bare))))
  }

  /**
   A file of commands, one of which has a comment behind it. The comment takes the
   newline with it, so the file is well formed exactly if an empty line comes next, or
   nothing at all; otherwise reading stops there.
   */
  lemma CommentBehindCommand(before: seq<C.Command>, cmd: C.Command, w: Text, gap: nat, rest: seq<C.Command>,
                             bare: Text -> bool)
    requires (forall c :: c in before ==> Printable(c)) && Printable(cmd) && (forall c :: c in rest ==> Printable(c))
    requires IsLine(w)
    ensures var p := ParseFile(PrintAll(before, bare) + Commented(cmd, w, gap, rest, bare));
            && (p.ok <==> gap > 0 || rest == [])
            && p.cmds == before + [cmd] + if gap > 0 then rest else []
  {
    hide Lex, Has, Printable, ParseCommands, PrintAll, Commented;
    var s := PrintAll(before, bare) + Commented(cmd, w, gap, rest, bare);
    var q := |PrintAll(before, bare)|;
    HasWhole(s);
    HasSplit(s, 0, PrintAll(before, bare), Commented(cmd, w, gap, rest, bare));
    CommentedParsed(s, q, cmd, w, gap, rest, bare);
    AllParsed(s, 0, before, q, bare);
    assert before + ([cmd] + if gap > 0 then rest else []) == before + [cmd] + if gap > 0 then rest else [];
  }

  lemma HasWhole(s: Text)
    ensures Has(s, 0, s)
  {
  }

  function Newlines(n: nat): (t: Text)
    ensures |t| == n && forall i :: 0 <= i < n ==> t[i] == '\n'
  {
    seq(n, i => '\n')
  }

  /** Newlines are one token. */
  lemma NewlinesHere(s: Text, p: nat, n: nat)
    requires Has(s, p, Newlines(n)) && n > 0 && At(s, p + n) != '\n'
    ensures Starts(s, p)
    ensures Here(s, p, false).tok.kind == NewLn && Here(s, p, false).lex == State(p + n, [])
  {
    HasAt(s, p, Newlines(n), 0);
    SpanOver(s, p, Newlines(n), IsNewline);
    assert TokenStart(s, p) == p;
  }

  lemma CommentedParsed(s: Text, q: nat, cmd: C.Command, w: Text, gap: nat, rest: seq<C.Command>, bare: Text -> bool)
    requires Printable(cmd) && (forall c :: c in rest ==> Printable(c)) && IsLine(w)
    requires Has(s, q, Commented(cmd, w, gap, rest, bare)) && q + |Commented(cmd, w, gap, rest, bare)| == |s|
    ensures At(s, q) != '\n' && Here(s, q, false).tok.kind == Str
    ensures ParseCommands(s, Here(s, q, false))
            == Program([cmd] + (if gap > 0 then rest else []), gap > 0 || rest == [])
  {
    hide Lex, Has, PrintCommand, Printable, ParseCommand, ParseEnd, PrintAll, Starts, CommandEnds;
    var b := q + |PrintCommand(cmd, bare)|;
    HasSplit(s, q, PrintCommand(cmd, bare), " " + (Comment(w) + (Newlines(gap) + PrintAll(rest, bare))));
    CommentEnds(s, b, w, gap, rest, bare);
    CommandParsed(s, q, cmd, bare);
    var c := Here(s, b, false);
    if gap > 0 {
      assert ParseCommands(s, ParseEnd(s, c).cur) == Program(rest, true);
    } else if rest == [] {
      assert ParseCommands(s, ParseEnd(s, c).cur) == Program([], true);
      assert [cmd] + [] == [cmd];
    } else {
      assert [cmd] + [] == [cmd];
    }
  }

  /** What the comment makes of the end of the command before it, at `b`. */
  lemma CommentEnds(s: Text, b: nat, w: Text, gap: nat, rest: seq<C.Command>, bare: Text -> bool)
    requires (forall c :: c in rest ==> Printable(c)) && IsLine(w)
    requires Has(s, b, " " + (Comment(w) + (Newlines(gap) + PrintAll(rest, bare))))
    requires b + |" " + (Comment(w) + (Newlines(gap) + PrintAll(rest, bare)))| == |s|
    ensures CommandEnds(s, b)
    ensures var e := ParseEnd(s, Here(s, b, false));
            if gap > 0 then e.Done? && ParseCommands(s, e.cur) == Program(rest, true)
            else if rest == [] then e.Done? && ParseCommands(s, e.cur) == Program([], true)
            else e.Fail?
  {
    hide Lex, Has, Printable, PrintAll, Starts, ParseEnd, ParseCommands, IsLine;
    var r := b + 1 + |Comment(w)|;
    HasSplit(s, b, " ", Comment(w) + (Newlines(gap) + PrintAll(rest, bare)));
    HasSplit(s, b + 1, Comment(w), Newlines(gap) + PrintAll(rest, bare));
    HasSplit(s, r, Newlines(gap), PrintAll(rest, bare));
    GapEnds(s, r, gap, rest, bare);
    CommentHere(s, b + 1, w);
    BlankBefore(s, b, w);
  }

  /** The lines after the comment, read as the end of a command. */
  lemma GapEnds(s: Text, r: nat, gap: nat, rest: seq<C.Command>, bare: Text -> bool)
    requires forall c :: c in rest ==> Printable(c)
    requires Has(s, r, Newlines(gap)) && Has(s, r + gap, PrintAll(rest, bare))
    requires r + gap + |PrintAll(rest, bare)| == |s|
    ensures Starts(s, r) && Here(s, r, false).tok.kind != Int
    ensures var e := ParseEnd(s, Here(s, r, false));
            if gap > 0 then e.Done? && ParseCommands(s, e.cur) == Program(rest, true)
            else if rest == [] then e.Done? && ParseCommands(s, e.cur) == Program([], true)
            else e.Fail?
  {
    hide Lex, Has, Printable, PrintAll, Starts, ParseCommand, Newlines;
    CommandsStart(s, r + gap, rest, bare);
    if gap > 0 {
      NewlinesHere(s, r, gap);
      RestParsed(s, r + gap, rest, bare);
    } else if rest == [] {
      PastEof(s, Here(s, r, false));
    }
  }

  lemma RestParsed(s: Text, p: nat, rest: seq<C.Command>, bare: Text -> bool)
    requires forall c :: c in rest ==> Printable(c)
    requires Has(s, p, PrintAll(rest, bare)) && p + |PrintAll(rest, bare)| == |s|
    ensures ParseCommands(s, Here(s, p, false)) == Program(rest, true)
  {
    hide Lex, Has, Printable, PrintAll, ParseCommand;
    EofHere(s, |s|);
    AllParsed(s, p, rest, |s|, bare);
    assert rest + [] == rest;
  }

  /** After the end of the file comes the end of the file. */
  lemma PastEof(s: Text, c: Cursor)
    requires c == Here(s, |s|, false)
    ensures Advance(s, c, false).tok.kind == Eof
  {
    assert c.lex == State(|s| + 1, []);
  }

  /** A blank before a comment is skipped with it. */
  lemma BlankBefore(s: Text, b: nat, w: Text)
    requires Has(s, b, " ") && Has(s, b + 1, Comment(w)) && IsLine(w) && Starts(s, b + 1 + |Comment(w)|)
    ensures At(s, b) == ' ' && Here(s, b, false) == Here(s, b + 1, false)
  {
    HasAt(s, b, " ", 0);
    CommentSkipped(s, b + 1, w);
    assert Span(s, b, IsBlank) == Span(s, b + 1, IsBlank) == b + 1;
  }

  /** A file the manual would allow, and what is made of it. */
  lemma CommentedFile()
    ensures ParseFile("remove cat # old\nremove w3m\n") == Program([C.Remove("cat")], false)
  {
    hide ParseFile, Commented;
    var bare := (t: Text) => true;
    CommentBehindCommand([], C.Remove("cat"), " old", 0, [C.Remove("w3m")], bare);
    CommentedText(bare);
  }

  lemma PrintedRemove(name: Text, bare: Text -> bool)
    requires bare(name) && IsBareWord(name)
    ensures PrintAll([], bare) == [] && PrintAll([C.Remove(name)], bare) == "remove " + name + "\n"
  {
    assert PrintAll([C.Remove(name)][1..], bare) == [];
    assert PrintCommand(C.Remove(name), bare) == "remove " + name;
  }

  lemma CommentedText(bare: Text -> bool)
    requires bare("cat") && bare("w3m")
    ensures PrintAll([], bare) + Commented(C.Remove("cat"), " old", 0, [C.Remove("w3m")], bare)
            == "remove cat # old\nremove w3m\n"
  {
    hide PrintAll;
    assert IsBareWord("cat") && IsBareWord("w3m");
    PrintedRemove("w3m", bare);
    assert PrintCommand(C.Remove("cat"), bare) == "remove cat" && Comment(" old") == "# old\n" && Newlines(0) == [];
  }

  // ---- A line below a comment ----

  /** A comment, and commands on the line below it. */
  function Below(w: Text, indent: Text, rest: seq<C.Command>, bare: Text -> bool): Text
  {
    Comment(w) + (indent + PrintAll(rest, bare))
  }

  /**
   A file of commands with a comment on a line of its own. The blanks that start the next
   line are not skipped, and nothing can be read there: the file is well formed exactly
   if there are none.
   */
  lemma LineBelowComment(before: seq<C.Command>, w: Text, indent: Text, rest: seq<C.Command>, bare: Text -> bool)
    requires (forall c :: c in before ==> Printable(c)) && (forall c :: c in rest ==> Printable(c))
    requires IsLine(w) && forall i :: 0 <= i < |indent| ==> IsBlank(indent[i])
    ensures var p := ParseFile(PrintAll(before, bare) + Below(w, indent, rest, bare));
            && (p.ok <==> indent == [])
            && p.cmds == before + if indent == [] then rest else []
  {
    hide Lex, Has, Printable, PrintAll, Starts, ParseCommands, Below;
    var s := PrintAll(before, bare) + Below(w, indent, rest, bare);
    var q := |PrintAll(before, bare)|;
    HasWhole(s);
    HasSplit(s, 0, PrintAll(before, bare), Below(w, indent, rest, bare));
    BelowComment(s, q, w, indent, rest, bare);
    AllParsed(s, 0, before, q, bare);
  }

  lemma BelowComment(s: Text, q: nat, w: Text, indent: Text, rest: seq<C.Command>, bare: Text -> bool)
    requires (forall c :: c in rest ==> Printable(c))
    requires IsLine(w) && forall i :: 0 <= i < |indent| ==> IsBlank(indent[i])
    requires Has(s, q, Below(w, indent, rest, bare)) && q + |Below(w, indent, rest, bare)| == |s|
    ensures At(s, q) != '\n' && Here(s, q, false).tok.kind != NewLn
    ensures ParseCommands(s, Here(s, q, false)) == if indent == [] then Program(rest, true) else Program([], false)
  {
    hide Lex, Has, Printable, PrintAll, Starts, ParseCommands, Comment, IsLine;
    var r := q + |Comment(w)|;
    HasSplit(s, q, Comment(w), indent + PrintAll(rest, bare));
    HasSplit(s, r, indent, PrintAll(rest, bare));
    CommandsStart(s, r + |indent|, rest, bare);
    if indent == [] {
      assert r + |indent| == r;
      RestParsed(s, r, rest, bare);
      CommentHere(s, q, w);
      HashHere(s, q, w);
    } else {
      HasAt(s, r, indent, 0);
      BlankBelow(s, q, w);
      ErrorStops(s, Here(s, q, false));
    }
  }

  lemma ErrorStops(s: Text, c: Cursor)
    requires c.tok.kind == Err
    ensures ParseCommands(s, c) == Program([], false)
  {
  }

  lemma HashHere(s: Text, q: nat, w: Text)
    requires Has(s, q, Comment(w))
    ensures At(s, q) == '#'
  {
    HasAt(s, q, Comment(w), 0);
  }

  lemma BlankBelow(s: Text, q: nat, w: Text)
    requires Has(s, q, Comment(w)) && IsLine(w) && IsBlank(At(s, q + |Comment(w)|))
    ensures At(s, q) == '#' && Here(s, q, false).tok.kind == Err
  {
    CommentSkipped(s, q, w);
  }
}
