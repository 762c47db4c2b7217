/** A configuration file whose only block is never closed and which loads all the same. */
module Unclosed {
  import opened Bytes
  import opened LexSpec
  import opened LexFacts
  import opened Windows
  import opened SeenFacts
  import opened ConfigSpec
  import opened Printer
  import opened RoundTrip
  import opened Comments
  import C = Commands

  const QUOTED: Text -> bool := (t: Text) => false

  const EXT: Text := " " + ("." + Quote("b"))

  /** The definition of a preview "a" for the extension "b", closed by `close`. */
  function Defined(body: Text, close: Text): Text
  {
    "preview" + (" " + (Quote("a") + (EXT + (" " + ("{{" + (body + close))))))
  }

  /** A comment, and below it the definition with a single closing brace. */
  function UnclosedFile(body: Text): Text
  {
    Comment("}") + Defined(body, "}")
  }

  function Definition(body: Text): C.Command
  {
    C.Add("a", [C.TypeSet(None, None, Some("b"))], body)
  }

  lemma DefinedHas(s: Text, p: nat, body: Text, close: Text)
    requires Has(s, p, Defined(body, close))
    ensures Has(s, p, "preview") && Has(s, p + 7, " ") && Has(s, p + 8, Quote("a")) && Has(s, p + 11, " ")
    ensures Has(s, p + 12, ".") && Has(s, p + 13, Quote("b")) && Has(s, p + 16, " ") && Has(s, p + 17, "{{")
    ensures Has(s, p + 19, body + close)
    ensures |Defined(body, close)| == 19 + |body| + |close|
  {
    hide Has;
    var block := "{{" + (body + close);
    assert |Quote("a")| == 3 && |EXT| == 5;
    DefinedParts(s, p, "preview", Quote("a"), EXT, block);
    HasSplit(s, p + 11, " ", "." + Quote("b"));
    HasSplit(s, p + 12, ".", Quote("b"));
    HasSplit(s, p + 17, "{{", body + close);
  }

  lemma DefinedParts(s: Text, p: nat, w: Text, name: Text, ext: Text, block: Text)
    requires Has(s, p, w + (" " + (name + (ext + (" " + block)))))
    ensures Has(s, p, w) && Has(s, p + |w|, " ") && Has(s, p + |w| + 1, name)
    ensures var q := p + |w| + 1 + |name|;
            Has(s, q, ext) && Has(s, q + |ext|, " ") && Has(s, q + |ext| + 1, block)
  {
    hide Has;
    HasSplit(s, p, w, " " + (name + (ext + (" " + block))));
    HasSplit(s, p + |w|, " ", name + (ext + (" " + block)));
    HasSplit(s, p + |w| + 1, name, ext + (" " + block));
    HasSplit(s, p + |w| + 1 + |name|, ext, " " + block);
    HasSplit(s, p + |w| + 1 + |name| + |ext|, " ", block);
  }

  /** The tokens before the block, as they are read one after the other. */
  lemma TokensBefore(s: Text, body: Text, close: Text)
    requires Has(s, 0, Comment("}")) && Has(s, 3, Defined(body, close))
    ensures Here(s, 0, false) == Here(s, 3, false)
    ensures var c := Here(s, 3, false);
            c.tok.kind == Str && c.tok.text == "preview" && c.lex == State(10, [])
    ensures var c := Here(s, 10, false);
            c.tok.kind == Str && c.lex == State(14, [])
    ensures Here(s, 14, false).tok.kind == Dot && Here(s, 14, false).lex == State(16, [])
    ensures forall numIsText: bool ::
              Here(s, 16, numIsText).tok.kind == Str && Here(s, 16, numIsText).lex == State(19, [])
    ensures TokenStart(s, 19) == 20
  {
    hide Lex, Has, Defined, TokenStart;
    DefinedHas(s, 3, body, close);
    HasAt(s, 10, " ", 0);
    WordHere(s, 3, "preview", false);
    CommentHere(s, 0, "}");
    QuoteHere(s, 11, "a", false);
    SkipsBlank(s, 10, false);
    CharHere(s, 15, '.', Dot, false);
    SkipsBlank(s, 14, false);
    forall numIsText: bool
      ensures Here(s, 16, numIsText).tok.kind == Str && Here(s, 16, numIsText).lex == State(19, [])
    {
      QuoteHere(s, 16, "b", numIsText);
    }
    BlockStart(s, 19);
  }

  lemma BlockStart(s: Text, p: nat)
    requires Has(s, p, " ") && Has(s, p + 1, "{{")
    ensures TokenStart(s, p) == p + 1 && At(s, p + 1) == At(s, p + 2) == '{'
  {
    HasAt(s, p, " ", 0);
    HasAt(s, p + 1, "{{", 0);
    HasAt(s, p + 1, "{{", 1);
    assert Span(s, p, IsBlank) == p + 1;
  }

  lemma {:induction false} BodyEndIs(s: Text, r: nat)
    requires r <= |s| && forall k :: r <= k < |s| ==> s[k] != EOF_CHAR && !IsClose(s, k)
    ensures BodyEnd(s, r) == |s|
    decreases |s| - r
  {
    if r < |s| {
      BodyEndIs(s, r + 1);
    }
  }

  lemma NeverCloses(s: Text, r: nat, body: Text)
    requires Has(s, r, body + "}") && r + |body| + 1 == |s| && IsBody(body)
    ensures BodyEnd(s, r) == |s| && s[|s| - 1] == '}'
  {
    HasAt(s, r, body + "}", |body|);
    forall k | r <= k < |s| ensures s[k] != EOF_CHAR && !IsClose(s, k) {
      HasAt(s, r, body + "}", k - r);
      if k + 1 < |s| {
        HasAt(s, r, body + "}", k + 1 - r);
      }
    }
    BodyEndIs(s, r);
  }

  lemma FileHas(body: Text, close: Text)
    ensures var s := Comment("}") + Defined(body, close);
            Has(s, 0, Comment("}")) && Has(s, 3, Defined(body, close)) && |s| == 22 + |body| + |close|
    ensures (Comment("}") + Defined(body, close))[1] == '}'
  {
    hide Defined;
    var s := Comment("}") + Defined(body, close);
    HasWhole(s);
    HasSplit(s, 0, Comment("}"), Defined(body, close));
    DefinedHas(s, 3, body, close);
  }

  /** The fifth call meets the block. */
  lemma UnclosedFileSeen(body: Text)
    requires IsBody(body)
    ensures var s := UnclosedFile(body);
            && |s| == 23 + |body| && s[|s| - 1] == '}'
            && UnclosedAt(s, State(19, [])) && SeenBy(s, |s|) == s + ['}']
  {
    hide Has, Defined, Lex, IsBody, TokenStart, SeenFrom;
    var s := UnclosedFile(body);
    FileHas(body, "}");
    DefinedHas(s, 3, body, "}");
    TokensBefore(s, body, "}");
    BlockStart(s, 19);
    NeverCloses(s, 22, body);
    assert Here(s, 16, false).lex == State(19, []);
    FourCalls(s, State(10, []), State(14, []), State(16, []), State(19, []));
    UnclosedSeen(s, START, [false, false, false, false]);
  }

  lemma FourCalls(s: Text, st1: State, st2: State, st3: State, st4: State)
    requires Lex(s, START, false).next == st1 && Lex(s, st1, false).next == st2
    requires Lex(s, st2, false).next == st3 && Lex(s, st3, false).next == st4
    ensures StateAfter(s, START, [false, false, false, false]) == st4
  {
    hide Lex;
    var f := [false];
    assert [false, false, false, false][1..] == [false, false, false] && [false, false, false][1..] == [false, false];
    assert [false, false][1..] == f && f[1..] == [];
    assert StateAfter(s, st3, f) == st4;
    assert StateAfter(s, st2, [false, false]) == st4;
    assert StateAfter(s, st1, [false, false, false]) == st4;
  }

  lemma UnclosedHere(s: Text, p: nat, numIsText: bool)
    requires UnclosedAt(s, State(p, []))
    ensures Here(s, p, numIsText).tok.kind == Err
  {
    hide Span, SkipComments, BodyEnd;
  }

  /** Nothing can be read of the file as it is. */
  lemma UnclosedFileFails(body: Text)
    requires IsBody(body)
    ensures ParseFile(UnclosedFile(body)) == Program([], false)
  {
    hide Has, Defined, Lex, IsBody, UnclosedAt, SeenBy;
    var s := UnclosedFile(body);
    FileHas(body, "}");
    TokensBefore(s, body, "}");
    UnclosedFileSeen(body);
    UnclosedHere(s, 19, true);
    var dot := Here(s, 14, false);
    assert Advance(s, dot, true) == Here(s, 16, true) && Here(s, 16, true).tok.kind == Str;
    assert ParseType(s, dot).Done? && ParseType(s, dot).cur == Here(s, 19, true);
    NoTypes(s, dot, [], ParseType(s, dot).value);
    assert ParsePreview(s, Here(s, 10, false)).Fail?;
    assert ParseCommand(s, Here(s, 3, false)).Fail?;
  }

  lemma NoTypes(s: Text, c: Cursor, acc: seq<C.TypeSet>, t: C.TypeSet)
    requires |acc| < MAX_TYPES && c.tok.kind == Dot
    requires ParseType(s, c).Done? && ParseType(s, c).value == t && ParseType(s, c).cur.tok.kind == Err
    ensures ParseTypes(s, c, acc).Fail?
  {
    var c1 := ParseType(s, c).cur;
    TypesStep(s, c, acc, t, c1);
    assert ParseType(s, c1).Fail?;
  }

  /** With its last brace twice it is the definition. */
  lemma ClosedFileParses(body: Text)
    requires IsBody(body)
    ensures ParseFile(UnclosedFile(body) + ['}']) == Program([Definition(body)], true)
  {
    hide Has, Lex, IsBody, Comment, ParseCommand, Defined;
    var t, cmd := Comment("}") + Defined(body, "}}"), Definition(body);
    DefinitionPrinted(body);
    FileHas(body, "}}");
    DefinedHas(t, 3, body, "}}");
    TokensBefore(t, body, "}}");
    EofHere(t, |t|);
    EndOfFile(t);
    CommandParsed(t, 3, cmd, QUOTED);
    assert ParseCommands(t, Here(t, 3, false)) == Program([cmd], true);
  }

  lemma EndOfFile(t: Text)
    ensures CommandEnds(t, |t|) && Advance(t, Here(t, |t|, false), false).tok.kind == Eof
  {
    PastEof(t, Here(t, |t|, false));
    EofHere(t, |t|);
  }

  lemma DefinitionPrinted(body: Text)
    requires IsBody(body)
    ensures PrintCommand(Definition(body), QUOTED) == Defined(body, "}}") && Printable(Definition(body))
    ensures UnclosedFile(body) + ['}'] == Comment("}") + Defined(body, "}}")
  {
    hide Quote, Comment;
    var types := [C.TypeSet(None, None, Some("b"))];
    assert PrintTypes(types, QUOTED) == EXT by {
      assert types[1..] == [];
    }
    Assoc("{{", body, "}}");
    Appended(Comment("}"), "preview", " ", Quote("a"), EXT, " ", "{{", body);
    assert Quotable("a") && Quotable("b");
  }

  lemma Assoc(a: Text, b: Text, c: Text)
    ensures (a + b) + c == a + (b + c)
  {
  }

  lemma Appended(a: Text, b: Text, c: Text, d: Text, e: Text, f: Text, g: Text, body: Text)
    ensures a + (b + (c + (d + (e + (f + (g + (body + "}"))))))) + ['}']
            == a + (b + (c + (d + (e + (f + (g + (body + "}}")))))))
  {
    var x: Text := ['}'];
    var t := body + "}";
    assert t + x == body + "}}";
    Assoc(g, t, x);
    Assoc(f, g + t, x);
    Assoc(e, f + (g + t), x);
    Assoc(d, e + (f + (g + t)), x);
    Assoc(c, d + (e + (f + (g + t))), x);
    Assoc(b, c + (d + (e + (f + (g + t)))), x);
    Assoc(a, b + (c + (d + (e + (f + (g + t))))), x);
  }

  /**
   Of the very size of the window, whatever that is, the file is read as if its block
   were closed: nothing can be read of the file, and a preview is read of it.
   */
  lemma UnclosedPreviewRead(body: Text)
    requires IsBody(body)
    ensures var s := UnclosedFile(body);
            && |s| == 23 + |body| && s[|s| - 1] == '}' && ParseFile(s) == Program([], false)
            && ParseFile(SeenBy(s, |s|)) == Program([Definition(body)], true)
  {
    UnclosedFileSeen(body);
    UnclosedFileFails(body);
    ClosedFileParses(body);
  }

  /** If no number sign is in the body, the comment at the start is the only one there could be. */
  lemma UnclosedFileReadable(body: Text)
    requires '#' !in body
    ensures Readable(UnclosedFile(body), START)
  {
    hide Defined;
    var s := UnclosedFile(body);
    NoSign(body);
    forall q | 3 <= q < |s| ensures s[q] != '#' {
      assert s[q] == Defined(body, "}")[q - 3];
    }
    forall q | 0 <= q < |s| && s[q] == '#' ensures NewlineAhead(s, q) {
      assert s[2] == '\n' && q <= 2;
      NewlineAheadIff(s, q);
    }
    forall n: nat ensures CallsEnd(s, START, n) {
      CallsEndIf(s, START, n);
    }
  }

  lemma NoSign(body: Text)
    requires '#' !in body
    ensures '#' !in Defined(body, "}")
  {
  }
}
