/** Whole runs of the buffered lexer. */
module LexerRuns {
  import opened Bytes
  import opened LexSpec
  import opened LexFacts
  import opened Windows
  import opened SeenFacts
  import opened InputBuffers
  import opened Lexers
  import opened UnrolledLists

  function NumModes(modes: seq<LexerOpts>): seq<bool>
  {
    seq(|modes|, i requires 0 <= i < |modes| => modes[i].NumIsText?)
  }

  /**
   Reads one token under each of the given options, keeping every token with its
   pointer, and looks at the texts only when all reading is done. Whatever the size of
   the window, the result is that of the specification for the file as it is seen, and
   no text handed out early has changed by the end. Where the file is seen as it is,
   which is where `SeenFacts` says, refills do not show at all.
   */
  method ReadAll(data: Text, size: nat, modes: seq<LexerOpts>) returns (vals: seq<Tok>)
    requires size >= 3 && CallsEnd(data, START, |modes|)
    ensures vals == LexRun(SeenBy(data, size), START, NumModes(modes))
  {
    hide Lexer.Ready, Lexer.QueueOk, Lex, CallEnds, CallsEnd, Foreseen, SeenBy, Lexer.Edge;
    ghost var all, seen := NumModes(modes), SeenBy(data, size);
    var f := new InFile(data);
    var lexer := new Lexer(f, size);
    var toks: seq<Token> := [];
    ghost var got: seq<Tok> := [];
    for i := 0 to |modes|
      invariant lexer.Valid() && fresh(lexer.Repr()) && lexer.D() == data && lexer.seen == seen
      invariant CallsEnd(data, lexer.State(), |modes| - i)
      invariant |toks| == |got| == i
      invariant AllDenote(toks, got, lexer.textBuf.runs)
      invariant got + LexRun(seen, lexer.State(), all[i..]) == LexRun(seen, START, all)
    {
      RunStep(seen, lexer.State(), all, i, got);
      toks, got := ReadNext(lexer, modes[i], toks, got, |modes| - i - 1);
    }
    assert all[|modes|..] == [];
    vals := DerefAll(lexer, toks, got);
  }

  /** One more token, under the given option; those read before stay what they are. */
  method ReadNext(lexer: Lexer, mode: LexerOpts, toks: seq<Token>, ghost got: seq<Tok>, ghost left: nat)
    returns (more: seq<Token>, ghost gotMore: seq<Tok>)
    requires lexer.Valid() && CallsEnd(lexer.D(), lexer.State(), left + 1)
    requires |toks| == |got| && AllDenote(toks, got, lexer.textBuf.runs)
    modifies lexer.Repr()
    ensures lexer.Valid() && fresh(lexer.Repr() - old(lexer.Repr()))
    ensures CallsEnd(lexer.D(), lexer.State(), left)
    ensures |more| == |toks| + 1 == |gotMore| && AllDenote(more, gotMore, lexer.textBuf.runs)
    ensures var r := Lex(lexer.seen, old(lexer.State()), mode.NumIsText?);
            lexer.State() == r.next && gotMore == got + [r.tok]
  {
    hide Lexer.Ready, Lexer.QueueOk, Lex, CallEnds, CallsEnd, Foreseen, Lexer.Edge, Denotes;
    lexer.SetOpts(mode);
    ghost var r, runs := Lex(lexer.seen, lexer.State(), mode.NumIsText?), lexer.textBuf.runs;
    ReadableNext(lexer.D(), lexer.State(), left);
    ghost var next := Lex(lexer.D(), lexer.State(), false).next;
    var tok := lexer.GetToken();
    if lexer.State() != next {
      NothingMoreEnds(lexer.D(), lexer.State(), left);
    }
    DenoteMore(toks, got, runs, tok, r.tok, lexer.textBuf.runs);
    more, gotMore := toks + [tok], got + [r.tok];
  }

  /**
   A file whose first token is a block that is never closed, with a brace in its second
   and its last place, read through a window of just its size: a closed block is
   delivered, where the file has an error.
   */
  method UnclosedReadClosed(file: Text) returns (vals: seq<Tok>)
    requires |file| > 2 && file[1] == file[|file| - 1] == '}' && UnclosedAt(file, START)
    ensures OpensAt(file, 0) + 2 < |file|
    ensures |vals| == 3 && vals[0].kind == BlkOpen && vals[1].kind == Str && vals[2].kind == BlkCls
    ensures vals[1].text == CString(file[OpensAt(file, 0) + 2..|file| - 1])
    ensures LexRun(file, START, [false])[0].kind == Err
  {
    hide LexRun, Lex, CallsEnd, SeenFrom, UnclosedAt, CString, OpensAt;
    UnclosedCalls(file);
    UnclosedSeen(file, START, []);
    vals := ReadAll(file, |file|, [NoOpts, NoOpts, NoOpts]);
    UnclosedTokens(file, NumModes([NoOpts, NoOpts, NoOpts]));
  }

  lemma UnclosedCalls(file: Text)
    requires UnclosedAt(file, START)
    ensures CallsEnd(file, START, 3)
  {
    hide Span, SkipComments, BodyEnd;
    CommentsEndBefore(file, Span(file, 0, IsBlank));
    NothingMoreEnds(file, Lex(file, START, false).next, 2);
    assert CallEnds(file, START);
  }

  lemma UnclosedTokens(file: Text, modes: seq<bool>)
    requires |file| > 2 && file[|file| - 1] == '}' && UnclosedAt(file, START) && |modes| == 3
    ensures OpensAt(file, 0) + 2 < |file|
    ensures var toks := LexRun(file + ['}'], START, modes);
            && |toks| == 3 && toks[0].kind == BlkOpen && toks[1].kind == Str && toks[2].kind == BlkCls
            && toks[1].text == CString(file[OpensAt(file, 0) + 2..|file| - 1])
    ensures LexRun(file, START, [false])[0].kind == Err
  {
    hide LexRun, CString, Span, SkipComments, BodyEnd;
    var seen, b, last := file + ['}'], OpensAt(file, 0), |file| - 1;
    StartBefore(file, '}', 0);
    assert FirstClose(seen, b + 2, last) by {
      forall j | b + 2 <= j < last ensures At(seen, j) != EOF_CHAR && !IsClose(seen, j) {
        assert seen[j] == file[j] && seen[j + 1] == file[j + 1];
        assert file[j] != EOF_CHAR && !IsClose(file, j);
      }
    }
    BlockDelivery(seen, 0, last, modes);
    assert seen[b + 2..last] == file[b + 2..last];
    OneToken(file, START);
  }

  ghost predicate AllDenote(toks: seq<Token>, got: seq<Tok>, runs: set<Run<Byte>>)
    requires |toks| == |got|
  {
    forall j :: 0 <= j < |toks| ==> Denotes(toks[j], got[j], runs)
  }

  lemma DenoteMore(toks: seq<Token>, got: seq<Tok>, runs: set<Run<Byte>>,
                   tok: Token, v: Tok, runs': set<Run<Byte>>)
    requires |toks| == |got| && AllDenote(toks, got, runs)
    requires runs <= runs' && Denotes(tok, v, runs')
    ensures AllDenote(toks + [tok], got + [v], runs')
  {
  }

  lemma RunStep(data: Text, st: State, all: seq<bool>, i: nat, got: seq<Tok>)
    requires i < |all|
    ensures var r := Lex(data, st, all[i]);
            got + LexRun(data, st, all[i..]) == got + [r.tok] + LexRun(data, r.next, all[i + 1..])
  {
    assert all[i..][0] == all[i] && all[i..][1..] == all[i + 1..];
  }

  /** Looks up the texts of tokens delivered at any time before. */
  method DerefAll(lexer: Lexer, toks: seq<Token>, ghost got: seq<Tok>) returns (vals: seq<Tok>)
    requires lexer.Ready() && |toks| == |got|
    requires AllDenote(toks, got, lexer.textBuf.runs)
    ensures vals == got
  {
    hide Lexer.Ready, Reads;
    vals := [];
    for i := 0 to |toks|
      invariant |vals| == i && vals == got[..i]
    {
      assert Denotes(toks[i], got[i], lexer.textBuf.runs);
      var text: Text := [];
      if toks[i].kind == Str {
        text := lexer.Deref(toks[i].s, got[i].text);
      }
      vals := vals + [Tok(toks[i].kind, toks[i].line, toks[i].col, toks[i].i, text)];
    }
    assert got[..|toks|] == got;
  }
}
