/** What the lexer's specification promises over whole runs. */
module LexFacts {
  import opened Bytes
  import opened LexSpec

  // ---- Progress and termination ----

  /** Bytes left to read plus tokens left to deliver. */
  function Left(s: Text, st: State): nat
  {
    |st.queue| + if st.p < |s| then |s| - st.p else 0
  }

  /** Every scan moves on; a closed block takes at least four bytes for its three tokens. */
  lemma ScanMoves(s: Text, p: nat, numIsText: bool)
    ensures var r := Scan(s, p, numIsText);
            && p < r.next.p
            && (r.next.queue != [] ==> |r.next.queue| == 2 && p + 4 <= r.next.p <= |s|)
            && (At(s, p) == EOF_CHAR ==> r.tok == Tok(Eof, r.tok.line, r.tok.col, 0, []) && r.next.queue == [])
  {
  }

  /** Every call delivers a queued token, or consumes a byte, or is at the end of the file and says so. */
  lemma LexShrinks(s: Text, st: State, numIsText: bool)
    ensures var r := Lex(s, st, numIsText);
            if Left(s, st) == 0 then r.tok == Tok(Eof, r.tok.line, r.tok.col, 0, []) && Left(s, r.next) == 0
            else Left(s, r.next) < Left(s, st)
  {
    hide Scan, Span, SkipComments;
    if st.queue == [] {
      ScanMoves(s, TokenStart(s, st.p), numIsText);
    }
  }

  /** Strictly growing from call to call: how far reading has come. */
  function Progress(st: State): int
  {
    3 * st.p - |st.queue|
  }

  lemma LexProgresses(s: Text, st: State, numIsText: bool)
    ensures Progress(Lex(s, st, numIsText).next) > Progress(st)
  {
    hide Scan, Span, SkipComments;
    if st.queue == [] {
      ScanMoves(s, TokenStart(s, st.p), numIsText);
    }
  }

  function NonEofs(toks: seq<Tok>): nat
  {
    if toks == [] then 0 else (if toks[0].kind == Eof then 0 else 1) + NonEofs(toks[1..])
  }

  /** However the lexer option is switched, n bytes make at most n tokens before the end of file. */
  lemma {:induction false} TokenBound(s: Text, st: State, modes: seq<bool>)
    ensures NonEofs(LexRun(s, st, modes)) <= Left(s, st)
    decreases |modes|
  {
    if modes != [] {
      var r := Lex(s, st, modes[0]);
      LexShrinks(s, st, modes[0]);
      TokenBound(s, r.next, modes[1..]);
      assert LexRun(s, st, modes)[1..] == LexRun(s, r.next, modes[1..]);
    }
  }

  /** End of file is delivered for ever. */
  lemma {:induction false} EofAbsorbs(s: Text, st: State, modes: seq<bool>)
    requires Left(s, st) == 0
    ensures |LexRun(s, st, modes)| == |modes|
    ensures forall tok :: tok in LexRun(s, st, modes) ==> tok == Tok(Eof, tok.line, tok.col, 0, [])
    decreases |modes|
  {
    if modes != [] {
      LexShrinks(s, st, modes[0]);
      EofAbsorbs(s, Lex(s, st, modes[0]).next, modes[1..]);
    }
  }

  /** In no reachable state does the ring hold more than two of its sixteen tokens. */
  lemma {:induction false} RingNeverFull(s: Text, st: State, modes: seq<bool>)
    requires |st.queue| <= 2
    ensures |StateAfter(s, st, modes).queue| <= 2
    decreases |modes|
  {
    if modes != [] {
      RingNeverFull(s, Lex(s, st, modes[0]).next, modes[1..]);
    }
  }

  // ---- Blocks ----

  /** The first "}}" at or after `b`, with no end of file on the way. */
  ghost predicate FirstClose(s: Text, b: nat, q: nat)
  {
    b <= q && IsClose(s, q) && forall j :: b <= j < q ==> At(s, j) != EOF_CHAR && !IsClose(s, j)
  }

  /** Where a block may open that is the next token; a minus sign before it is lost. */
  function OpensAt(s: Text, p: nat): nat
  {
    AfterMinus(s, TokenStart(s, p))
  }

  /** A closed block is delivered as its opening braces, the body up to the first "}}", its closing braces. */
  lemma BlockDelivery(s: Text, p: nat, q: nat, modes: seq<bool>)
    requires |modes| == 3
    requires At(s, OpensAt(s, p)) == '{' && At(s, OpensAt(s, p) + 1) == '{'
    requires FirstClose(s, OpensAt(s, p) + 2, q)
    ensures q <= |s|
    ensures var toks := LexRun(s, State(p, []), modes);
            && |toks| == 3 && toks[0].kind == BlkOpen
            && toks[1].kind == Str && toks[1].text == CString(s[OpensAt(s, p) + 2..q])
            && toks[2].kind == BlkCls
    ensures StateAfter(s, State(p, []), modes) == State(q + 2, [])
  {
    hide LexRun, StateAfter;
    BodyEndIsFirst(s, OpensAt(s, p) + 2, q);
    var r0 := Lex(s, State(p, []), modes[0]);
    assert r0.tok.kind == BlkOpen;
    ThreeTokens(s, State(p, []), modes);
  }

  lemma ThreeTokens(s: Text, st: State, modes: seq<bool>)
    requires |modes| == 3 && |Lex(s, st, modes[0]).next.queue| == 2
    ensures var r := Lex(s, st, modes[0]);
            && LexRun(s, st, modes) == [r.tok] + r.next.queue
            && StateAfter(s, st, modes) == State(r.next.p, [])
  {
    var r0 := Lex(s, st, modes[0]);
    var r1 := Lex(s, r0.next, modes[1]);
    var r2 := Lex(s, r1.next, modes[2]);
    assert modes[1..][0] == modes[1] && modes[1..][1..] == [modes[2]];
    assert LexRun(s, r1.next, [modes[2]]) == [r2.tok];
    assert LexRun(s, r0.next, modes[1..]) == [r1.tok] + [r2.tok];
    assert StateAfter(s, r1.next, [modes[2]]) == r2.next;
  }

  lemma {:induction false} BodyEndIsFirst(s: Text, b: nat, q: nat)
    requires FirstClose(s, b, q)
    ensures BodyEnd(s, b) == q
    decreases q - b
  {
    if b < q {
      BodyEndIsFirst(s, b + 1, q);
    }
  }

  // ---- Comments ----

  predicate LineStart(s: Text, p: nat, k: nat)
  {
    k == p || (0 < k <= |s| && s[k - 1] == '\n')
  }

  /** What is skipped before a token is a number of whole lines, each starting with a number sign. */
  lemma {:induction false} SkippedAreComments(s: Text, p: nat)
    requires CommentsEnd(s, p)
    ensures var q := SkipComments(s, p);
            && LineStart(s, p, q) && At(s, q) != '#'
            && forall k :: p <= k < q && LineStart(s, p, k) ==> s[k] == '#'
    decreases |s| - p
  {
    if At(s, p) == '#' {
      var r := AfterNewline(s, p);
      SkippedAreComments(s, r);
      forall k | p <= k < SkipComments(s, p) && LineStart(s, p, k) ensures s[k] == '#' {
        assert k > r ==> LineStart(s, r, k);
      }
    }
  }

  // ---- Positions ----

  /** The line is one more than the newlines before, the column one more than the distance from the last one. */
  lemma {:induction false} PositionMeaning(s: Text, p: nat)
    requires p <= |s|
    ensures LineAt(s, p) == 1 + multiset(s[..p])['\n']
    ensures 1 <= ColAt(s, p) <= p + 1
    ensures var start := p + 1 - ColAt(s, p);
            (start == 0 || s[start - 1] == '\n') && '\n' !in s[start..p]
  {
    if p > 0 {
      PositionMeaning(s, p - 1);
      assert s[..p] == s[..p - 1] + [s[p - 1]];
      var start := p - ColAt(s, p - 1);
      assert s[start..p] == s[start..p - 1] + [s[p - 1]];
    }
  }

  lemma TokenPlace(s: Text, p: nat, numIsText: bool)
    ensures var start := TokenStart(s, p);
            var r := Lex(s, State(p, []), numIsText);
            && (r.tok.kind != Eof ==> start < |s|)
            && r.tok.line == LineAt(s, start) && r.tok.col == ColAt(s, start)
            && forall tok :: tok in r.next.queue ==> tok.line == r.tok.line && tok.col == r.tok.col
  {
    hide LineAt, ColAt, Span, SkipComments, BodyEnd, CString, Slice, Atoi;
  }

  /** Every token, queued ones included, carries the position of its first byte. */
  lemma TokenPosition(s: Text, p: nat, numIsText: bool)
    ensures var start := TokenStart(s, p);
            var r := Lex(s, State(p, []), numIsText);
            r.tok.kind != Eof ==>
              && start < |s|
              && r.tok.line == 1 + multiset(s[..start])['\n']
              && start + 1 - r.tok.col >= 0
              && (start + 1 == r.tok.col || s[start - r.tok.col] == '\n')
              && '\n' !in s[start + 1 - r.tok.col..start]
              && forall tok :: tok in r.next.queue ==> tok.line == r.tok.line && tok.col == r.tok.col
  {
    hide Lex, TokenStart, LineAt, ColAt;
    var start := TokenStart(s, p);
    TokenPlace(s, p, numIsText);
    if start <= |s| {
      PositionMeaning(s, start);
    }
  }

  // ---- The end of comments ----

  /** Where the inner comment loop leaves the reader if it ends within `n` rounds; a round reads one byte. */
  function CommentRounds(s: Text, p: nat, n: nat): Option<nat>
    decreases n
  {
    if n == 0 then None
    else if At(s, p) == '\n' then Some(p + 1)
    else CommentRounds(s, p + 1, n - 1)
  }

  /** If there is a newline ahead, the loop ends after it, in as many rounds as there are bytes up to it. */
  lemma {:induction false} CommentEnds(s: Text, p: nat)
    requires NewlineAhead(s, p)
    ensures CommentRounds(s, p, AfterNewline(s, p) - p) == Some(AfterNewline(s, p))
    decreases |s| - p
  {
    if s[p] != '\n' {
      CommentEnds(s, p + 1);
    }
  }

  /** If there is none, no number of rounds is enough. */
  lemma {:induction false} CommentNeverEnds(s: Text, p: nat, n: nat)
    requires !NewlineAhead(s, p)
    ensures CommentRounds(s, p, n) == None
    decreases n
  {
    if n > 0 {
      CommentNeverEnds(s, p + 1, n - 1);
    }
  }

  /** The comment loop ends exactly if the file has a newline ahead. */
  lemma CommentEndsIff(s: Text, p: nat)
    ensures (exists n :: CommentRounds(s, p, n).Some?) <==> NewlineAhead(s, p)
    ensures (exists k :: p <= k < |s| && s[k] == '\n') <==> NewlineAhead(s, p)
  {
    if NewlineAhead(s, p) {
      CommentEnds(s, p);
    } else {
      forall n ensures CommentRounds(s, p, n) == None {
        CommentNeverEnds(s, p, n);
      }
    }
    NewlineAheadIff(s, p);
  }

  lemma {:induction false} NewlineAheadIff(s: Text, p: nat)
    ensures NewlineAhead(s, p) <==> exists k :: p <= k < |s| && s[k] == '\n'
    decreases |s| - p
  {
    if p < |s| {
      NewlineAheadIff(s, p + 1);
    }
  }

  /** A file that is nothing but a number sign is never read to its end. */
  lemma EndlessComment(n: nat)
    ensures CommentRounds("#", 0, n) == None && !Readable("#", START)
  {
    assert !NewlineAhead("#", 0);
    CommentNeverEnds("#", 0, n);
    assert Span("#", 0, IsBlank) == 0;
    assert !CallsEnd("#", START, 1);
  }

  // ---- Which files are read to the end ----

  /** If every number sign has a newline after it, no comment is endless. */
  lemma {:induction false} CommentsEndIf(s: Text, p: nat)
    requires forall q :: p <= q < |s| && s[q] == '#' ==> NewlineAhead(s, q)
    ensures CommentsEnd(s, p)
    decreases |s| - p
  {
    if At(s, p) == '#' {
      CommentsEndIf(s, AfterNewline(s, p));
    }
  }

  lemma {:induction false} CallsEndIf(s: Text, st: State, n: nat)
    requires forall q :: 0 <= q < |s| && s[q] == '#' ==> NewlineAhead(s, q)
    ensures CallsEnd(s, st, n)
    decreases n
  {
    if n > 0 {
      CommentsEndIf(s, Span(s, st.p, IsBlank));
      CallsEndIf(s, Lex(s, st, false).next, n - 1);
    }
  }

  /** Nor is there one if a newline ends the file. */
  lemma NewlineTerminatedIsReadable(s: Text)
    requires s == [] || s[|s| - 1] == '\n'
    ensures Readable(s, START)
  {
    forall q | 0 <= q < |s| && s[q] == '#' ensures NewlineAhead(s, q) {
      NewlineAheadIff(s, q);
    }
    forall n: nat ensures CallsEnd(s, START, n) {
      CallsEndIf(s, START, n);
    }
  }

  /** Comments that are skipped before something else in the file have their newlines. */
  lemma {:induction false} CommentsEndBefore(s: Text, p: nat)
    requires SkipComments(s, p) < |s|
    ensures CommentsEnd(s, p)
    decreases |s| - p
  {
    if At(s, p) == '#' {
      if !NewlineAhead(s, p) {
        NoNewline(s, p);
      }
      CommentsEndBefore(s, AfterNewline(s, p));
    }
  }

  lemma {:induction false} NoNewline(s: Text, p: nat)
    requires !NewlineAhead(s, p) && p <= |s|
    ensures AfterNewline(s, p) == |s|
    decreases |s| - p
  {
    if p < |s| {
      NoNewline(s, p + 1);
    }
  }

  /** From `st` on, calls return until reading has come to `limit`. */
  ghost predicate CallsEndTo(s: Text, st: State, limit: int)
    decreases limit - Progress(st)
  {
    Progress(st) < limit ==>
      && CallEnds(s, st)
      && (LexProgresses(s, st, false); CallsEndTo(s, Lex(s, st, false).next, limit))
  }

  lemma {:induction false} ReadableTo(s: Text, st: State, limit: int)
    requires Readable(s, st)
    ensures CallsEndTo(s, st, limit)
    decreases limit - Progress(st)
  {
    if Progress(st) < limit {
      LexProgresses(s, st, false);
      assert CallsEnd(s, st, 1);
      forall n: nat ensures CallsEnd(s, Lex(s, st, false).next, n) {
        assert CallsEnd(s, st, n + 1);
      }
      ReadableTo(s, Lex(s, st, false).next, limit);
    }
  }

  /** A file whose calls all return stays so. */
  lemma ReadableNext(s: Text, st: State, n: nat)
    requires CallsEnd(s, st, n + 1)
    ensures CallEnds(s, st) && CallsEnd(s, Lex(s, st, false).next, n)
  {
  }

  lemma NextTo(s: Text, st: State, limit: int)
    requires CallsEndTo(s, st, limit)
    ensures Progress(st) < limit ==> CallEnds(s, st)
    ensures CallsEndTo(s, Lex(s, st, false).next, limit)
  {
    LexProgresses(s, st, false);
  }

  /** With nothing left to read, nothing can go wrong. */
  lemma {:induction false} NothingMoreEnds(s: Text, st: State, n: nat)
    requires st.p >= |s|
    ensures CallsEnd(s, st, n)
    decreases n
  {
    if n > 0 {
      NothingMoreEnds(s, Lex(s, st, false).next, n - 1);
    }
  }

  lemma NothingMoreTo(s: Text, st: State, limit: int)
    requires st.p >= |s|
    ensures CallsEndTo(s, st, limit)
  {
    forall n: nat ensures CallsEnd(s, st, n) {
      NothingMoreEnds(s, st, n);
    }
    ReadableTo(s, st, limit);
  }
}
