/** How the file as it is seen through a window differs from the file itself. */
module SeenFacts {
  import opened Bytes
  import opened LexSpec
  import opened LexFacts
  import opened Windows

  // ---- Tokens before the end do not depend on a brace put there ----

  lemma {:induction false} SpanBefore(s: Text, x: Byte, p: nat, f: Byte -> bool)
    requires Span(s, p, f) < |s|
    ensures Span(s + [x], p, f) == Span(s, p, f)
    decreases |s| - p
  {
    if !IsNegative(At(s, p)) && f(At(s, p)) {
      SpanBefore(s, x, p + 1, f);
    }
  }

  lemma {:induction false} NewlineBefore(s: Text, x: Byte, p: nat)
    requires AfterNewline(s, p) < |s|
    ensures AfterNewline(s + [x], p) == AfterNewline(s, p)
    decreases |s| - p
  {
    if s[p] != '\n' {
      NewlineBefore(s, x, p + 1);
    }
  }

  lemma {:induction false} CommentsBefore(s: Text, x: Byte, p: nat)
    requires SkipComments(s, p) < |s|
    ensures SkipComments(s + [x], p) == SkipComments(s, p)
    decreases |s| - p
  {
    if At(s, p) == '#' {
      NewlineBefore(s, x, p);
      CommentsBefore(s, x, AfterNewline(s, p));
    }
  }

  lemma {:induction false} BodyBefore(s: Text, x: Byte, r: nat)
    requires BodyEnd(s, r) < |s|
    ensures BodyEnd(s + [x], r) == BodyEnd(s, r)
    decreases |s| - r
  {
    if At(s, r) != EOF_CHAR && !IsClose(s, r) {
      BodyBefore(s, x, r + 1);
    }
  }

  /** A byte that is no newline does not move positions, not even those after it. */
  lemma {:induction false} PlaceKept(s: Text, x: Byte, p: nat)
    requires x != '\n'
    ensures LineAt(s + [x], p) == LineAt(s, p) && ColAt(s + [x], p) == ColAt(s, p)
  {
    if p > 0 {
      PlaceKept(s, x, p - 1);
      assert At(s + [x], p - 1) == '\n' <==> At(s, p - 1) == '\n';
    }
  }

  lemma StartBefore(s: Text, x: Byte, p: nat)
    requires TokenStart(s, p) < |s|
    ensures TokenStart(s + [x], p) == TokenStart(s, p)
  {
    CommentsBefore(s, x, Span(s, p, IsBlank));
    SpanBefore(s, x, p, IsBlank);
  }

  lemma SliceBefore(s: Text, x: Byte, a: nat, b: nat)
    requires b <= |s|
    ensures Slice(s + [x], a, b) == Slice(s, a, b)
  {
  }

  lemma BlockBefore(s: Text, x: Byte, p: nat, r: nat)
    requires x != '\n' && ScanBlock(s, p, r).next.p < |s|
    ensures ScanBlock(s + [x], p, r) == ScanBlock(s, p, r)
  {
    hide BodyEnd, LineAt, ColAt, CString, Slice;
    PlaceKept(s, x, p);
    BodyBefore(s, x, r);
    SliceBefore(s, x, r, BodyEnd(s, r));
  }

  lemma SignedBefore(s: Text, x: Byte, p: nat, numIsText: bool)
    requires x != '\n' && ScanSigned(s, p, numIsText).next.p < |s|
    ensures ScanSigned(s + [x], p, numIsText) == ScanSigned(s, p, numIsText)
  {
    hide Span, ScanBlock, LineAt, ColAt, CString, Atoi, Slice;
    PlaceKept(s, x, p);
    var b := AfterMinus(s, p);
    if IsDigit(At(s, b)) {
      SpanBefore(s, x, b, IsDigit);
      SliceBefore(s, x, b, Span(s, b, IsDigit));
    } else if At(s, b) == '"' {
      SpanBefore(s, x, b + 1, IsNotQuote);
      SliceBefore(s, x, b + 1, Span(s, b + 1, IsNotQuote));
    } else if At(s, b) == '{' && At(s, b + 1) == '{' {
      BlockBefore(s, x, p, b + 2);
    }
  }

  /** A token that ends before the file does is not changed by what is put at its end. */
  lemma ScanBefore(s: Text, x: Byte, p: nat, numIsText: bool)
    requires x != '\n' && Scan(s, p, numIsText).next.p < |s|
    ensures Scan(s + [x], p, numIsText) == Scan(s, p, numIsText)
  {
    hide Span, LineAt, ColAt, Slice, ScanSigned;
    PlaceKept(s, x, p);
    var c := At(s, p);
    if c == '\n' {
      SpanBefore(s, x, p, IsNewline);
    } else if IsAlpha(c) {
      SpanBefore(s, x, p, IsSymbol);
      SliceBefore(s, x, p, Span(s, p, IsSymbol));
    } else if Scan(s, p, numIsText) == ScanSigned(s, p, numIsText) {
      SignedBefore(s, x, p, numIsText);
    }
  }

  // ---- When the file is seen otherwise ----

  /** The last byte is a brace, and the window has the same brace in its second place. */
  predicate BraceTwice(s: Text, size: nat)
  {
    && 1 < size <= |s|
    && (s[|s| - 1] == '{' || s[|s| - 1] == '}')
    && s[|s| - size + 1] == s[|s| - 1]
  }

  /** The file `s` is seen with its last byte, a brace, twice. */
  predicate SeenTwice(s: Text, size: nat, seen: Text)
  {
    BraceTwice(s, size) && seen == WithLast(s, true)
  }

  lemma {:induction false} BodyMisreadShape(s: Text, size: nat, e: nat, p: nat)
    requires BodyMisread(s, size, e, p)
    ensures p < |s| && BraceTwice(s, size) && s[|s| - 1] == '}'
    ensures BodyEnd(s, p) == |s|
    decreases |s| - p
  {
    if p + 1 != |s| {
      BodyMisreadShape(s, size, BodyLook(s, size, e, p), p + 1);
    }
  }

  /** A misread call starts at a block that is not closed, or at a brace alone at the end of the file. */
  lemma ScanMisreadShape(s: Text, size: nat, e: nat, p: nat)
    requires ScanMisread(s, size, e, p)
    ensures BraceTwice(s, size)
    ensures var b := AfterMinus(s, p);
            && b < |s| && s[b] == '{'
            && if s[|s| - 1] == '{' then b + 1 == |s|
               else b + 2 < |s| && s[b + 1] == '{' && BodyEnd(s, b + 2) == |s|
  {
    var b := AfterMinus(s, p);
    if b + 1 != |s| {
      BodyMisreadShape(s, size, PairLook(s, size, Walk(size, e, p, b), b, BLOCK_OPEN), b + 2);
    }
  }

  /** If a call from `st` on is misread, there is something left to read, and the last brace is seen twice. */
  lemma {:induction false} SeenShape(s: Text, size: nat, e: nat, st: State)
    requires SeenFrom(s, size, e, st) != s
    ensures st.p < |s| && BraceTwice(s, size) && SeenFrom(s, size, e, st) == WithLast(s, true)
    decreases Left(s, st)
  {
    if CallMisread(s, size, e, st) {
      ScanMisreadShape(s, size, StartWindow(s, size, e, st.p), TokenStart(s, st.p));
    } else {
      LexShrinks(s, st, false);
      SeenShape(s, size, CallWindow(s, size, e, st), Lex(s, st, false).next);
    }
  }

  /** Where a call leaves the reader does not depend on the option it is made under. */
  lemma NextModeFree(s: Text, st: State, numIsText: bool)
    ensures Lex(s, st, numIsText).next == Lex(s, st, false).next
  {
    hide Span, SkipComments, LineAt, ColAt, CString, Slice, Atoi, BodyEnd;
  }

  /** One call on the file as it is seen: the last brace counts twice for the call that misreads it, and for it only. */
  lemma SeenStep(s: Text, size: nat, e: nat, st: State, numIsText: bool)
    ensures var twice := CallMisread(s, size, e, st);
            var seen := SeenFrom(s, size, e, st);
            && Lex(seen, st, numIsText) == Lex(WithLast(s, twice), st, numIsText)
            && (twice ==> seen == WithLast(s, true))
            && (!twice ==> seen == SeenFrom(s, size, CallWindow(s, size, e, st), Lex(s, st, numIsText).next))
  {
    hide Lex, CallMisread, CallWindow, BraceTwice;
    var seen := SeenFrom(s, size, e, st);
    NextModeFree(s, st, numIsText);
    if CallMisread(s, size, e, st) {
      MisreadLeft(s, size, e, st);
    } else if Left(s, st) == 0 {
      LexShrinks(s, st, false);
    } else if seen != s {
      SeenShape(s, size, CallWindow(s, size, e, st), Lex(s, st, false).next);
      BraceTwiceLast(s, size);
      LexBefore(s, s[|s| - 1], st, numIsText);
    }
  }

  lemma BraceTwiceLast(s: Text, size: nat)
    requires BraceTwice(s, size)
    ensures s != [] && s[|s| - 1] != '\n'
  {
  }

  lemma MisreadLeft(s: Text, size: nat, e: nat, st: State)
    requires CallMisread(s, size, e, st)
    ensures Left(s, st) > 0
  {
    ScanMisreadShape(s, size, StartWindow(s, size, e, st.p), TokenStart(s, st.p));
  }

  lemma LexBefore(s: Text, x: Byte, st: State, numIsText: bool)
    requires x != '\n' && Lex(s, st, numIsText).next.p < |s|
    ensures Lex(s + [x], st, numIsText) == Lex(s, st, numIsText)
  {
    hide Scan, TokenStart;
    if st.queue == [] {
      ScanMoves(s, TokenStart(s, st.p), numIsText);
      StartBefore(s, x, st.p);
      ScanBefore(s, x, TokenStart(s, st.p), numIsText);
    }
  }

  /** What `st` leaves is seen as in `seen`: as foreseen, or a last brace was taken for two and nothing is left. */
  predicate Foreseen(s: Text, size: nat, e: nat, st: State, seen: Text)
  {
    seen == SeenFrom(s, size, e, st) || (st.p > |s| && SeenTwice(s, size, seen))
  }

  lemma PastEndSame(s: Text, size: nat, e: nat, st: State, seen: Text, numIsText: bool)
    requires st.p > |s| && SeenTwice(s, size, seen)
    ensures !CallMisread(s, size, e, st) && Lex(seen, st, numIsText) == Lex(s, st, numIsText)
    ensures Lex(seen, st, numIsText).next.p > |s|
  {
    hide LineAt, ColAt;
    if st.queue == [] {
      PlaceKept(s, s[|s| - 1], st.p);
    }
  }

  /** The token due by a call is that of the file with its last brace twice if this call misreads it. */
  lemma CallSeen(s: Text, size: nat, e: nat, st: State, seen: Text, numIsText: bool)
    requires Foreseen(s, size, e, st, seen)
    ensures Lex(seen, st, numIsText) == Lex(WithLast(s, CallMisread(s, size, e, st)), st, numIsText)
  {
    hide Lex, CallMisread, SeenTwice;
    if seen == SeenFrom(s, size, e, st) {
      SeenStep(s, size, e, st, numIsText);
    } else {
      PastEndSame(s, size, e, st, seen, numIsText);
    }
  }

  /** And what a call leaves is seen in the same way. */
  lemma CallForeseen(s: Text, size: nat, e: nat, st: State, seen: Text, numIsText: bool, e': nat, st': State)
    requires Foreseen(s, size, e, st, seen) && st' == Lex(seen, st, numIsText).next
    requires if CallMisread(s, size, e, st) then st'.p > |s| else e' == CallWindow(s, size, e, st)
    ensures Foreseen(s, size, e', st', seen)
    ensures st' == Lex(s, st, false).next || st'.p > |s|
  {
    hide Lex, CallMisread, CallWindow, SeenTwice, BraceTwice;
    if seen != SeenFrom(s, size, e, st) {
      PastEndSame(s, size, e, st, seen, numIsText);
    } else {
      SeenStep(s, size, e, st, numIsText);
      if CallMisread(s, size, e, st) {
        MisreadSeenTwice(s, size, e, st);
      }
    }
    NextModeFree(s, st, numIsText);
  }

  lemma MisreadSeenTwice(s: Text, size: nat, e: nat, st: State)
    requires CallMisread(s, size, e, st)
    ensures SeenTwice(s, size, WithLast(s, true))
  {
    ScanMisreadShape(s, size, StartWindow(s, size, e, st.p), TokenStart(s, st.p));
  }

  /** A call with nothing waiting reads from the token's start, wherever that is seen. */
  lemma FreshCall(s: Text, size: nat, e: nat, st: State, numIsText: bool)
    requires st.queue == []
    ensures var t := WithLast(s, CallMisread(s, size, e, st));
            Lex(t, st, numIsText) == Scan(t, TokenStart(s, st.p), numIsText)
  {
    hide Scan, ScanMisread, TokenStart;
    if CallMisread(s, size, e, st) {
      ScanMisreadShape(s, size, StartWindow(s, size, e, st.p), TokenStart(s, st.p));
      StartBefore(s, s[|s| - 1], st.p);
    }
  }

  // ---- What that does to the tokens ----

  /** A file is seen as it is unless it ends in a brace and the window repeats that brace. */
  lemma SeenIsFile(s: Text, size: nat)
    ensures SeenBy(s, size) == s || (BraceTwice(s, size) && SeenBy(s, size) == s + [s[|s| - 1]])
    ensures |s| < size ==> SeenBy(s, size) == s
    ensures s == [] || s[|s| - 1] == '\n' ==> SeenBy(s, size) == s
  {
    if SeenBy(s, size) != s {
      SeenShape(s, size, size, START);
    }
  }

  /** Equal but for their places. */
  predicate SameToken(a: Tok, b: Tok)
  {
    a.kind == b.kind && a.num == b.num && a.text == b.text
  }

  predicate SameTokens(a: seq<Tok>, b: seq<Tok>)
  {
    |a| == |b| && forall i :: 0 <= i < |a| ==> SameToken(a[i], b[i])
  }

  /**
   The window does not show in the tokens of a file, whatever the switching of the
   option, exactly if it does not make a closing brace at the end of the file two.
   */
  lemma UnseenIff(s: Text, size: nat)
    ensures (forall modes :: SameTokens(LexRun(SeenBy(s, size), START, modes), LexRun(s, START, modes)))
            <==> SeenBy(s, size) != s + ['}']
  {
    var seen := SeenBy(s, size);
    if seen == s + ['}'] {
      assert seen != s by { assert |seen| == |s| + 1; }
      SeenIsFile(s, size);
      assert seen[|s|] == s[|s| - 1];
      var modes := MisreadIsError(s, size, size, START);
      assert !SameToken(LexRun(seen, START, modes)[|modes| - 1], LexRun(s, START, modes)[|modes| - 1]);
    } else {
      SeenIsFile(s, size);
      forall modes ensures SameTokens(LexRun(seen, START, modes), LexRun(s, START, modes)) {
        if seen == s {
          SameIfSame(LexRun(s, START, modes));
        } else {
          OpeningBraceHarmless(s, size, size, START, modes);
        }
      }
    }
  }

  lemma SameIfSame(toks: seq<Tok>)
    ensures SameTokens(toks, toks)
  {
  }

  /**
   If the file is seen otherwise, some call finds an error in the file as it is; where a
   closing brace is seen twice, that call delivers a closed block instead.
   */
  lemma {:induction false} MisreadIsError(s: Text, size: nat, e: nat, st: State) returns (modes: seq<bool>)
    requires SeenFrom(s, size, e, st) != s
    ensures var seen := SeenFrom(s, size, e, st);
            && s != [] && modes != [] && |LexRun(seen, st, modes)| == |LexRun(s, st, modes)| == |modes|
            && LexRun(s, st, modes)[|modes| - 1].kind == Err
            && (s[|s| - 1] == '}' ==> LexRun(seen, st, modes)[|modes| - 1].kind == BlkOpen)
    decreases Left(s, st)
  {
    hide CallMisread, CallWindow, Lex, BraceTwice;
    var seen := SeenFrom(s, size, e, st);
    SeenStep(s, size, e, st, false);
    if CallMisread(s, size, e, st) {
      modes := [false];
      MisreadCall(s, size, e, st, false);
      OneToken(seen, st);
      OneToken(s, st);
    } else {
      LexShrinks(s, st, false);
      var r := Lex(s, st, false);
      var rest := MisreadIsError(s, size, CallWindow(s, size, e, st), r.next);
      modes := [false] + rest;
      assert modes[1..] == rest;
    }
  }

  ghost predicate FindsNoError(s: Text)
  {
    forall modes, i :: 0 <= i < |LexRun(s, START, modes)| ==> LexRun(s, START, modes)[i].kind != Err
  }

  /** So a file in which no call finds an error is seen as it is through every window. */
  lemma CleanFileSeen(s: Text, size: nat)
    ensures FindsNoError(s) ==> SeenBy(s, size) == s
  {
    if SeenBy(s, size) != s {
      var modes := MisreadIsError(s, size, size, START);
      assert LexRun(s, START, modes)[|modes| - 1].kind == Err;
    }
  }

  lemma OneToken(s: Text, st: State)
    ensures LexRun(s, st, [false]) == [Lex(s, st, false).tok]
  {
    assert LexRun(s, Lex(s, st, false).next, [false][1..]) == [];
  }

  /** The call that sees the last brace twice. */
  lemma MisreadCall(s: Text, size: nat, e: nat, st: State, numIsText: bool)
    requires CallMisread(s, size, e, st)
    ensures s != []
    ensures var seen, plain := Lex(WithLast(s, true), st, numIsText), Lex(s, st, numIsText);
            && plain.tok.kind == Err
            && if s[|s| - 1] == '}' then seen.tok.kind == BlkOpen
               else
                 && SameToken(seen.tok, plain.tok)
                 && Left(WithLast(s, true), seen.next) == 0 && Left(s, plain.next) == 0
  {
    hide Span, SkipComments, LineAt, ColAt, CString, Slice, BodyEnd, BlockMisread;
    var p := TokenStart(s, st.p);
    ScanMisreadShape(s, size, StartWindow(s, size, e, st.p), p);
    StartBefore(s, s[|s| - 1], st.p);
    if s[|s| - 1] == '}' {
      ClosedBySeen(s, AfterMinus(s, p) + 2);
    }
  }

  lemma {:induction false} ClosedBySeen(s: Text, r: nat)
    requires s != [] && s[|s| - 1] == '}' && r < |s| && BodyEnd(s, r) == |s|
    ensures BodyEnd(s + ['}'], r) == |s| - 1
    decreases |s| - r
  {
    if r + 1 < |s| {
      ClosedBySeen(s, r + 1);
    }
  }

  /** An opening brace seen twice is an error either way, and the last thing in the file. */
  lemma {:induction false} OpeningBraceHarmless(s: Text, size: nat, e: nat, st: State, modes: seq<bool>)
    requires SeenFrom(s, size, e, st) == s + ['{']
    ensures SameTokens(LexRun(s + ['{'], st, modes), LexRun(s, st, modes))
    decreases |modes|
  {
    hide CallMisread, CallWindow, Lex, BraceTwice;
    if modes != [] {
      var seen := s + ['{'];
      assert seen != s by { assert |seen| == |s| + 1; }
      var r := Lex(s, st, modes[0]);
      SeenStep(s, size, e, st, modes[0]);
      SeenShape(s, size, e, st);
      if CallMisread(s, size, e, st) {
        assert seen[|s|] == s[|s| - 1];
        MisreadCall(s, size, e, st, modes[0]);
        EofAbsorbs(seen, Lex(seen, st, modes[0]).next, modes[1..]);
        EofAbsorbs(s, r.next, modes[1..]);
      } else {
        OpeningBraceHarmless(s, size, CallWindow(s, size, e, st), r.next, modes[1..]);
      }
    }
  }

  // ---- A window of just the size of the file ----

  /** The call made at `st` meets a block that is never closed. */
  predicate UnclosedAt(s: Text, st: State)
  {
    var b := OpensAt(s, st.p);
    st.queue == [] && At(s, b) == '{' && At(s, b + 1) == '{' && BodyEnd(s, b + 2) == |s|
  }

  ghost predicate MeetsUnclosed(s: Text)
  {
    exists modes :: UnclosedAt(s, StateAfter(s, START, modes))
  }

  lemma {:induction false} WalkInside(size: nat, p: nat, q: nat)
    requires q < size
    ensures Walk(size, size, p, q) == size
  {
    if p < q {
      WalkInside(size, p, q - 1);
    }
  }

  /** A body read to the end of the file: all looks but the last stay inside the window. */
  lemma {:induction false} UnclosedBodyMisread(s: Text, p: nat)
    requires |s| > 2 && s[1] == s[|s| - 1] == '}' && p < |s| && BodyEnd(s, p) == |s|
    ensures BodyMisread(s, |s|, |s|, p)
    decreases |s| - p
  {
    if p + 1 < |s| {
      UnclosedBodyMisread(s, p + 1);
    }
  }

  lemma {:induction false} BodyInside(s: Text, p: nat)
    requires BodyEnd(s, p) + 2 < |s| || (At(s, BodyEnd(s, p)) == EOF_CHAR && BodyEnd(s, p) < |s|)
    ensures BodyWindow(s, |s|, |s|, p) == |s|
    decreases |s| - p
  {
    if At(s, p) != EOF_CHAR && !IsClose(s, p) {
      BodyInside(s, p + 1);
    }
  }

  /** A call that ends before the file does has no refill to make. */
  lemma CallInside(s: Text, st: State)
    requires Lex(s, st, false).next.p < |s|
    ensures CallWindow(s, |s|, |s|, st) == |s|
  {
    hide BodyWindow, Span, SkipComments, Walk, LineAt, ColAt, CString, Slice, Atoi, BodyEnd;
    if st.queue == [] {
      var start := TokenStart(s, st.p);
      var b := AfterMinus(s, start);
      ScanMoves(s, start, false);
      WalkInside(|s|, st.p, start);
      WalkInside(|s|, start, Scan(s, start, false).next.p);
      if At(s, b) == '{' {
        WalkInside(|s|, start, b);
        if At(s, b + 1) == '{' {
          BodyInside(s, b + 2);
        }
      }
    }
  }

  lemma UnclosedMisread(s: Text, st: State)
    requires |s| > 2 && s[1] == s[|s| - 1] == '}' && UnclosedAt(s, st)
    ensures CallMisread(s, |s|, |s|, st)
  {
    hide Walk, BodyMisread, Span, SkipComments;
    var start := TokenStart(s, st.p);
    var b := AfterMinus(s, start);
    WalkInside(|s|, st.p, start);
    WalkInside(|s|, start, b);
    if b + 2 < |s| {
      UnclosedBodyMisread(s, b + 2);
    }
  }

  lemma {:induction false} ReadsOn(s: Text, st: State, modes: seq<bool>)
    ensures StateAfter(s, st, modes).p >= st.p
    decreases |modes|
  {
    hide Scan, Span, SkipComments;
    if modes != [] {
      if st.queue == [] {
        ScanMoves(s, TokenStart(s, st.p), modes[0]);
      }
      ReadsOn(s, Lex(s, st, modes[0]).next, modes[1..]);
    }
  }

  lemma {:induction false} UnclosedSeen(s: Text, st: State, modes: seq<bool>)
    requires |s| > 2 && s[1] == s[|s| - 1] == '}' && UnclosedAt(s, StateAfter(s, st, modes))
    ensures SeenFrom(s, |s|, |s|, st) == s + ['}']
    decreases |modes|
  {
    hide Lex, CallMisread, CallWindow, UnclosedAt;
    UnclosedInFile(s, StateAfter(s, st, modes));
    ReadsOn(s, st, modes);
    if modes == [] {
      UnclosedMisread(s, st);
    } else if !CallMisread(s, |s|, |s|, st) {
      var next := Lex(s, st, false).next;
      NextModeFree(s, st, modes[0]);
      ReadsOn(s, next, modes[1..]);
      CallInside(s, st);
      UnclosedSeen(s, next, modes[1..]);
    }
  }

  lemma UnclosedInFile(s: Text, st: State)
    requires UnclosedAt(s, st)
    ensures st.p < |s|
  {
  }

  lemma {:induction false} MisreadUnclosed(s: Text, size: nat, e: nat, st: State) returns (modes: seq<bool>)
    requires SeenFrom(s, size, e, st) != s && s != [] && s[|s| - 1] == '}'
    ensures UnclosedAt(s, StateAfter(s, st, modes))
    decreases Left(s, st)
  {
    hide CallWindow, Lex, BraceTwice, ScanMisread, TokenStart;
    modes := [];
    if CallMisread(s, size, e, st) {
      ScanMisreadShape(s, size, StartWindow(s, size, e, st.p), TokenStart(s, st.p));
    } else {
      LexShrinks(s, st, false);
      var rest := MisreadUnclosed(s, size, CallWindow(s, size, e, st), Lex(s, st, false).next);
      modes := [false] + rest;
      assert modes[1..] == rest;
    }
  }

  /**
   A window of just the size of the file makes a closing brace at its end two exactly if
   some call meets a block that is never closed and the second byte is such a brace too.
   */
  lemma WholeFileSeenIff(s: Text)
    requires |s| > 2
    ensures SeenBy(s, |s|) == s + ['}'] <==> s[1] == '}' && s[|s| - 1] == '}' && MeetsUnclosed(s)
  {
    hide UnclosedAt, StateAfter;
    if s[1] == s[|s| - 1] == '}' && MeetsUnclosed(s) {
      var modes :| UnclosedAt(s, StateAfter(s, START, modes));
      UnclosedSeen(s, START, modes);
    }
    if SeenBy(s, |s|) == s + ['}'] {
      assert SeenBy(s, |s|) != s by { assert |SeenBy(s, |s|)| == |s| + 1; }
      SeenIsFile(s, |s|);
      assert (s + ['}'])[|s|] == s[|s| - 1];
      var modes := MisreadUnclosed(s, |s|, |s|, START);
    }
  }
}
