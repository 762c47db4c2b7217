/** The lexer of `src/lexer.c`: a buffered reader, a token ring and a store for text. */
module Lexers {
  import opened Bytes
  import opened LexSpec
  import opened LexFacts
  import opened Windows
  import opened SeenFacts
  import opened InputBuffers
  import opened UnrolledLists

  const RING: nat := 16

  datatype LexerOpts = NoOpts | NumIsText

  /** A token as the program has it: its text is a pointer into the text store. */
  datatype Token = Token(kind: Kind, line: nat, col: nat, i: int, s: Ptr<Byte>)

  /** The C string behind `p` is `t`, according to the strings handed out so far. */
  ghost predicate Reads(p: Ptr<Byte>, t: Text, runs: set<Run<Byte>>)
  {
    p.Into? && exists full :: Run(p, full) in runs && NUL in full && CString(full) == t
  }

  /** The token `v` of the specification, as a token of the program. */
  ghost predicate Denotes(tok: Token, v: Tok, runs: set<Run<Byte>>)
  {
    && tok.kind == v.kind && tok.line == v.line && tok.col == v.col && tok.i == v.num
    && if v.kind == Str then Reads(tok.s, v.text, runs) else v.text == []
  }

  lemma SliceGrows(s: Text, a: nat, b: nat, pre: Text)
    requires a <= b < |s|
    ensures Slice(s, a, b) + [s[b]] == Slice(s, a, b + 1)
    ensures pre + Slice(s, a, b) + [s[b]] == pre + Slice(s, a, b + 1)
  {
  }

  lemma SpanStep(s: Text, p: nat, f: Byte -> bool)
    ensures if !IsNegative(At(s, p)) && f(At(s, p)) then p < |s| && Span(s, p, f) == Span(s, p + 1, f)
            else Span(s, p, f) == p
  {
  }

  lemma SliceEmpty(s: Text, a: nat, pre: Text)
    ensures Slice(s, a, a) == [] && pre + Slice(s, a, a) == pre
  {
  }

  lemma TerminatedSlice(s: Text, a: nat, b: nat)
    ensures NUL in [] + Slice(s, a, b) + [NUL]
    ensures CString([] + Slice(s, a, b) + [NUL]) == CString(Slice(s, a, b))
  {
    assert [] + Slice(s, a, b) == Slice(s, a, b);
    CStringOfTerminated(Slice(s, a, b));
  }

  /**
   Reading the body that starts at `start` has come to `p`. The file is seen as `t`,
   with its last brace twice if the rest of the body is misread, which then holds for
   the whole of it; `w` is where the window will end.
   */
  ghost predicate InBody(s: Text, size: nat, t: Text, w: nat, start: nat, p: nat, e: nat)
  {
    && t == WithLast(s, BodyMisread(s, size, e, p)) && w == BodyWindow(s, size, e, p)
    && start <= p && (p <= |s| || p == start) && BodyEnd(t, p) == BodyEnd(t, start)
  }

  /** A look at `p` tells whether the body ends there. */
  lemma InBodyStep(s: Text, size: nat, t: Text, w: nat, start: nat, p: nat, e: nat)
    requires size > 2 && InBody(s, size, t, w, start, p, e)
    ensures At(t, p) == EOF_CHAR <==> At(s, p) == EOF_CHAR
    ensures start <= p && (At(s, p) != EOF_CHAR ==> p < |s| <= |t| && t[p] == s[p] == At(s, p))
    ensures At(s, p) != EOF_CHAR ==> (Pair(s, size, e, p, BLOCK_CLOSE) <==> IsClose(t, p))
    ensures if At(s, p) == EOF_CHAR || Pair(s, size, e, p, BLOCK_CLOSE) then
              BodyEnd(t, start) == p && (t == s ==> w == PairLook(s, size, e, p, BLOCK_CLOSE))
            else InBody(s, size, t, w, start, p + 1, BodyLook(s, size, e, p))
  {
  }

  /** The two bytes of a pair are in the window once they have been looked at. */
  lemma InsideWindow(s: Text, size: nat, e: nat, p: nat, w: Text)
    requires |w| == 2 && size > 2 && Pair(s, size, e, p, w)
    ensures var e1 := PairLook(s, size, e, p, w); p + 2 < e1 && Walk(size, e1, p, p + 2) == e1
  {
    var e1 := PairLook(s, size, e, p, w);
    assert Walk(size, e1, p, p + 1) == e1;
  }

  /** The body from `start` has been read as `text`, up to `p` past its closing braces or at the end of file. */
  ghost predicate BodyRead(s: Text, start: nat, p: nat, kind: Kind, text: Text)
  {
    var q := BodyEnd(s, start);
    text == Slice(s, start, q) && if At(s, q) == EOF_CHAR then kind == Eof && p == q else kind == BlkCls && p == q + 2
  }

  lemma BodyReadUp(s: Text, start: nat, p: nat)
    requires BodyEnd(s, start) == p && (At(s, p) == EOF_CHAR || IsClose(s, p))
    ensures At(s, p) == EOF_CHAR ==> BodyRead(s, start, p, Eof, Slice(s, start, p))
    ensures At(s, p) != EOF_CHAR ==> BodyRead(s, start, p + 2, BlkCls, Slice(s, start, p))
  {
  }

  /** What is left of an attempt to read a block at `p`: the kind of token it gives, and the state after it. */
  ghost predicate BlockRead(s: Text, p: nat, line: nat, col: nat, kind: Kind, st: LexSpec.State)
  {
    if At(s, p) == EOF_CHAR then kind == Err && st == LexSpec.State(p, [])
    else if At(s, p) == '{' && At(s, p + 1) == '{' then
      var q := BodyEnd(s, p + 2);
      if At(s, q) == EOF_CHAR then kind == Err && st == LexSpec.State(q, [])
      else
        && kind == BlkOpen
        && st == LexSpec.State(q + 2, [
             Tok(Str, line, col, 0, CString(Slice(s, p + 2, q))), Tok(BlkCls, line, col, 0, [])])
    else kind == Kind.Null && st == LexSpec.State(p, [])
  }

  /** No opening braces, no block. */
  lemma NoBlock(s: Text, size: nat, e: nat, b: nat, line: nat, col: nat)
    requires At(s, b) != EOF_CHAR && !Pair(s, size, e, b, BLOCK_OPEN)
    ensures !BlockMisread(s, size, e, b) && BlockRead(s, b, line, col, Kind.Null, LexSpec.State(b, []))
    ensures PairLook(s, size, e, b, BLOCK_OPEN) == BlockWindow(s, size, e, b)
  {
    hide CString, Slice, BodyMisread, BodyWindow, BodyEnd;
  }

  /** The body read after the opening braces, or at the end of the file instead of them, makes the block. */
  lemma BlockFromBody(s: Text, size: nat, e: nat, b: nat, line: nat, col: nat, q: nat, kind: Kind, text: Text)
    requires At(s, b) == EOF_CHAR || Pair(s, size, e, b, BLOCK_OPEN)
    requires var p, e1 := if At(s, b) == EOF_CHAR then b else b + 2, PairLook(s, size, e, b, BLOCK_OPEN);
             BodyRead(WithLast(s, BodyMisread(s, size, e1, p)), p, q, kind, text)
    ensures var p, e1 := if At(s, b) == EOF_CHAR then b else b + 2, PairLook(s, size, e, b, BLOCK_OPEN);
            var misread := BlockMisread(s, size, e, b);
            && (kind == Eof || (kind == BlkCls && At(s, b) != EOF_CHAR))
            && BlockRead(WithLast(s, misread), b, line, col, if kind == Eof then Err else BlkOpen,
                         LexSpec.State(q, if kind == Eof then [] else BlockQueue(text, line, col)))
            && (!misread ==> !BodyMisread(s, size, e1, p)
                             && BlockWindow(s, size, e, b) == BodyWindow(s, size, e1, p))
  {
    hide CString, Slice, BodyEnd;
    if At(s, b) == EOF_CHAR {
      NoBody(s, b);
    } else if b + 1 == |s| {
      NoBody(s, b + 2);
      NoBody(WithLast(s, true), b + 2);
    }
  }

  lemma NoBody(s: Text, p: nat)
    requires At(s, p) == EOF_CHAR
    ensures BodyEnd(s, p) == p
  {
  }

  /** The tokens of a closed block that wait in the ring. */
  function BlockQueue(text: Text, line: nat, col: nat): seq<Tok>
  {
    [Tok(Str, line, col, 0, CString(text)), Tok(BlkCls, line, col, 0, [])]
  }

  /** What an attempt to read a block makes of the token that starts at `p`. */
  lemma BlockForms(s: Text, p: nat, b: nat, kind: Kind, st: LexSpec.State)
    requires BlockRead(s, b, LineAt(s, p), ColAt(s, p), kind, st)
    ensures st.p >= b
    ensures var r := ScanOther(s, p, b);
            if kind != Kind.Null then
              kind != Str && r == Scanned(Tok(kind, LineAt(s, p), ColAt(s, p), 0, []), st)
            else
              && st == LexSpec.State(b, [])
              && r == if At(s, b) == '"' then
                        var q := Span(s, b + 1, IsNotQuote);
                        Worded(s, p, CString(Slice(s, b + 1, q)), q + 1)
                      else Plain(s, p, Err, b + 1)
  {
    hide Slice, Span, CString, LineAt, ColAt, BodyEnd;
  }

  predicate StartsPlain(c: Byte)
  {
    c == EOF_CHAR || c == '/' || c == '*' || c == '.' || c == '\n' || IsAlpha(c)
  }

  /** The window after a block or a string was read from `b` to `q`. */
  ghost function OtherWindow(s: Text, size: nat, e: nat, b: nat, q: nat): nat
  {
    if At(s, b) == '{' then BlockWindow(s, size, e, b) else Walk(size, e, b, q)
  }

  /** The same for a token with a sign before, from `p`. */
  ghost function SignedWindow(s: Text, size: nat, e: nat, p: nat, q: nat): nat
  {
    var b := AfterMinus(s, p);
    if At(s, b) == '{' then BlockWindow(s, size, Walk(size, e, p, b), b) else Walk(size, e, p, q)
  }

  /** Only a token that starts with a brace or a sign can be misread. */
  lemma PlainForms(s: Text, size: nat, e: nat, p: nat, numIsText: bool)
    ensures var misread := ScanMisread(s, size, e, p);
            var r := Scan(WithLast(s, misread), p, numIsText);
            if StartsPlain(At(s, p)) then
              !misread && ScanWindow(s, size, e, p) == Walk(size, e, p, r.next.p)
            else
              && At(s, p) != EOF_CHAR && r == ScanSigned(WithLast(s, misread), p, numIsText)
              && (!misread ==> ScanWindow(s, size, e, p) == SignedWindow(s, size, e, p, r.next.p))
  {
  }

  /** A number, or what is left to try after the sign. */
  lemma SignedForms(s: Text, size: nat, e: nat, p: nat, numIsText: bool)
    requires At(s, p) != EOF_CHAR
    ensures var b := AfterMinus(s, p);
            var misread := ScanMisread(s, size, e, p);
            var t := WithLast(s, misread);
            && misread == BlockMisread(s, size, Walk(size, e, p, b), b)
            && var r := ScanSigned(t, p, numIsText);
               if IsDigit(At(s, b)) then
                 var q := Span(s, b, IsDigit);
                 var digits := Slice(s, b, q);
                 && !misread && At(s, b) != '{'
                 && r == if numIsText then Worded(s, p, digits, q)
                         else Scanned(Tok(Int, LineAt(s, p), ColAt(s, p),
                                          if b == p then Atoi(digits) else -Atoi(digits), []), LexSpec.State(q, []))
               else r == ScanOther(t, p, b)
  {
    hide Span, Slice, Atoi, LineAt, ColAt, ScanOther, Walk, BodyMisread;
    var b := AfterMinus(s, p);
    SamePlace(s, size, Walk(size, e, p, b), b, b);
  }

  /** Where the window ends after the attempt to read a block, and after the byte it left unread. */
  lemma BlockWindows(s: Text, size: nat, e: nat, b: nat, line: nat, col: nat, kind: Kind, st: LexSpec.State)
    requires size > 2 && !BlockMisread(s, size, e, b) && BlockRead(s, b, line, col, kind, st)
    ensures kind != Kind.Null ==> BlockWindow(s, size, e, b) == OtherWindow(s, size, e, b, st.p)
    ensures kind == Kind.Null ==>
              if At(s, b) == '{' then Walk(size, BlockWindow(s, size, e, b), b, b + 1) == BlockWindow(s, size, e, b)
              else BlockWindow(s, size, e, b) == e
  {
    hide CString, Slice, BodyMisread, BodyWindow, BodyEnd;
    WalkStep(size, BlockWindow(s, size, e, b), b, b);
  }

  /** A misread block leaves nothing of the file to be read. */
  lemma MisreadBlock(s: Text, size: nat, e: nat, b: nat, line: nat, col: nat, kind: Kind, st: LexSpec.State)
    requires BlockMisread(s, size, e, b)
    requires BlockRead(WithLast(s, true), b, line, col, kind, st)
    ensures kind != Kind.Null && st.p > |s| && At(s, b) == '{' && BraceTwice(s, size)
  {
    hide CString, Slice, BodyMisread;
    if b + 1 != |s| {
      BodyMisreadShape(s, size, PairLook(s, size, e, b, BLOCK_OPEN), b + 2);
      ClosedBySeen(s, b + 2);
    }
  }

  /** The last brace taken for two does not move any token. */
  lemma SamePlace(s: Text, size: nat, e: nat, b: nat, p: nat)
    ensures var t := WithLast(s, BlockMisread(s, size, e, b));
            && LineAt(t, p) == LineAt(s, p) && ColAt(t, p) == ColAt(s, p)
            && (p < |s| ==> At(t, p) == At(s, p))
  {
    hide BodyMisread;
    if BlockMisread(s, size, e, b) {
      if b + 1 != |s| {
        BodyMisreadShape(s, size, PairLook(s, size, e, b, BLOCK_OPEN), b + 2);
      }
      PlaceKept(s, s[|s| - 1], p);
    }
  }

  /** A span over bytes other than NUL is a C string as it stands. */
  lemma CleanSpan(s: Text, a: nat, f: Byte -> bool)
    requires !f(NUL)
    ensures CString(Slice(s, a, Span(s, a, f))) == Slice(s, a, Span(s, a, f))
  {
    CStringOfClean(Slice(s, a, Span(s, a, f)));
  }

  class Lexer {
    var opts: LexerOpts
    var line: nat
    var col: nat
    var tokLine: nat
    var tokCol: nat
    const input: InputBuffer
    const toks: array<Token>
    var back: nat
    var front: nat
    const textBuf: UList<Byte>
    // The tokens in the ring, as the specification has them.
    ghost var queue: seq<Tok>
    // The file as it is seen through the window.
    ghost const seen: Text

    /** The whole file. */
    ghost function D(): Text { input.f.data }

    ghost function Size(): nat { input.buf.Length }

    ghost function P(): nat
      reads input, input.f
    {
      input.P()
    }

    ghost function Edge(): nat
      reads input, input.f
    {
      input.Edge()
    }

    ghost predicate Reading()
      reads `line, `col, input, input.f, input.buf
    {
      input.Valid() && line == LineAt(D(), P()) && col == ColAt(D(), P())
    }

    lemma WindowSize()
      requires Reading()
      ensures Size() >= 3
    {
    }

    /** The objects of the lexer itself, and all objects with those of its text store. */
    ghost function Own(): set<object> { {this, input, input.f, input.buf, toks} }

    ghost function Repr(): set<object>
      reads textBuf
    {
      Own() + textBuf.Repr
    }

    ghost predicate QueueOk()
      reads `back, `front, `queue, toks, textBuf`runs
    {
      && toks.Length == RING && front < RING && |queue| <= 2
      && back == (front + |queue|) % RING
      && forall j :: 0 <= j < |queue| ==> Denotes(toks[(front + j) % RING], queue[j], textBuf.runs)
    }

    ghost predicate Ready()
      reads `line, `col, input, input.f, input.buf, textBuf, textBuf.Repr
    {
      Reading() && Own() !! textBuf.Repr && textBuf.Valid()
    }

    ghost function State(): LexSpec.State
      reads `queue, input, input.f
    {
      LexSpec.State(P(), queue)
    }

    ghost predicate Valid()
      reads Repr(), textBuf
    {
      Ready() && QueueOk() && Foreseen(D(), Size(), Edge(), State(), seen)
    }

    constructor (f: InFile, size: nat)
      requires f.off == 0 && !f.atEof && size >= 3
      ensures Valid() && fresh(Repr() - {f})
      ensures D() == f.data && State() == START && opts == NoOpts
      ensures seen == SeenBy(f.data, size)
    {
      hide UList<Byte>.Valid, InputBuffer.Valid, SeenFrom;
      input := new InputBuffer(f, size);
      opts := NoOpts;
      textBuf := new UList<Byte>(1024);
      toks := new Token[RING];
      line, col, tokLine, tokCol := 1, 1, 1, 1;
      back, front := 0, 0;
      queue := [];
      seen := SeenBy(f.data, size);
    }

    method SetOpts(flags: LexerOpts)
      requires Valid()
      modifies `opts
      ensures Valid() && opts == flags
    {
      opts := flags;
    }

    method PeekN(i: nat) returns (c: Byte)
      requires Reading() && i < 3 && (input.pos + i <= input.len || input.eof)
      modifies input, input.f, input.buf
      ensures Reading() && P() == old(P())
      ensures input.end == Look(Size(), old(input.end), P(), i)
      ensures c == Sees(D(), Size(), old(input.end), P(), i)
      ensures input.pos + i < input.len || input.eof
    {
      c := input.PeekN(i);
    }

    method PeekChar() returns (c: Byte)
      requires Reading()
      modifies input, input.f, input.buf
      ensures Reading() && P() == old(P()) && Edge() == old(Edge()) && c == At(D(), P())
    {
      c := PeekN(0);
    }

    method NextChar() returns (c: Byte)
      requires Reading()
      modifies `line, `col, input, input.f, input.buf
      ensures Reading() && P() == old(P()) + 1 && c == At(D(), old(P()))
      ensures Edge() == Look(Size(), old(Edge()), P(), 0)
    {
      c := PeekN(0);
      col := col + 1;
      if c == '\n' {
        col := 1;
        line := line + 1;
      }
      input.Advance();
    }

    method SkipNChar(n: nat)
      requires Reading()
      modifies `line, `col, input, input.f, input.buf
      ensures Reading() && P() == old(P()) + n && Edge() == Walk(Size(), old(Edge()), old(P()), P())
    {
      hide InputBuffer.Valid;
      for i := 0 to n
        invariant Reading() && P() == old(P()) + i && Edge() == Walk(Size(), old(Edge()), old(P()), P())
      {
        var _ := NextChar();
      }
    }

    /** Zero exactly when the next two bytes seem to be those of `s`; nothing is consumed. */
    method CmpNextN(n: nat, s: Text) returns (r: int)
      requires Reading() && n == |s| == 2
      modifies input, input.f, input.buf
      ensures Reading() && P() == old(P())
      ensures r == 0 <==> Pair(D(), Size(), old(Edge()), P(), s)
      ensures Edge() == PairLook(D(), Size(), old(Edge()), P(), s)
    {
      ghost var e := Edge();
      var i := 0;
      var c := PeekN(0);
      while i < n && c == s[i]
        invariant 0 <= i <= n && Reading() && P() == old(P())
        invariant input.pos + i < input.len || input.eof
        invariant i == 0 ==> c == At(D(), P()) && input.end == e
        invariant i > 0 ==> At(D(), P()) == s[0]
        invariant i == 1 ==> c == Sees(D(), Size(), e, P(), 1) && input.end == Look(Size(), e, P(), 1)
        invariant i == 2 ==> Pair(D(), Size(), e, P(), s) && input.end == PairLook(D(), Size(), e, P(), s)
      {
        i := i + 1;
        c := PeekN(i);
      }
      r := if i == n then 0 else c as int - s[i] as int;
    }

    /** The inner loop: everything up to the newline and the newline itself. */
    method SkipLine()
      requires Reading() && NewlineAhead(D(), P())
      modifies `line, `col, input, input.f, input.buf
      ensures Reading() && P() == AfterNewline(D(), old(P())) && old(P()) < P() <= |D()|
      ensures Edge() == Walk(Size(), old(Edge()), old(P()), P())
    {
      hide InputBuffer.Valid, Edge;
      ghost var start, end := P(), AfterNewline(D(), P());
      var c := NextChar();
      while c != '\n'
        invariant Reading() && start < P() <= |D()| && Edge() == Walk(Size(), old(Edge()), start, P())
        invariant if c == '\n' then P() == end else NewlineAhead(D(), P()) && AfterNewline(D(), P()) == end
        decreases |D()| - P()
      {
        c := NextChar();
      }
    }

    /** The same loop given up after `n` rounds: without a newline ahead, no number of them is enough. */
    method SkipLineWithin(n: nat) returns (done: bool)
      requires Reading()
      modifies `line, `col, input, input.f, input.buf
      ensures Reading()
      ensures done ==> CommentRounds(D(), old(P()), n) == Some(P()) && NewlineAhead(D(), old(P()))
      ensures !done ==> CommentRounds(D(), old(P()), n) == None && P() == old(P()) + n
    {
      hide InputBuffer.Valid;
      CommentEndsIff(D(), P());
      for i := 0 to n
        invariant Reading() && P() == old(P()) + i
        invariant CommentRounds(D(), P(), n - i) == CommentRounds(D(), old(P()), n)
      {
        var c := NextChar();
        if c == '\n' {
          return true;
        }
      }
      return false;
    }

    method IgnoreComments()
      requires Reading() && CommentsEnd(D(), P())
      modifies `line, `col, input, input.f, input.buf
      ensures Reading() && P() == SkipComments(D(), old(P()))
      ensures Edge() == Walk(Size(), old(Edge()), old(P()), P())
    {
      hide InputBuffer.Valid, Edge, Walk;
      ghost var start := P();
      WalkStep(Size(), Edge(), start, start);
      var c := PeekChar();
      while c == '#'
        invariant Reading() && c == At(D(), P()) && CommentsEnd(D(), P()) && start <= P()
        invariant SkipComments(D(), P()) == SkipComments(D(), start)
        invariant Edge() == Walk(Size(), old(Edge()), start, P())
        decreases |D()| - P()
      {
        ghost var p := P();
        SkipLine();
        WalkOn(Size(), old(Edge()), start, p, P());
        c := PeekChar();
      }
    }

    method AddTextBuf(c: Byte)
      requires Ready() && textBuf.Locked()
      modifies textBuf.Repr
      ensures Ready() && P() == old(P()) && Edge() == old(Edge()) && textBuf.Locked()
      ensures textBuf.Pending() == old(textBuf.Pending()) + [c]
      ensures textBuf.runs == old(textBuf.runs) && fresh(textBuf.Repr - old(textBuf.Repr))
    {
      textBuf.Append(c);
    }

    /** If text is being added, it is that read from `start` on, after `pre`. */
    ghost predicate Recorded(add: bool, pre: Text, start: nat)
      reads input, input.f, textBuf
    {
      add ==> textBuf.Locked() && start <= P() <= |D()| && textBuf.Pending() == pre + Slice(D(), start, P())
    }

    /** One step of a reading loop: moves past `c`, keeping it if asked to. */
    method Consume(c: Byte, add: bool, ghost pre: Text, ghost start: nat)
      requires Ready() && P() < |D()| && c == At(D(), P()) && Recorded(add, pre, start)
      modifies `line, `col, input, input.f, input.buf, textBuf.Repr
      ensures Ready() && P() == old(P()) + 1 && Recorded(add, pre, start)
      ensures Edge() == Look(Size(), old(Edge()), P(), 0)
      ensures textBuf.runs == old(textBuf.runs) && fresh(textBuf.Repr - old(textBuf.Repr))
      ensures textBuf.Locked() == old(textBuf.Locked())
    {
      hide UList<Byte>.Valid, InputBuffer.Valid, Slice, Edge;
      if add {
        SliceGrows(D(), start, P(), pre);
        AddTextBuf(c);
      }
      var _ := NextChar();
    }

    method ReadWhile(p: Byte -> bool, add: bool)
      requires Ready() && (add ==> textBuf.Locked() && P() <= |D()|)
      modifies `line, `col, input, input.f, input.buf, textBuf.Repr
      ensures Ready() && P() == Span(D(), old(P()), p)
      ensures Edge() == Walk(Size(), old(Edge()), old(P()), P())
      ensures textBuf.runs == old(textBuf.runs) && fresh(textBuf.Repr - old(textBuf.Repr))
      ensures textBuf.Locked() == old(textBuf.Locked())
      ensures add ==> textBuf.Pending() == old(textBuf.Pending()) + Slice(D(), old(P()), P()) + [NUL]
    {
      hide UList<Byte>.Valid, InputBuffer.Valid, Slice, Edge;
      ghost var start, pre := P(), textBuf.Pending();
      SliceEmpty(D(), start, pre);
      ReadLoop(p, add, pre);
      if add {
        AddTextBuf(NUL);
      }
    }

    method ReadLoop(p: Byte -> bool, add: bool, ghost pre: Text)
      requires Ready() && Recorded(add, pre, P())
      modifies `line, `col, input, input.f, input.buf, textBuf.Repr
      ensures Ready() && P() == Span(D(), old(P()), p) && Recorded(add, pre, old(P()))
      ensures Edge() == Walk(Size(), old(Edge()), old(P()), P())
      ensures textBuf.runs == old(textBuf.runs) && fresh(textBuf.Repr - old(textBuf.Repr))
      ensures textBuf.Locked() == old(textBuf.Locked())
    {
      hide UList<Byte>.Valid, Reading, Edge, Slice, Walk, Span;
      ghost var start := P();
      WalkStep(Size(), Edge(), start, start);
      var c := PeekChar();
      while !IsNegative(c) && p(c)
        invariant Ready() && start <= P() && c == At(D(), P()) && Recorded(add, pre, start)
        invariant Span(D(), P(), p) == Span(D(), start, p)
        invariant Edge() == Walk(Size(), old(Edge()), start, P())
        invariant textBuf.runs == old(textBuf.runs) && fresh(textBuf.Repr - old(textBuf.Repr))
        invariant textBuf.Locked() == old(textBuf.Locked())
        decreases |D()| - P()
      {
        SpanStep(D(), P(), p);
        WalkStep(Size(), old(Edge()), start, P());
        Consume(c, add, pre, start);
        c := PeekChar();
      }
      SpanStep(D(), P(), p);
    }

    method RecordText()
      requires Ready()
      modifies textBuf`lockI
      ensures Ready() && P() == old(P()) && Edge() == old(Edge())
      ensures textBuf.Locked() && textBuf.Pending() == [] && textBuf.runs == old(textBuf.runs)
    {
      textBuf.Lock();
    }

    method GetText() returns (p: Ptr<Byte>)
      requires Ready() && textBuf.Locked()
      modifies textBuf`lockI, textBuf`runs
      ensures Ready() && p.Into? && textBuf.runs == old(textBuf.runs) + {Run(p, old(textBuf.Pending()))}
    {
      p := textBuf.Unlock();
    }

    method GetTok(kind: Kind) returns (tok: Token)
      ensures tok == Token(kind, tokLine, tokCol, 0, NullPtr)
    {
      tok := Token(kind, tokLine, tokCol, 0, NullPtr);
    }

    /** The token for text `t` just recorded, its pointer read back. */
    method TextTok(kind: Kind) returns (tok: Token)
      requires Ready() && textBuf.Locked() && NUL in textBuf.Pending()
      modifies textBuf`lockI, textBuf`runs
      ensures Ready() && P() == old(P()) && Edge() == old(Edge()) && old(textBuf.runs) <= textBuf.runs
      ensures tok == Token(kind, tokLine, tokCol, 0, tok.s)
      ensures Reads(tok.s, CString(old(textBuf.Pending())), textBuf.runs)
    {
      ghost var full := textBuf.Pending();
      tok := GetTok(kind);
      var s := GetText();
      tok := tok.(s := s);
      assert Run(s, full) in textBuf.runs;
    }

    method ReadNewLine() returns (tok: Token)
      requires Ready()
      modifies `line, `col, input, input.f, input.buf
      ensures Ready() && P() == Span(D(), old(P()), IsNewline)
      ensures Edge() == Walk(Size(), old(Edge()), old(P()), P())
      ensures tok == Token(if P() == old(P()) then Kind.Null else NewLn, tokLine, tokCol, 0, NullPtr)
    {
      hide UList<Byte>.Valid, Reading, Edge, Span;
      tok := GetTok(Kind.Null);
      SpanStep(D(), P(), IsNewline);
      var c := PeekChar();
      while c == '\n'
        invariant Ready() && c == At(D(), P()) && old(P()) <= P()
        invariant Edge() == Walk(Size(), old(Edge()), old(P()), P())
        invariant Span(D(), P(), IsNewline) == Span(D(), old(P()), IsNewline)
        invariant tok == Token(if P() == old(P()) then Kind.Null else NewLn, tokLine, tokCol, 0, NullPtr)
        decreases |D()| - P()
      {
        SpanStep(D(), P(), IsNewline);
        var _ := NextChar();
        tok := tok.(kind := NewLn);
        c := PeekChar();
        SpanStep(D(), P(), IsNewline);
      }
    }

    method ReadSymbol() returns (tok: Token)
      requires Ready()
      modifies `line, `col, input, input.f, input.buf, textBuf.Repr
      ensures Ready() && old(textBuf.runs) <= textBuf.runs && fresh(textBuf.Repr - old(textBuf.Repr))
      ensures Edge() == Walk(Size(), old(Edge()), old(P()), P())
      ensures !IsAlpha(At(D(), old(P()))) ==> tok.kind == Kind.Null && P() == old(P())
      ensures IsAlpha(At(D(), old(P()))) ==>
                P() == Span(D(), old(P()), IsSymbol)
                && Denotes(tok, Tok(Str, tokLine, tokCol, 0, Slice(D(), old(P()), P())), textBuf.runs)
    {
      hide UList<Byte>.Valid, Reading, Slice, CString, Span, Edge;
      var c := PeekChar();
      if !IsAlpha(c) {
        tok := GetTok(Kind.Null);
        return;
      }
      RecordText();
      ReadWhile(IsSymbol, true);
      TerminatedSlice(D(), old(P()), P());
      CleanSpan(D(), old(P()), IsSymbol);
      tok := TextTok(Str);
    }

    method ReadString() returns (tok: Token)
      requires Ready()
      modifies `line, `col, input, input.f, input.buf, textBuf.Repr
      ensures Ready() && old(textBuf.runs) <= textBuf.runs && fresh(textBuf.Repr - old(textBuf.Repr))
      ensures Edge() == Walk(Size(), old(Edge()), old(P()), P())
      ensures At(D(), old(P())) != '"' ==> tok.kind == Kind.Null && P() == old(P()) + 1
      ensures At(D(), old(P())) == '"' ==>
                var q := Span(D(), old(P()) + 1, IsNotQuote);
                P() == q + 1
                && Denotes(tok, Tok(Str, tokLine, tokCol, 0, CString(Slice(D(), old(P()) + 1, q))), textBuf.runs)
    {
      hide UList<Byte>.Valid, Reading, Slice, CString, Span, Edge, Walk;
      ghost var start := P() + 1;
      WalkStep(Size(), Edge(), P(), P());
      var c := NextChar();
      if IsNotQuote(c) {
        tok := GetTok(Kind.Null);
        return;
      }
      RecordText();
      ReadWhile(IsNotQuote, true);
      TerminatedSlice(D(), start, P());
      WalkOn(Size(), old(Edge()), old(P()), start, P());
      WalkStep(Size(), old(Edge()), old(P()), P());
      tok := TextTok(Str);
      // Skip the ending quote.
      var _ := NextChar();
    }

    /** Whether there is no minus sign; one is consumed. */
    method ReadSign() returns (positive: bool)
      requires Reading()
      modifies `line, `col, input, input.f, input.buf
      ensures Reading() && P() == AfterMinus(D(), old(P())) && positive == (P() == old(P()))
      ensures Edge() == Walk(Size(), old(Edge()), old(P()), P())
    {
      hide InputBuffer.Valid, Edge;
      positive := true;
      var c := PeekChar();
      if c == '-' {
        positive := false;
        var _ := NextChar();
      }
    }

    method ReadInt() returns (tok: Token)
      requires Ready()
      modifies `line, `col, input, input.f, input.buf, textBuf.Repr
      ensures Ready() && old(textBuf.runs) <= textBuf.runs && fresh(textBuf.Repr - old(textBuf.Repr))
      ensures Edge() == Walk(Size(), old(Edge()), old(P()), P())
      ensures var b := AfterMinus(D(), old(P()));
              if IsDigit(At(D(), b)) then
                var digits := Slice(D(), b, P());
                && P() == Span(D(), b, IsDigit)
                && if opts.NumIsText? then Denotes(tok, Tok(Str, tokLine, tokCol, 0, digits), textBuf.runs)
                   else
                     var v := Atoi(digits);
                     tok == Token(Int, tokLine, tokCol, if b == old(P()) then v else -v, NullPtr)
              else tok.kind == Kind.Null && P() == b
    {
      hide UList<Byte>.Valid, Reading, Span, Slice, Atoi, Reads, Edge, Walk;
      var positive := ReadSign();
      ghost var b := P();
      var c := PeekChar();
      if !IsDigit(c) {
        tok := GetTok(Kind.Null);
        return;
      }
      tok := ReadDigits();
      WalkOn(Size(), old(Edge()), old(P()), b, P());
      if opts.NumIsText? {
        return;
      }
      tok := NumTok(tok.s, positive, Slice(D(), b, P()));
    }

    /** The number that was read as the text `digits`. */
    method NumTok(text: Ptr<Byte>, positive: bool, ghost digits: Text) returns (tok: Token)
      requires Ready() && Reads(text, digits, textBuf.runs)
      ensures tok == Token(Int, tokLine, tokCol, if positive then Atoi(digits) else -Atoi(digits), NullPtr)
    {
      var t := Deref(text, digits);
      var i := Atoi(t);
      i := if positive then i else -i;
      tok := GetTok(Int);
      tok := tok.(i := i);
    }

    method ReadDigits() returns (tok: Token)
      requires Ready() && IsDigit(At(D(), P()))
      modifies `line, `col, input, input.f, input.buf, textBuf.Repr
      ensures Ready() && old(textBuf.runs) <= textBuf.runs && fresh(textBuf.Repr - old(textBuf.Repr))
      ensures P() == Span(D(), old(P()), IsDigit)
      ensures Edge() == Walk(Size(), old(Edge()), old(P()), P())
      ensures Denotes(tok, Tok(Str, tokLine, tokCol, 0, Slice(D(), old(P()), P())), textBuf.runs)
    {
      hide UList<Byte>.Valid, InputBuffer.Valid, Edge;
      RecordText();
      ReadWhile(IsDigit, true);
      TerminatedSlice(D(), old(P()), P());
      CleanSpan(D(), old(P()), IsDigit);
      tok := TextTok(Str);
    }

    /**
     The C string behind a pointer that was handed out: it is what it was then. There is
     no NUL in it, so that comparing such texts is what `strcmp` does.
     */
    method Deref(p: Ptr<Byte>, ghost u: Text) returns (t: Text)
      requires Ready() && Reads(p, u, textBuf.runs)
      ensures t == u && NUL !in t
    {
      StillReads(p, u);
      t := CString(p.node.buf[p.i..]);
    }

    lemma StillReads(p: Ptr<Byte>, u: Text)
      requires textBuf.Valid() && Reads(p, u, textBuf.runs)
      ensures p.Into? && p.i <= p.node.buf.Length && CString(p.node.buf[p.i..]) == u && NUL !in u
    {
      hide UList<Byte>.Valid, CString;
      var full :| Run(p, full) in textBuf.runs && NUL in full && CString(full) == u;
      textBuf.RunsReadBack(Run(p, full));
      var s, k := p.node.buf[p.i..], |full|;
      assert s[..k] == p.node.buf[p.i..p.i + k];
      assert s == s[..k] + s[k..];
      CStringIgnoresTail(full, s[k..]);
      CStringHasNoNul(full);
    }

    /** The two bytes of `s`, consumed, or nothing. */
    method ReadPunct(kind: Kind, s: Text) returns (tok: Token)
      requires Reading() && |s| == 2 && kind != Eof && kind != Kind.Null && s[0] != EOF_CHAR
      modifies `line, `col, input, input.f, input.buf
      ensures Reading() && Edge() == PairLook(D(), Size(), old(Edge()), old(P()), s)
      ensures tok == Token(tok.kind, tokLine, tokCol, 0, NullPtr)
      ensures if At(D(), old(P())) == EOF_CHAR then tok.kind == Eof && P() == old(P())
              else if Pair(D(), Size(), old(Edge()), old(P()), s) then tok.kind == kind && P() == old(P()) + 2
              else tok.kind == Kind.Null && P() == old(P())
    {
      hide InputBuffer.Valid, Edge, Walk;
      var c := PeekChar();
      if c == EOF_CHAR {
        tok := GetTok(Eof);
        return;
      }
      var ret := CmpNextN(2, s);
      if ret != 0 {
        tok := GetTok(Kind.Null);
        return;
      }
      tok := GetTok(kind);
      WindowSize();
      InsideWindow(D(), Size(), old(Edge()), P(), s);
      SkipNChar(2);
    }

    method AddTokenQueue(tok: Token, ghost v: Tok)
      requires QueueOk() && |queue| < 2 && Denotes(tok, v, textBuf.runs)
      modifies `back, `queue, toks
      ensures QueueOk() && queue == old(queue) + [v]
    {
      toks[back] := tok;
      back := (back + 1) % RING;
      queue := queue + [v];
    }

    method RemoveTokenQueue() returns (tok: Token)
      requires QueueOk() && queue != []
      modifies `front, `queue
      ensures QueueOk() && Denotes(tok, old(queue)[0], textBuf.runs) && queue == old(queue)[1..]
    {
      tok := toks[front];
      assert Denotes(toks[(front + 0) % RING], queue[0], textBuf.runs);
      front := (front + 1) % RING;
      queue := queue[1..];
    }

    predicate IsEmptyTokenQueue()
      reads this
    {
      back == front
    }

    method ReadBlockOpen() returns (tok: Token)
      requires Reading()
      modifies `line, `col, input, input.f, input.buf
      ensures Reading() && Edge() == PairLook(D(), Size(), old(Edge()), old(P()), BLOCK_OPEN)
      ensures tok == Token(tok.kind, tokLine, tokCol, 0, NullPtr)
      ensures if At(D(), old(P())) == EOF_CHAR then tok.kind == Eof && P() == old(P())
              else if Pair(D(), Size(), old(Edge()), old(P()), BLOCK_OPEN) then
                tok.kind == BlkOpen && P() == old(P()) + 2
              else tok.kind == Kind.Null && P() == old(P())
    {
      tok := ReadPunct(BlkOpen, BLOCK_OPEN);
    }

    method ReadBlockClose() returns (tok: Token)
      requires Reading()
      modifies `line, `col, input, input.f, input.buf
      ensures Reading() && Edge() == PairLook(D(), Size(), old(Edge()), old(P()), BLOCK_CLOSE)
      ensures tok == Token(tok.kind, tokLine, tokCol, 0, NullPtr)
      ensures if At(D(), old(P())) == EOF_CHAR then tok.kind == Eof && P() == old(P())
              else if Pair(D(), Size(), old(Edge()), old(P()), BLOCK_CLOSE) then
                tok.kind == BlkCls && P() == old(P()) + 2
              else tok.kind == Kind.Null && P() == old(P())
    {
      tok := ReadPunct(BlkCls, BLOCK_CLOSE);
    }

    /** The next byte, whatever it is, goes to the text store. */
    method RecordNext()
      requires Ready() && textBuf.Locked()
      modifies `line, `col, input, input.f, input.buf, textBuf.Repr
      ensures Ready() && P() == old(P()) + 1 && Edge() == Look(Size(), old(Edge()), P(), 0) && textBuf.Locked()
      ensures textBuf.Pending() == old(textBuf.Pending()) + [At(D(), old(P()))]
      ensures textBuf.runs == old(textBuf.runs) && fresh(textBuf.Repr - old(textBuf.Repr))
    {
      hide UList<Byte>.Valid, InputBuffer.Valid, Edge;
      var c := NextChar();
      AddTextBuf(c);
    }

    /** The body read so far, in the file as it is seen. */
    ghost predicate InBlock(t: Text, w: nat, start: nat)
      reads input, input.f, textBuf
    {
      && InBody(D(), Size(), t, w, start, P(), Edge())
      && textBuf.Locked() && textBuf.Pending() == Slice(t, start, P())
    }

    /** One round of reading a body: either it ends here or one more byte of it is recorded. */
    method BodyStep(ghost t: Text, ghost w: nat, ghost start: nat) returns (closed: Token)
      requires Ready() && InBlock(t, w, start)
      modifies `line, `col, input, input.f, input.buf, textBuf.Repr
      ensures Ready() && textBuf.runs == old(textBuf.runs) && fresh(textBuf.Repr - old(textBuf.Repr))
      ensures textBuf.Locked()
      ensures if closed.kind == Kind.Null then old(P()) < P() <= |D()| && InBlock(t, w, start)
              else
                && (closed.kind == Eof || closed.kind == BlkCls)
                && closed == Token(closed.kind, tokLine, tokCol, 0, NullPtr) && (t == D() ==> Edge() == w)
                && BodyRead(t, start, P(), closed.kind, textBuf.Pending())
    {
      hide UList<Byte>.Valid, InputBuffer.Valid, Reading, Slice, BodyEnd, IsClose, InBody, BodyRead, Edge,
        Pair, PairLook;
      ghost var p, e := P(), Edge();
      WindowSize();
      InBodyStep(D(), Size(), t, w, start, p, e);
      if At(t, p) == EOF_CHAR || IsClose(t, p) {
        BodyReadUp(t, start, p);
      } else {
        SliceGrows(t, start, p, []);
      }
      closed := ReadBlockClose();
      if closed.kind == Kind.Null {
        RecordNext();
      }
    }

    /** A block body up to its closing braces, as seen through the window, recorded in the text store. */
    method ReadBody() returns (closed: Token)
      requires Ready() && textBuf.Locked() && textBuf.Pending() == []
      modifies `line, `col, input, input.f, input.buf, textBuf.Repr
      ensures Ready() && textBuf.runs == old(textBuf.runs) && fresh(textBuf.Repr - old(textBuf.Repr))
      ensures textBuf.Locked() && closed == Token(closed.kind, tokLine, tokCol, 0, NullPtr)
      ensures var misread := BodyMisread(D(), Size(), old(Edge()), old(P()));
              && (closed.kind == Eof || closed.kind == BlkCls)
              && BodyRead(WithLast(D(), misread), old(P()), P(), closed.kind, textBuf.Pending())
              && (!misread ==> Edge() == BodyWindow(D(), Size(), old(Edge()), old(P())))
    {
      hide UList<Byte>.Valid, InputBuffer.Valid, Reading, Ready, Slice, BodyEnd, BodyMisread, BodyWindow, Edge,
        BodyRead;
      ghost var start := P();
      ghost var t := WithLast(D(), BodyMisread(D(), Size(), Edge(), start));
      ghost var w := BodyWindow(D(), Size(), Edge(), start);
      SliceEmpty(t, start, []);
      assert InBlock(t, w, start);
      hide InBody, InBlock;
      while true
        invariant Ready() && InBlock(t, w, start) && textBuf.Locked()
        invariant textBuf.runs == old(textBuf.runs) && fresh(textBuf.Repr - old(textBuf.Repr))
        decreases |D()| - P()
      {
        closed := BodyStep(t, w, start);
        if closed.kind != Kind.Null {
          return;
        }
      }
    }

    /** Delivers the opening token; the body and the closing token go to the ring. */
    method ReadBlock() returns (tok: Token)
      requires Ready() && QueueOk() && queue == []
      modifies `line, `col, `back, `queue, toks, input, input.f, input.buf, textBuf.Repr
      ensures Ready() && QueueOk()
      ensures old(textBuf.runs) <= textBuf.runs && fresh(textBuf.Repr - old(textBuf.Repr))
      ensures tok == Token(tok.kind, tokLine, tokCol, 0, NullPtr)
      ensures var misread := BlockMisread(D(), Size(), old(Edge()), old(P()));
              && BlockRead(WithLast(D(), misread), old(P()), tokLine, tokCol, tok.kind, State())
              && (!misread ==> Edge() == BlockWindow(D(), Size(), old(Edge()), old(P())))
    {
      hide UList<Byte>.Valid, Reading, Edge, BlockRead, BodyRead, BlockMisread, BodyMisread, BlockWindow,
        BodyWindow, Pair, PairLook, CString;
      ghost var b, e := P(), Edge();
      tok := ReadBlockOpen();
      if tok.kind == Kind.Null {
        NoBlock(D(), Size(), e, b, tokLine, tokCol);
        return;
      }
      var closed;
      ghost var body;
      closed, body := ReadBlockRest();
      BlockFromBody(D(), Size(), e, b, tokLine, tokCol, P(), if closed then BlkCls else Eof, body);
      if !closed {
        tok := GetTok(Err);
      }
    }

    /** The body and the closing braces go to the ring, unless the file ends before. */
    method ReadBlockRest() returns (closed: bool, ghost body: Text)
      requires Ready() && QueueOk() && queue == []
      modifies `line, `col, `back, `queue, toks, input, input.f, input.buf, textBuf.Repr
      ensures Ready() && QueueOk()
      ensures old(textBuf.runs) <= textBuf.runs && fresh(textBuf.Repr - old(textBuf.Repr))
      ensures queue == if closed then BlockQueue(body, tokLine, tokCol) else []
      ensures var misread := BodyMisread(D(), Size(), old(Edge()), old(P()));
              && BodyRead(WithLast(D(), misread), old(P()), P(), if closed then BlkCls else Eof, body)
              && (!misread ==> Edge() == BodyWindow(D(), Size(), old(Edge()), old(P())))
    {
      hide UList<Byte>.Valid, Reading, Edge, BodyRead, BodyMisread, BodyWindow, CString;
      RecordText();
      var closeTok := ReadBody();
      body := textBuf.Pending();
      closed := closeTok.kind != Eof;
      if closed {
        QueueBlock(closeTok, body);
      }
    }

    method QueueBlock(closeTok: Token, ghost body: Text)
      requires Ready() && QueueOk() && queue == []
      requires textBuf.Locked() && textBuf.Pending() == body
      requires closeTok == Token(BlkCls, tokLine, tokCol, 0, NullPtr)
      modifies `back, `queue, toks, textBuf.Repr
      ensures Ready() && QueueOk() && P() == old(P()) && Edge() == old(Edge())
      ensures old(textBuf.runs) <= textBuf.runs && fresh(textBuf.Repr - old(textBuf.Repr))
      ensures queue == BlockQueue(body, tokLine, tokCol)
    {
      hide UList<Byte>.Valid, InputBuffer.Valid, CString, Reads;
      var bodyTok := BodyTok(body);
      AddTokenQueue(bodyTok, Tok(Str, tokLine, tokCol, 0, CString(body)));
      AddTokenQueue(closeTok, Tok(BlkCls, tokLine, tokCol, 0, []));
    }

    method BodyTok(ghost body: Text) returns (tok: Token)
      requires Ready() && QueueOk() && queue == []
      requires textBuf.Locked() && textBuf.Pending() == body
      modifies textBuf.Repr
      ensures Ready() && QueueOk() && P() == old(P()) && Edge() == old(Edge())
      ensures old(textBuf.runs) <= textBuf.runs && fresh(textBuf.Repr - old(textBuf.Repr))
      ensures Denotes(tok, Tok(Str, tokLine, tokCol, 0, CString(body)), textBuf.runs)
    {
      hide UList<Byte>.Valid, Reading, CString, Reads;
      AddTextBuf(NUL);
      CStringOfTerminated(body);
      tok := TextTok(Str);
    }

    /** The character `ch` as a token of its own, if it is next. */
    method AttemptReadChar(ch: Byte, kind: Kind) returns (tok: Token)
      requires Reading() && kind != Kind.Null
      modifies `line, `col, input, input.f, input.buf
      ensures Reading() && Edge() == Walk(Size(), old(Edge()), old(P()), P())
      ensures if At(D(), old(P())) == ch then
                tok == Token(kind, tokLine, tokCol, 0, NullPtr) && P() == old(P()) + 1
              else tok.kind == Kind.Null && P() == old(P())
    {
      hide InputBuffer.Valid, Edge;
      tok := GetTok(Kind.Null);
      var c := PeekChar();
      if c == ch {
        tok := tok.(kind := kind);
        var _ := NextChar();
      }
    }

    method AttemptChars() returns (tok: Token)
      requires Reading()
      modifies `line, `col, input, input.f, input.buf
      ensures Reading() && Edge() == Walk(Size(), old(Edge()), old(P()), P())
      ensures var c := At(D(), old(P()));
              if c == EOF_CHAR || c == '/' || c == '*' || c == '.' then
                var kind := if c == EOF_CHAR then Eof else if c == '/' then Slash else if c == '*' then Star else Dot;
                P() == old(P()) + 1 && tok == Token(kind, tokLine, tokCol, 0, NullPtr)
              else tok.kind == Kind.Null && P() == old(P())
    {
      hide Reading, Edge;
      tok := AttemptReadChar(EOF_CHAR, Eof);
      if tok.kind != Kind.Null { return; }
      tok := AttemptReadChar('/', Slash);
      if tok.kind != Kind.Null { return; }
      tok := AttemptReadChar('*', Star);
      if tok.kind != Kind.Null { return; }
      tok := AttemptReadChar('.', Dot);
    }

    /**
     Every call whose comments end delivers the token of the specification for the file
     as it is seen, whatever the size of the window.
     */
    method GetToken() returns (tok: Token)
      requires Valid() && CallEnds(D(), State())
      modifies Repr()
      ensures Valid() && fresh(Repr() - old(Repr())) && opts == old(opts)
      ensures old(textBuf.runs) <= textBuf.runs
      ensures var r := Lex(seen, old(State()), old(opts).NumIsText?);
              State() == r.next && Denotes(tok, r.tok, textBuf.runs)
      ensures State() == Lex(D(), old(State()), false).next || P() > |D()|
    {
      hide UList<Byte>.Valid, InputBuffer.Valid, QueueOk, Edge, Foreseen, CallMisread, CallWindow, Lex,
        CallEnds, Reads;
      ghost var e, st := Edge(), State();
      CallSeen(D(), Size(), e, st, seen, opts.NumIsText?);
      tok := Fetch();
      CallForeseen(D(), Size(), e, st, seen, opts.NumIsText?, Edge(), State());
    }

    /** One call, apart from what later calls will see. */
    method Fetch() returns (tok: Token)
      requires Ready() && QueueOk() && CallEnds(D(), State())
      modifies `line, `col, `tokLine, `tokCol, `front, `back, `queue, toks, input, input.f, input.buf, textBuf.Repr
      ensures Ready() && QueueOk()
      ensures old(textBuf.runs) <= textBuf.runs && fresh(textBuf.Repr - old(textBuf.Repr))
      ensures var misread := CallMisread(D(), Size(), old(Edge()), old(State()));
              var r := Lex(WithLast(D(), misread), old(State()), opts.NumIsText?);
              && State() == r.next && Denotes(tok, r.tok, textBuf.runs)
              && if misread then P() > |D()| else Edge() == CallWindow(D(), Size(), old(Edge()), old(State()))
    {
      hide UList<Byte>.Valid, Reading, Edge, Scan, ScanMisread, ScanWindow, StartWindow, CommentsEnd, Reads,
        TokenStart;
      if !IsEmptyTokenQueue() {
        tok := RemoveTokenQueue();
        return;
      }
      FreshCall(D(), Size(), Edge(), State(), opts.NumIsText?);
      SkipToToken();
      tok := ReadToken();
    }

    /** Blanks, then comments; the token starts where they end. */
    method SkipToToken()
      requires Ready() && CommentsEnd(D(), Span(D(), P(), IsBlank))
      modifies `line, `col, `tokLine, `tokCol, input, input.f, input.buf, textBuf.Repr
      ensures Ready() && P() == TokenStart(D(), old(P()))
      ensures Edge() == StartWindow(D(), Size(), old(Edge()), old(P()))
      ensures tokLine == LineAt(D(), P()) && tokCol == ColAt(D(), P())
      ensures textBuf.runs == old(textBuf.runs) && fresh(textBuf.Repr - old(textBuf.Repr))
    {
      hide UList<Byte>.Valid, InputBuffer.Valid, Edge, CommentsEnd, Walk, Span, SkipComments;
      ReadWhile(IsBlank, false);
      ghost var p := P();
      IgnoreComments();
      WalkOn(Size(), old(Edge()), old(P()), p, P());
      tokLine, tokCol := line, col;
    }

    method ReadToken() returns (tok: Token)
      requires Ready() && QueueOk() && queue == []
      requires tokLine == LineAt(D(), P()) && tokCol == ColAt(D(), P())
      modifies `line, `col, `back, `queue, toks, input, input.f, input.buf, textBuf.Repr
      ensures Ready() && QueueOk()
      ensures old(textBuf.runs) <= textBuf.runs && fresh(textBuf.Repr - old(textBuf.Repr))
      ensures var misread := ScanMisread(D(), Size(), old(Edge()), old(P()));
              var r := Scan(WithLast(D(), misread), old(P()), opts.NumIsText?);
              && State() == r.next && Denotes(tok, r.tok, textBuf.runs)
              && if misread then P() > |D()| else Edge() == ScanWindow(D(), Size(), old(Edge()), old(P()))
    {
      hide UList<Byte>.Valid, Reading, Reads, Scan, ScanMisread, ScanWindow, Edge, Walk;
      ghost var p, e := P(), Edge();
      PlainForms(D(), Size(), e, p, opts.NumIsText?);
      WalkStep(Size(), e, p, p);
      tok := ReadPlain();
      if tok.kind == Kind.Null {
        tok := ReadSigned();
      }
    }

    /** The attempts that come first: single characters, newlines, words. */
    method ReadPlain() returns (tok: Token)
      requires Ready()
      requires tokLine == LineAt(D(), P()) && tokCol == ColAt(D(), P())
      modifies `line, `col, input, input.f, input.buf, textBuf.Repr
      ensures Ready() && Edge() == Walk(Size(), old(Edge()), old(P()), P())
      ensures old(textBuf.runs) <= textBuf.runs && fresh(textBuf.Repr - old(textBuf.Repr))
      ensures if !StartsPlain(At(D(), old(P()))) then tok.kind == Kind.Null && P() == old(P())
              else
                var r := Scan(D(), old(P()), opts.NumIsText?);
                LexSpec.State(P(), []) == r.next && Denotes(tok, r.tok, textBuf.runs) && tok.kind != Kind.Null
    {
      hide UList<Byte>.Valid, Reading, Reads, ScanSigned, Slice, Span, CString, LineAt, ColAt, Edge, Walk;
      WalkStep(Size(), Edge(), P(), P());
      tok := AttemptChars();
      if tok.kind != Kind.Null { return; }
      tok := ReadNewLine();
      if tok.kind != Kind.Null { return; }
      tok := ReadSymbol();
    }

    /** The last three attempts: a number, a block, a string. */
    method ReadSigned() returns (tok: Token)
      requires Ready() && QueueOk() && queue == []
      requires tokLine == LineAt(D(), P()) && tokCol == ColAt(D(), P())
      requires At(D(), P()) != EOF_CHAR
      modifies `line, `col, `back, `queue, toks, input, input.f, input.buf, textBuf.Repr
      ensures Ready() && QueueOk()
      ensures old(textBuf.runs) <= textBuf.runs && fresh(textBuf.Repr - old(textBuf.Repr))
      ensures var misread := ScanMisread(D(), Size(), old(Edge()), old(P()));
              var r := ScanSigned(WithLast(D(), misread), old(P()), opts.NumIsText?);
              && State() == r.next && Denotes(tok, r.tok, textBuf.runs)
              && if misread then P() > |D()| else Edge() == SignedWindow(D(), Size(), old(Edge()), old(P()), P())
    {
      hide UList<Byte>.Valid, Reading, Reads, Slice, Span, CString, Atoi, LineAt, ColAt, Edge, Walk, ScanOther,
        BlockMisread, BlockWindow;
      ghost var p, e, runs := P(), Edge(), textBuf.runs;
      SignedForms(D(), Size(), e, p, opts.NumIsText?);
      tok := ReadInt();
      if tok.kind != Kind.Null { return; }
      ghost var b := P();
      tok := ReadOther(p);
      WalkOn(Size(), e, p, b, if b <= P() then P() else b);
    }

    /** What may stand where there is no number: a block or a string. */
    method ReadOther(ghost p: nat) returns (tok: Token)
      requires Ready() && QueueOk() && queue == []
      requires tokLine == LineAt(D(), p) && tokCol == ColAt(D(), p)
      modifies `line, `col, `back, `queue, toks, input, input.f, input.buf, textBuf.Repr
      ensures Ready() && QueueOk() && old(P()) <= P()
      ensures old(textBuf.runs) <= textBuf.runs && fresh(textBuf.Repr - old(textBuf.Repr))
      ensures var misread := BlockMisread(D(), Size(), old(Edge()), old(P()));
              var r := ScanOther(WithLast(D(), misread), p, old(P()));
              && State() == r.next && Denotes(tok, r.tok, textBuf.runs)
              && if misread then P() > |D()|
                 else Edge() == OtherWindow(D(), Size(), old(Edge()), old(P()), P())
    {
      hide UList<Byte>.Valid, Reading, Reads, Slice, Span, CString, LineAt, ColAt, Edge, Walk, ScanOther,
        BlockMisread, BlockWindow, BlockRead;
      ghost var b, e := P(), Edge();
      ghost var misread := BlockMisread(D(), Size(), e, b);
      SamePlace(D(), Size(), e, b, p);
      tok := ReadBlock();
      BlockForms(WithLast(D(), misread), p, b, tok.kind, State());
      if misread {
        MisreadBlock(D(), Size(), e, b, tokLine, tokCol, tok.kind, State());
      } else {
        WindowSize();
        BlockWindows(D(), Size(), e, b, tokLine, tokCol, tok.kind, State());
      }
      if tok.kind != Kind.Null { return; }
      tok := ReadString();
      if tok.kind != Kind.Null { return; }
      tok := GetTok(Err);
    }
  }
}
