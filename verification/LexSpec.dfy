/**
 The lexer of `src/lexer.c` as a function of the whole file: no buffer, no refills,
 no token ring. A position may run past the end; everything there reads as end of file.
 */
module LexSpec {
  import opened Bytes

  datatype Kind = Null | Eof | Err | NewLn | BlkOpen | BlkCls | Slash | Star | Dot | Int | Str

  datatype Tok = Tok(kind: Kind, line: nat, col: nat, num: int, text: Text)

  /** A reading position and the tokens already read but not yet delivered. */
  datatype State = State(p: nat, queue: seq<Tok>)

  const START := State(0, [])

  function At(s: Text, p: nat): Byte
  {
    if p < |s| then s[p] else EOF_CHAR
  }

  /** The bytes from `a` up to `b`. */
  function Slice(s: Text, a: nat, b: nat): Text
  {
    if a <= b <= |s| then s[a..b] else []
  }

  predicate IsSymbol(c: Byte) { IsAlnum(c) || c == '_' || c == '-' }

  predicate IsNotQuote(c: Byte) { c != '"' }

  predicate IsNewline(c: Byte) { c == '\n' }

  /** Where a maximal run of non-negative bytes accepted by `f` ends. */
  function Span(s: Text, p: nat, f: Byte -> bool): (q: nat)
    ensures p <= q && (p <= |s| ==> q <= |s|)
    ensures forall k :: p <= k < q ==> k < |s| && f(s[k]) && !IsNegative(s[k])
    ensures IsNegative(At(s, q)) || !f(At(s, q))
    decreases |s| - p
  {
    if !IsNegative(At(s, p)) && f(At(s, p)) then Span(s, p + 1, f) else p
  }

  predicate NewlineAhead(s: Text, p: nat)
    decreases |s| - p
  {
    p < |s| && (s[p] == '\n' || NewlineAhead(s, p + 1))
  }

  /** Past the first newline at or after `p`. */
  function AfterNewline(s: Text, p: nat): (q: nat)
    ensures p <= q && (p < |s| ==> p < q <= |s|)
    ensures NewlineAhead(s, p) ==> s[q - 1] == '\n' && forall k :: p <= k < q - 1 ==> s[k] != '\n'
    decreases |s| - p
  {
    if p >= |s| then p else if s[p] == '\n' then p + 1 else AfterNewline(s, p + 1)
  }

  /** Comment lines, one after the other, each with its newline. */
  function SkipComments(s: Text, p: nat): (q: nat)
    ensures p <= q && (p <= |s| ==> q <= |s|) && At(s, q) != '#'
    decreases |s| - p
  {
    if At(s, p) == '#' then SkipComments(s, AfterNewline(s, p)) else p
  }

  function LineAt(s: Text, p: nat): nat
  {
    if p == 0 then 1 else LineAt(s, p - 1) + if At(s, p - 1) == '\n' then 1 else 0
  }

  function ColAt(s: Text, p: nat): nat
  {
    if p == 0 || At(s, p - 1) == '\n' then 1 else ColAt(s, p - 1) + 1
  }

  /** The value of a run of decimal digits. */
  function Atoi(digits: Text): int
  {
    if digits == [] then 0
    else 10 * Atoi(digits[..|digits| - 1]) + (digits[|digits| - 1] as int - '0' as int)
  }

  predicate IsClose(s: Text, r: nat) { At(s, r) == '}' && At(s, r + 1) == '}' }

  /** Where the body of a block that starts at `r` ends: at its "}}" or at end of file. */
  function BodyEnd(s: Text, r: nat): (q: nat)
    ensures r <= q && (r <= |s| ==> q <= |s|)
    ensures forall k :: r <= k < q ==> k < |s| && s[k] != EOF_CHAR && !IsClose(s, k)
    ensures At(s, q) == EOF_CHAR || IsClose(s, q)
    decreases |s| - r
  {
    if At(s, r) == EOF_CHAR || IsClose(s, r) then r else BodyEnd(s, r + 1)
  }

  datatype Scanned = Scanned(tok: Tok, next: State)

  /** A token that starts at `p`, with the reader left at `q`. */
  function Plain(s: Text, p: nat, kind: Kind, q: nat): Scanned
  {
    Scanned(Tok(kind, LineAt(s, p), ColAt(s, p), 0, []), State(q, []))
  }

  function Worded(s: Text, p: nat, text: Text, q: nat): Scanned
  {
    Scanned(Tok(Str, LineAt(s, p), ColAt(s, p), 0, text), State(q, []))
  }

  /** The body and the closing token of a block wait in the queue. */
  function ScanBlock(s: Text, p: nat, r: nat): Scanned
  {
    var q := BodyEnd(s, r);
    if At(s, q) == EOF_CHAR then Plain(s, p, Err, q)
    else
      var line, col := LineAt(s, p), ColAt(s, p);
      Scanned(Tok(BlkOpen, line, col, 0, []),
              State(q + 2, [Tok(Str, line, col, 0, CString(Slice(s, r, q))), Tok(BlkCls, line, col, 0, [])]))
  }

  /** One token from `p`, where no blank and no comment is left to skip. */
  function Scan(s: Text, p: nat, numIsText: bool): Scanned
  {
    var c := At(s, p);
    if c == EOF_CHAR then Plain(s, p, Eof, p + 1)
    else if c == '/' then Plain(s, p, Slash, p + 1)
    else if c == '*' then Plain(s, p, Star, p + 1)
    else if c == '.' then Plain(s, p, Dot, p + 1)
    else if c == '\n' then Plain(s, p, NewLn, Span(s, p, IsNewline))
    else if IsAlpha(c) then
      var q := Span(s, p, IsSymbol);
      Worded(s, p, Slice(s, p, q), q)
    else ScanSigned(s, p, numIsText)
  }

  /** Past a minus sign, if there is one. */
  function AfterMinus(s: Text, p: nat): nat
  {
    if At(s, p) == '-' then p + 1 else p
  }

  /** A number, a block or a string; each may follow a minus sign, which then is lost. */
  function ScanSigned(s: Text, p: nat, numIsText: bool): Scanned
  {
    var negative := At(s, p) == '-';
    var b := AfterMinus(s, p);
    if IsDigit(At(s, b)) then
      var q := Span(s, b, IsDigit);
      if numIsText then Worded(s, p, Slice(s, b, q), q)
      else
        var v := Atoi(Slice(s, b, q));
        Scanned(Tok(Int, LineAt(s, p), ColAt(s, p), if negative then -v else v, []), State(q, []))
    else ScanOther(s, p, b)
  }

  /** A block or a string at `b`, in a token that starts at `p`. */
  function ScanOther(s: Text, p: nat, b: nat): Scanned
  {
    var d := At(s, b);
    if d == EOF_CHAR then Plain(s, p, Err, b)
    else if d == '{' && At(s, b + 1) == '{' then ScanBlock(s, p, b + 2)
    else if d == '"' then
      var q := Span(s, b + 1, IsNotQuote);
      Worded(s, p, CString(Slice(s, b + 1, q)), q + 1)
    else Plain(s, p, Err, b + 1)
  }

  /** Where the next token starts: after blanks and then comments, in this order. */
  function TokenStart(s: Text, p: nat): nat
  {
    SkipComments(s, Span(s, p, IsBlank))
  }

  /** `lexer_get_token`. */
  function Lex(s: Text, st: State, numIsText: bool): Scanned
  {
    if st.queue != [] then Scanned(st.queue[0], st.(queue := st.queue[1..]))
    else Scan(s, TokenStart(s, st.p), numIsText)
  }

  /** The tokens of consecutive calls, with the lexer option each call is made under. */
  function LexRun(s: Text, st: State, modes: seq<bool>): seq<Tok>
    decreases |modes|
  {
    if modes == [] then []
    else
      var r := Lex(s, st, modes[0]);
      [r.tok] + LexRun(s, r.next, modes[1..])
  }

  function StateAfter(s: Text, st: State, modes: seq<bool>): State
    decreases |modes|
  {
    if modes == [] then st else StateAfter(s, Lex(s, st, modes[0]).next, modes[1..])
  }

  // ---- What the lexer can read to the end ----

  /** Each of the comment lines skipped at `p` has its newline; at one that has not, the comment loop never ends. */
  ghost predicate CommentsEnd(s: Text, p: nat)
    decreases |s| - p
  {
    At(s, p) == '#' ==> NewlineAhead(s, p) && CommentsEnd(s, AfterNewline(s, p))
  }

  /** One call of `lexer_get_token` returns. */
  ghost predicate CallEnds(s: Text, st: State)
  {
    st.queue == [] ==> CommentsEnd(s, Span(s, st.p, IsBlank))
  }

  /** And so do `n` calls; what a call leaves behind does not depend on the option it is made under. */
  ghost predicate CallsEnd(s: Text, st: State, n: nat)
    decreases n
  {
    n > 0 ==> CallEnds(s, st) && CallsEnd(s, Lex(s, st, false).next, n - 1)
  }

  ghost predicate Readable(s: Text, st: State)
  {
    forall n: nat :: CallsEnd(s, st, n)
  }
}
