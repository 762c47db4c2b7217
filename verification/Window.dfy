/**
 Where the window over a file ends while it is read, and what that does to the tokens.

 A lookahead past a window that ends exactly where the file does finds a stale byte.
 The lexer makes such a lookahead only after a brace, so a brace that ends the file may
 be taken for two. Which file the lexer sees in this way is worked out here for any
 file and any size of the window, from the places where refills fall.
 */
module Windows {
  import opened Bytes
  import opened LexSpec
  import opened LexFacts

  // ---- The window ----

  /** The end of the window once the byte `i` ahead of `p` was asked for: a refill makes the window start at `p`. */
  function Look(size: nat, e: nat, p: nat, i: nat): nat
  {
    if p + i < e then e else p + size
  }

  /** Plain reading from `p` on, up to a look at the byte at `q`. */
  function Walk(size: nat, e: nat, p: nat, q: nat): nat
  {
    if q <= p then e else Look(size, Walk(size, e, p, q - 1), q, 0)
  }

  lemma {:induction false} WalkOn(size: nat, e: nat, p: nat, q: nat, r: nat)
    requires p <= q <= r
    ensures Walk(size, Walk(size, e, p, q), q, r) == Walk(size, e, p, r)
  {
    if q < r {
      WalkOn(size, e, p, q, r - 1);
    }
  }

  lemma WalkStep(size: nat, e: nat, p: nat, q: nat)
    requires p <= q
    ensures Walk(size, e, p, p) == e
    ensures Walk(size, e, p, q + 1) == Look(size, Walk(size, e, p, q), q + 1, 0)
  {
  }

  /** The byte `i` ahead of `p`; past a window that ends with the file, a stale one from inside the window. */
  function Sees(s: Text, size: nat, e: nat, p: nat, i: nat): Byte
  {
    if 0 < i < size <= |s| == e == p + i then s[|s| - size + i] else At(s, p + i)
  }

  /** Whether the two bytes of `w` seem to be next, and where the window ends after looking. */
  predicate Pair(s: Text, size: nat, e: nat, p: nat, w: Text)
    requires |w| == 2
  {
    At(s, p) == w[0] && Sees(s, size, e, p, 1) == w[1]
  }

  function PairLook(s: Text, size: nat, e: nat, p: nat, w: Text): nat
    requires |w| == 2
  {
    if At(s, p) != w[0] then e
    else if Sees(s, size, e, p, 1) != w[1] then Look(size, e, p, 1)
    else Look(size, Look(size, e, p, 1), p, 2)
  }

  // ---- Braces ----

  const BLOCK_OPEN: Text := "{{"
  const BLOCK_CLOSE: Text := "}}"

  /** After the byte at `p` of a block body was looked at as a closing brace and then read. */
  function BodyLook(s: Text, size: nat, e: nat, p: nat): nat
  {
    Look(size, PairLook(s, size, e, p, BLOCK_CLOSE), p + 1, 0)
  }

  /** The body read on from `p` is not closed, but its last byte, a brace, is taken for two. */
  predicate BodyMisread(s: Text, size: nat, e: nat, p: nat)
    decreases |s| - p
  {
    && At(s, p) != EOF_CHAR && !IsClose(s, p)
    && if p + 1 == |s| then Pair(s, size, e, p, BLOCK_CLOSE)
       else BodyMisread(s, size, BodyLook(s, size, e, p), p + 1)
  }

  function BodyWindow(s: Text, size: nat, e: nat, p: nat): nat
    decreases |s| - p
  {
    if At(s, p) == EOF_CHAR || IsClose(s, p) then PairLook(s, size, e, p, BLOCK_CLOSE)
    else BodyWindow(s, size, BodyLook(s, size, e, p), p + 1)
  }

  /** At `b`, where a block may open, a brace that ends the file is taken for two. */
  predicate BlockMisread(s: Text, size: nat, e: nat, b: nat)
  {
    && At(s, b) == '{'
    && if b + 1 == |s| then Pair(s, size, e, b, BLOCK_OPEN)
       else At(s, b + 1) == '{' && BodyMisread(s, size, PairLook(s, size, e, b, BLOCK_OPEN), b + 2)
  }

  function BlockWindow(s: Text, size: nat, e: nat, b: nat): nat
  {
    var e1 := PairLook(s, size, e, b, BLOCK_OPEN);
    if At(s, b) == '{' && At(s, b + 1) == '{' then BodyWindow(s, size, e1, b + 2) else e1
  }

  // ---- Tokens ----

  predicate ScanMisread(s: Text, size: nat, e: nat, p: nat)
  {
    var b := AfterMinus(s, p);
    BlockMisread(s, size, Walk(size, e, p, b), b)
  }

  function ScanWindow(s: Text, size: nat, e: nat, p: nat): nat
  {
    var b := AfterMinus(s, p);
    if At(s, b) == '{' then BlockWindow(s, size, Walk(size, e, p, b), b)
    else Walk(size, e, p, Scan(s, p, false).next.p)
  }

  /** The file as it is seen: with its last brace twice, if that is taken for two. */
  function WithLast(s: Text, twice: bool): Text
  {
    if twice && s != [] then s + [s[|s| - 1]] else s
  }

  /** The window at the start of the token read from `p`. */
  function StartWindow(s: Text, size: nat, e: nat, p: nat): nat
  {
    Walk(size, e, p, TokenStart(s, p))
  }

  predicate CallMisread(s: Text, size: nat, e: nat, st: State)
  {
    st.queue == [] && ScanMisread(s, size, StartWindow(s, size, e, st.p), TokenStart(s, st.p))
  }

  function CallWindow(s: Text, size: nat, e: nat, st: State): nat
  {
    if st.queue != [] then e else ScanWindow(s, size, StartWindow(s, size, e, st.p), TokenStart(s, st.p))
  }

  /** The file as it is seen by all calls from `st` on, with a window that ends at `e`. */
  function SeenFrom(s: Text, size: nat, e: nat, st: State): Text
    decreases Left(s, st)
  {
    if Left(s, st) == 0 then s
    else if CallMisread(s, size, e, st) then WithLast(s, true)
    else
      LexShrinks(s, st, false);
      SeenFrom(s, size, CallWindow(s, size, e, st), Lex(s, st, false).next)
  }

  /** The file `s` as it is seen through a window of the given size. */
  function SeenBy(s: Text, size: nat): Text
  {
    SeenFrom(s, size, size, START)
  }
}
