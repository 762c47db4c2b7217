/** What each token is, byte by byte: the lexer's specification against the text of the file. */
module Tokens {
  import opened Bytes
  import opened LexSpec
  import opened LexFacts
  import opened Printer

  // ---- Where a token starts ----

  predicate IsSpace(c: Byte) { c == ' ' || c == '\t' }

  /** Spaces and tabs are skipped, then whole lines that start with a number sign, and nothing more. */
  lemma StartMeaning(s: Text, p: nat) returns (b: nat)
    requires p <= |s| && CommentsEnd(s, Span(s, p, IsBlank))
    ensures var start := TokenStart(s, p);
            && p <= b <= start <= |s|
            && (forall k :: p <= k < b ==> IsSpace(s[k])) && (b < |s| ==> !IsSpace(s[b]))
            && LineStart(s, b, start) && (start < |s| ==> s[start] != '#')
            && forall k :: b <= k < start && LineStart(s, b, k) ==> s[k] == '#'
  {
    b := Span(s, p, IsBlank);
    SkippedAreComments(s, b);
  }

  // ---- Single characters ----

  lemma CharToken(s: Text, p: nat, numIsText: bool)
    requires p < |s|
    ensures var r := Scan(s, p, numIsText);
            && (s[p] == '/' ==> r.tok.kind == Slash) && (s[p] == '*' ==> r.tok.kind == Star)
            && (s[p] == '.' ==> r.tok.kind == Dot)
            && (s[p] == '/' || s[p] == '*' || s[p] == '.' ==> r.next == State(p + 1, []))
  {
    hide Span, LineAt, ColAt;
  }

  /** The end of the file, and a byte that is -1 as a `char`. */
  lemma EndToken(s: Text, p: nat, numIsText: bool)
    ensures Scan(s, p, numIsText).tok.kind == Eof <==> p >= |s| || s[p] as int == 255
  {
    hide Span, LineAt, ColAt, CString, Slice, Atoi, BodyEnd;
  }

  /** All newlines in a row are one token. */
  lemma NewlineToken(s: Text, p: nat, numIsText: bool)
    requires p < |s|
    ensures var r := Scan(s, p, numIsText);
            && (r.tok.kind == NewLn <==> s[p] == '\n')
            && (s[p] == '\n' ==>
                  && p < r.next.p <= |s| && r.next.queue == []
                  && (forall k :: p <= k < r.next.p ==> s[k] == '\n')
                  && (r.next.p < |s| ==> s[r.next.p] != '\n'))
  {
    hide LineAt, ColAt, CString, Slice, Atoi, BodyEnd;
  }

  // ---- Words ----

  /** A letter starts a word; it goes on over letters, digits, underscores and hyphens, and any other byte ends it. */
  lemma WordToken(s: Text, p: nat, numIsText: bool)
    requires p < |s| && IsLetter(s[p])
    ensures var r := Scan(s, p, numIsText);
            && r.tok.kind == Str && r.next.queue == []
            && p < r.next.p <= |s| && r.tok.text == s[p..r.next.p]
            && (forall k :: p <= k < r.next.p ==> IsWordByte(s[k]))
            && (r.next.p < |s| ==> !IsWordByte(s[r.next.p]))
  {
    hide LineAt, ColAt, ScanSigned;
  }

  // ---- Numbers ----

  /** The token starts with a number: digits, or digits after a minus sign. */
  predicate NumberAt(s: Text, p: nat, b: nat)
  {
    b < |s| && '0' <= s[b] <= '9' && (b == p || (b == p + 1 && s[p] == '-'))
  }

  lemma NumberToken(s: Text, p: nat, b: nat, numIsText: bool)
    requires NumberAt(s, p, b)
    ensures var r := Scan(s, p, numIsText);
            var q := r.next.p;
            && r.next.queue == [] && b < q <= |s|
            && (forall k :: b <= k < q ==> '0' <= s[k] <= '9') && (q < |s| ==> !('0' <= s[q] <= '9'))
            && if numIsText then r.tok.kind == Str && r.tok.text == s[b..q]
               else r.tok.kind == Int && r.tok.num == if b == p then Atoi(s[b..q]) else -Atoi(s[b..q])
  {
    hide LineAt, ColAt, Atoi, ScanOther;
  }

  function Pow10(n: nat): nat
  {
    if n == 0 then 1 else 10 * Pow10(n - 1)
  }

  /** Digits have their decimal value, whatever zeros they start with. */
  lemma {:induction false} AtoiMeaning(a: Text, b: Text)
    ensures Atoi([]) == 0
    ensures Atoi(a + b) == Atoi(a) * Pow10(|b|) + Atoi(b)
    decreases |b|
  {
    if b == [] {
      assert a + b == a;
    } else {
      var b', d := b[..|b| - 1], b[|b| - 1];
      assert (a + b)[..|a + b| - 1] == a + b' && (a + b)[|a + b| - 1] == d;
      AtoiMeaning(a, b');
      Spread(Atoi(a), Pow10(|b'|), Atoi(b'));
    }
  }

  lemma Spread(x: int, y: int, z: int)
    ensures 10 * (x * y + z) == x * (10 * y) + 10 * z
  {
  }

  lemma AtoiDigit(d: Byte)
    ensures Atoi([d]) == d as int - 48
  {
    assert [d][..0] == [];
  }

  // ---- Strings ----

  /** A double quote, at the start or after a minus sign, which then is lost. */
  predicate QuoteAt(s: Text, p: nat, b: nat)
  {
    b < |s| && s[b] == '"' && (b == p || (b == p + 1 && s[p] == '-'))
  }

  /**
   A string goes on to the next double quote, to the first byte that is negative as a
   `char`, or to the end of the file, and takes one byte more. Its text ends at a NUL.
   */
  lemma StringToken(s: Text, p: nat, b: nat, numIsText: bool)
    requires QuoteAt(s, p, b)
    ensures var r := Scan(s, p, numIsText);
            var q := r.next.p - 1;
            && r.tok.kind == Str && r.next.queue == [] && b < q <= |s|
            && (forall k :: b < k < q ==> s[k] != '"' && s[k] as int < 128)
            && (q < |s| ==> s[q] == '"' || s[q] as int >= 128)
            && r.tok.text == CString(s[b + 1..q])
  {
    hide LineAt, ColAt, CString;
  }

  /** The bytes before the first NUL, if there is one. */
  lemma {:induction false} CStringMeaning(t: Text)
    ensures var c := CString(t);
            c <= t && NUL !in c && (|c| < |t| ==> t[|c|] as int == 0)
  {
    if t != [] && t[0] != NUL {
      CStringMeaning(t[1..]);
    }
  }

  // ---- What is no token ----

  predicate StartsNoToken(c: Byte)
  {
    && !IsLetter(c) && !('0' <= c <= '9') && c as int != 255
    && c != '/' && c != '*' && c != '.' && c != '\n' && c != '"'
  }

  /**
   Any other byte is an error and is consumed; a minus sign is consumed before it, and
   one with the end of the file behind it is an error of its own.
   */
  lemma ErrorToken(s: Text, p: nat, numIsText: bool)
    requires p < |s| && StartsNoToken(s[p])
    ensures var r := Scan(s, p, numIsText);
            && (s[p] != '-' && !(s[p] == '{' && At(s, p + 1) == '{') ==>
                  r.tok.kind == Err && r.next == State(p + 1, []))
            && (s[p] == '-' && (p + 1 == |s| || s[p + 1] as int == 255) ==>
                  r.tok.kind == Err && r.next == State(p + 1, []))
            && (s[p] == '-' && p + 1 < |s| && s[p + 1] as int != 255 && s[p + 1] != '"'
                && !('0' <= s[p + 1] <= '9') && !(s[p + 1] == '{' && At(s, p + 2) == '{') ==>
                  r.tok.kind == Err && r.next == State(p + 2, []))
  {
    hide Span, LineAt, ColAt, Slice, CString, Atoi, BodyEnd;
  }
}
