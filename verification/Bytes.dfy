/**
 Bytes, C strings and the character classes the lexer asks about.

 The program works on signed `char`. A byte is represented here by its unsigned
 code 0..255, so a C `char` is negative exactly when the code is 128 or more, and
 the value -1, which the lexer uses for end of file, is the code 255.
 */
module Bytes {

  type Byte = c: char | c as int < 256 witness 'a'

  type Text = seq<Byte>

  datatype Option<+T> = None | Some(value: T)

  const NUL: Byte := 0 as char

  /** What reading past the end yields; indistinguishable from a byte 0xFF in the file. */
  const EOF_CHAR: Byte := 255 as char

  predicate IsNegative(c: Byte) { c as int >= 128 }

  predicate IsDigit(c: Byte) { '0' <= c <= '9' }

  predicate IsAlpha(c: Byte) { 'a' <= c <= 'z' || 'A' <= c <= 'Z' }

  predicate IsAlnum(c: Byte) { IsAlpha(c) || IsDigit(c) }

  predicate IsBlank(c: Byte) { c == ' ' || c == '\t' }

  /** The C string that starts where `t` starts: everything before the first NUL. */
  function CString(t: Text): Text
  {
    if t == [] || t[0] == NUL then [] else [t[0]] + CString(t[1..])
  }

  /** Bytes after the first NUL do not matter. */
  lemma {:induction false} CStringIgnoresTail(t: Text, tail: Text)
    requires NUL in t
    ensures CString(t + tail) == CString(t)
  {
    if t[0] != NUL {
      assert (t + tail)[1..] == t[1..] + tail;
      CStringIgnoresTail(t[1..], tail);
    }
  }

  /** Terminating a text does not change the C string it is. */
  lemma {:induction false} CStringOfTerminated(t: Text)
    ensures CString(t + [NUL]) == CString(t)
  {
    if t != [] && t[0] != NUL {
      assert (t + [NUL])[1..] == t[1..] + [NUL];
      CStringOfTerminated(t[1..]);
    }
  }

  /** A text without NUL is its own C string. */
  lemma {:induction false} CStringOfClean(t: Text)
    requires NUL !in t
    ensures CString(t) == t
  {
    if t != [] {
      CStringOfClean(t[1..]);
    }
  }

  /** Comparing C strings up to their NUL is comparing all there is of them. */
  lemma {:induction false} CStringHasNoNul(t: Text)
    ensures NUL !in CString(t)
  {
    if t != [] && t[0] != NUL {
      CStringHasNoNul(t[1..]);
    }
  }

  /** `strcmp`, reduced to the sign of its result, which is all its callers use. */
  function StrCmp(a: Text, b: Text): int
  {
    if a == [] then (if b == [] then 0 else -1)
    else if b == [] then 1
    else if a[0] == b[0] then StrCmp(a[1..], b[1..])
    else if a[0] < b[0] then -1 else 1
  }

  lemma {:induction false} StrCmpZero(a: Text, b: Text)
    ensures StrCmp(a, b) == 0 <==> a == b
  {
    if a != [] && b != [] && a[0] == b[0] {
      StrCmpZero(a[1..], b[1..]);
      assert a == [a[0]] + a[1..] && b == [b[0]] + b[1..];
    }
  }

  lemma {:induction false} StrCmpAntisymmetric(a: Text, b: Text)
    ensures StrCmp(a, b) == -StrCmp(b, a)
  {
    if a != [] && b != [] && a[0] == b[0] {
      StrCmpAntisymmetric(a[1..], b[1..]);
    }
  }

  lemma {:induction false} StrCmpTransitive(a: Text, b: Text, c: Text)
    requires StrCmp(a, b) <= 0 && StrCmp(b, c) <= 0
    ensures StrCmp(a, c) <= 0
    ensures StrCmp(a, c) == 0 ==> StrCmp(a, b) == 0 && StrCmp(b, c) == 0
  {
    if a != [] && b != [] && c != [] && a[0] == b[0] == c[0] {
      StrCmpTransitive(a[1..], b[1..], c[1..]);
    }
  }

  /** Up to `k` the texts agree; there `a` goes on and `b` ends, or `a` has the greater byte. */
  predicate AfterAt(a: Text, b: Text, k: nat)
  {
    k < |a| && k <= |b| && a[..k] == b[..k] && (k == |b| || a[k] as int > b[k] as int)
  }

  /** `a` comes after `b` in the order of a dictionary. */
  ghost predicate TextAfter(a: Text, b: Text)
  {
    exists k: nat :: AfterAt(a, b, k)
  }

  lemma {:induction false} StrCmpMeaning(a: Text, b: Text)
    ensures StrCmp(a, b) > 0 <==> TextAfter(a, b)
  {
    if a != [] && b != [] && a[0] == b[0] {
      StrCmpMeaning(a[1..], b[1..]);
      if StrCmp(a, b) > 0 {
        var k: nat :| AfterAt(a[1..], b[1..], k);
        assert a[..k + 1] == [a[0]] + a[1..][..k] && b[..k + 1] == [b[0]] + b[1..][..k];
        assert AfterAt(a, b, k + 1);
      }
      if TextAfter(a, b) {
        var k: nat :| AfterAt(a, b, k);
        assert k > 0;
        assert a[1..][..k - 1] == a[..k][1..] && b[1..][..k - 1] == b[..k][1..];
        assert AfterAt(a[1..], b[1..], k - 1);
      }
    } else if StrCmp(a, b) > 0 {
      assert AfterAt(a, b, 0);
    } else {
      forall k: nat ensures !AfterAt(a, b, k) {
        FirstAgrees(a, b, k);
      }
    }
  }

  lemma FirstAgrees(a: Text, b: Text, k: nat)
    ensures k > 0 && AfterAt(a, b, k) ==> b != [] && a[0] == b[0]
  {
    if k > 0 && AfterAt(a, b, k) {
      assert a[..k][0] == b[..k][0];
    }
  }
}
