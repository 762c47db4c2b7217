/** The extension of a path (`get_ext` in `src/utils.c`). */
module Paths {
  import opened Bytes

  predicate InTail(c: Byte) { c == '.' || IsAlnum(c) }

  /** Where the longest suffix of `path[..n]` made of letters, digits and dots starts. */
  function TailStart(path: Text, n: nat): (t: nat)
    requires n <= |path|
    ensures t <= n && (forall k :: t <= k < n ==> InTail(path[k])) && (t > 0 ==> !InTail(path[t - 1]))
  {
    if n > 0 && InTail(path[n - 1]) then TailStart(path, n - 1) else n
  }

  /**
   What follows the first dot in the longest suffix of letters, digits and dots, if
   there is a dot in it.
   */
  ghost predicate IsExt(path: Text, ext: Option<Text>)
  {
    var t := TailStart(path, |path|);
    && (ext.None? <==> '.' !in path[t..])
    && (ext.Some? ==>
          && |ext.value| < |path| - t
          && var d := |path| - |ext.value| - 1;
             path[d] == '.' && '.' !in path[t..d] && ext.value == path[d + 1..])
  }

  /**
   The walk backwards ends at the slash an absolute path starts with at the latest, so
   it never leaves the string.
   */
  method GetExt(path: Text) returns (ext: Option<Text>)
    requires path != [] && path[0] == '/'
    ensures IsExt(path, ext)
  {
    hide IsExt;
    var dot: Option<nat> := None;
    var s := |path| - 1;
    while true
      invariant 0 <= s < |path|
      invariant TailStart(path, s + 1) == TailStart(path, |path|)
      invariant dot.Some? ==> s + 2 <= dot.value <= |path| && path[dot.value - 1] == '.'
      invariant forall k :: s < k < |path| && (dot.Some? ==> k < dot.value - 1) ==> path[k] != '.'
      decreases s
    {
      if path[s] == '.' {
        dot := Some(s + 1);
        s := s - 1;
        continue;
      }
      if !IsAlnum(path[s]) || s == 0 {
        break;
      }
      s := s - 1;
    }
    ext := if dot.Some? then Some(path[dot.value..]) else None;
    WalkEnds(path, s, dot);
  }

  /** Where the walk stops, the last dot it met is the first of the suffix. */
  lemma WalkEnds(path: Text, s: nat, dot: Option<nat>)
    requires s < |path| && TailStart(path, |path|) == s + 1
    requires dot.Some? ==> s + 2 <= dot.value <= |path| && path[dot.value - 1] == '.'
    requires forall k :: s < k < |path| && (dot.Some? ==> k < dot.value - 1) ==> path[k] != '.'
    ensures IsExt(path, if dot.Some? then Some(path[dot.value..]) else None)
  {
    if dot.Some? {
      assert path[s + 1..][dot.value - s - 2] == '.';
    }
  }

  /** A letter, a digit or a dot. */
  predicate IsExtByte(c: Byte)
  {
    'a' <= c <= 'z' || 'A' <= c <= 'Z' || '0' <= c <= '9' || c == '.'
  }

  /**
   The extension of a path: at `t` its longest suffix of such bytes starts, and what
   follows the first dot in there is the extension; without a dot there is none.
   */
  lemma ExtMeaning(path: Text, ext: Option<Text>) returns (t: nat)
    requires IsExt(path, ext)
    ensures t <= |path| && (forall k :: t <= k < |path| ==> IsExtByte(path[k]))
    ensures t > 0 ==> !IsExtByte(path[t - 1])
    ensures ext.None? ==> forall k :: t <= k < |path| ==> path[k] != '.'
    ensures ext.Some? ==>
              var d := |path| - |ext.value| - 1;
              && t <= d < |path| && path[d] == '.' && ext.value == path[d + 1..]
              && forall k :: t <= k < d ==> path[k] != '.'
  {
    t := TailStart(path, |path|);
    if ext.Some? {
      var d := |path| - |ext.value| - 1;
      forall k | t <= k < d ensures path[k] != '.' {
        assert path[t..d][k - t] == path[k];
      }
    } else {
      forall k | t <= k < |path| ensures path[k] != '.' {
        assert path[t..][k - t] == path[k];
      }
    }
  }
}
