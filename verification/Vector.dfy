/** The growable array of `src/vector.c`. */
module Vectors {
  import opened Growth

  const DEFAULT_CAP: nat := 16

  class Vector<T(0)> {
    var buf: array<T>
    var len: nat
    var cap: nat
    // The capacity the vector was created with, and how often it has doubled since.
    ghost const firstCap: nat
    ghost var doublings: nat
    // The largest length ever requested of it.
    ghost var peak: nat

    ghost predicate Valid()
      reads this
    {
      && cap > 0
      && buf.Length == cap
      && len <= peak <= cap
      && firstCap > 0
      && cap == firstCap * Pow2(doublings)
      && (doublings > 0 ==> cap < 2 * peak)
    }

    ghost function Contents(): (s: seq<T>)
      reads this, buf
      requires Valid()
      ensures |s| == len
    {
      buf[..len]
    }

    constructor (cap: nat)
      ensures Valid() && fresh(buf)
      ensures Contents() == []
      ensures this.cap == firstCap == if cap == 0 then DEFAULT_CAP else cap
    {
      var c := if cap == 0 then DEFAULT_CAP else cap;
      this.buf := new T[c];
      this.len := 0;
      this.cap := c;
      firstCap, doublings, peak := c, 0, 0;
    }

    method ResizeIfNeeded(newLen: nat)
      requires Valid()
      modifies this
      ensures Valid() && (buf == old(buf) || fresh(buf))
      ensures len == old(len) && newLen <= cap
      ensures buf[..len] == old(buf[..len])
      ensures cap == Grown(old(cap), newLen)
      ensures peak == if newLen > old(peak) then newLen else old(peak)
      ensures doublings >= old(doublings)
    {
      var newCap := DoubleUntil(cap, newLen);
      ghost var k := GrownFits(cap, newLen);
      peak := if newLen > peak then newLen else peak;
      if newCap == cap {
        return;
      }
      DoublingsAdd(firstCap, doublings, k);
      var p := new T[newCap];
      forall i | 0 <= i < len {
        p[i] := buf[i];
      }
      buf, cap := p, newCap;
      doublings := doublings + k;
    }

    method AppendArr(arr: seq<T>) returns (oldLen: nat)
      requires Valid()
      modifies this, buf
      ensures Valid() && (buf == old(buf) || fresh(buf))
      ensures oldLen == old(len)
      ensures Contents() == old(Contents()) + arr
      ensures doublings >= old(doublings) && peak >= old(peak)
    {
      oldLen := len;
      ghost var before := Contents();
      ResizeIfNeeded(len + |arr|);
      assert buf[..len] == before;
      forall i | 0 <= i < |arr| {
        buf[oldLen + i] := arr[i];
      }
      len := len + |arr|;
      forall k | 0 <= k < len ensures buf[k] == (before + arr)[k] {
        if k >= oldLen {
          assert buf[oldLen + (k - oldLen)] == arr[k - oldLen];
        }
      }
    }

    method Append(val: T) returns (oldLen: nat)
      requires Valid()
      modifies this, buf
      ensures Valid() && (buf == old(buf) || fresh(buf))
      ensures oldLen == old(len)
      ensures Contents() == old(Contents()) + [val]
      ensures doublings >= old(doublings) && peak >= old(peak)
    {
      oldLen := AppendArr([val]);
    }

    method Get(i: nat) returns (val: T)
      requires Valid() && i < len
      ensures val == Contents()[i]
    {
      val := buf[i];
    }

    method Set(i: nat, val: T)
      requires Valid() && i < len
      modifies buf
      ensures Valid()
      ensures Contents() == old(Contents())[i := val]
    {
      buf[i] := val;
    }

    /** Swap-remove: the last element takes the place of the removed one. */
    method Remove(i: nat)
      requires Valid() && i < len
      modifies this`len, buf
      ensures Valid()
      ensures Contents() == SwapRemoved(old(Contents()), i)
    {
      len := len - 1;
      buf[i] := buf[len];
    }
  }

  function SwapRemoved<T>(s: seq<T>, i: nat): seq<T>
    requires i < |s|
  {
    s[i := s[|s| - 1]][..|s| - 1]
  }

  /** Swap-remove takes out exactly one occurrence of the element at `i`. */
  lemma SwapRemoveTakesOne<T>(s: seq<T>, i: nat)
    requires i < |s|
    ensures multiset(SwapRemoved(s, i)) == multiset(s) - multiset{s[i]}
  {
    var last := |s| - 1;
    assert s == s[..last] + [s[last]];
    if i == last {
      assert SwapRemoved(s, i) == s[..last];
    } else {
      var t := s[..last];
      ReplaceOne(t, i, s[last]);
      assert SwapRemoved(s, i) == t[i := s[last]];
      assert multiset(s) == multiset(t) + multiset{s[last]};
    }
  }

  lemma ReplaceOne<T>(t: seq<T>, i: nat, x: T)
    requires i < |t|
    ensures multiset(t[i := x]) == multiset(t) - multiset{t[i]} + multiset{x}
  {
  }
}
