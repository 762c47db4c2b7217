/**
 The unrolled list of `src/ulist.c`: nodes of growing capacity, appended to at the
 tail, with a lock that keeps a half-built string contiguous by moving it to the
 new node whenever the tail overflows.
 */
module UnrolledLists {
  import opened Growth

  const DEFAULT_CAP: nat := 256
  const NO_LOCK: int := -1

  class Node<T(0)> {
    var len: nat
    const cap: nat
    var next: Node?<T>
    const buf: array<T>
    // The position of the node in its chain.
    ghost const rank: nat

    constructor (cap: nat, ghost rank: nat)
      ensures len == 0 && next == null && fresh(buf) && this.rank == rank
      ensures this.cap == buf.Length == if cap == 0 then DEFAULT_CAP else cap
    {
      var c := if cap == 0 then DEFAULT_CAP else cap;
      this.cap := c;
      this.buf := new T[c];
      this.rank := rank;
      len, next := 0, null;
    }
  }

  /** What `ulist_unlock` returns: a pointer into the buffer of a node. */
  datatype Ptr<T(0)> = NullPtr | Into(node: Node<T>, i: nat)

  /** A pointer that was handed out, with everything it then pointed to. */
  datatype Run<T(0)> = Run(ptr: Ptr<T>, text: seq<T>)

  class UList<T(0)> {
    var lockI: int
    var head: Node<T>
    var tail: Node<T>
    // The chain from head to tail, and what its nodes hold.
    ghost var nodes: seq<Node<T>>
    ghost var texts: seq<seq<T>>
    // Every string handed out so far.
    ghost var runs: set<Run<T>>
    ghost var Repr: set<object>

    predicate Locked()
      reads this
    {
      lockI != NO_LOCK
    }

    ghost predicate Shape()
      reads this, Repr
    {
      && this in Repr
      && |nodes| == |texts| > 0 && head == nodes[0] && tail == nodes[|nodes| - 1]
      && (forall i :: 0 <= i < |nodes| ==> NodeOk(nodes[i], i, texts[i]))
      && (forall i {:trigger nodes[i].next} :: 0 <= i < |nodes| - 1 ==> nodes[i].next == nodes[i + 1])
      && (forall i :: 0 <= i < |nodes| - 1 ==> nodes[i].buf != tail.buf)
      && tail.next == null
      && (lockI == NO_LOCK || 0 <= lockI <= tail.len)
    }

    ghost predicate NodeOk(node: Node<T>, i: nat, text: seq<T>)
      reads this, Repr
    {
      && node in Repr && node.buf in Repr && node.rank == i
      && 0 < node.cap == node.buf.Length && node.len <= node.cap
      && node.buf[..node.len] == text
    }

    /** How much of the tail no later append may touch. */
    ghost function Settled(): nat
      reads this
      requires |texts| > 0 && (lockI == NO_LOCK || 0 <= lockI)
    {
      if Locked() then lockI else |texts[|texts| - 1]|
    }

    ghost predicate Core()
      reads this, Repr
    {
      && Shape()
      && AllStable(runs, nodes, texts, Settled())
      && CapsDouble(Caps(nodes))
    }

    /** No capacity is wasted: the tail was made for what it holds or is about to hold. */
    ghost predicate TailUsed(extra: nat)
      reads this, tail
    {
      |nodes| > 1 ==> tail.cap < 2 * (|Contents()| + extra)
    }

    ghost predicate Valid()
      reads this, Repr
      ensures Valid() ==> this in Repr
    {
      Core() && TailUsed(0)
    }

    /** All elements of the list: what its nodes hold, one after the other. */
    ghost function Contents(): seq<T>
      reads this
    {
      Concat(texts)
    }

    /** The elements appended since the lock was taken. */
    ghost function Pending(): seq<T>
      reads this
    {
      if |texts| > 0 && 0 <= lockI <= |texts[|texts| - 1]| then texts[|texts| - 1][lockI..] else []
    }

    constructor (cap: nat)
      ensures Valid() && fresh(Repr)
      ensures Contents() == [] && !Locked() && runs == {}
      ensures Caps(nodes) == [if cap == 0 then DEFAULT_CAP else cap]
    {
      var n := new Node<T>(cap, 0);
      head, tail, lockI := n, n, NO_LOCK;
      nodes, texts, runs, Repr := [n], [[]], {}, {this, n, n.buf};
      new;
      ConcatSnoc<T>([], []);
    }

    /** Appending adds at the end, wherever the elements have to move. */
    method AppendArr(arr: seq<T>)
      requires Valid()
      modifies Repr
      ensures Valid() && fresh(Repr - old(Repr))
      ensures Contents() == old(Contents()) + arr
      ensures runs == old(runs)
      ensures Locked() == old(Locked())
      ensures Locked() ==> Pending() == old(Pending()) + arr
    {
      hide AllStable, CapsDouble, Concat, Caps, Grown;
      var cap := DoubleUntil(tail.cap, tail.len + |arr|);
      ghost var k := GrownFits(tail.cap, tail.len + |arr|);
      if cap != tail.cap {
        AddNode(cap, |arr|);
      }
      WriteAtTail(arr);
    }

    /** Links a bigger tail; a locked string moves to it as a whole. */
    method AddNode(cap: nat, ghost extra: nat)
      requires Valid()
      requires 2 * tail.cap <= cap < 2 * (tail.len + extra)
      requires tail.len + extra <= cap
      modifies this, tail
      ensures Core() && TailUsed(extra) && Repr == old(Repr) + {tail, tail.buf}
      ensures fresh(tail) && fresh(tail.buf)
      ensures Contents() == old(Contents())
      ensures runs == old(runs)
      ensures Locked() == old(Locked())
      ensures Locked() ==> Pending() == old(Pending())
      ensures tail.len + extra <= tail.cap
    {
      ghost var ns, ts, keep := nodes, texts, Settled();
      var newTail := new Node<T>(cap, |nodes|);
      Link(newTail);
      CapsPush(ns, tail);
      StableAfterSplit(runs, ns, tail, ts, keep);
      ConcatSplit(ts, keep);
    }

    /** The pointer work of `AddNode`. */
    method Link(newTail: Node<T>)
      requires Shape() && newTail !in Repr && newTail.buf !in Repr
      requires newTail.len == 0 && newTail.next == null && newTail.rank == |nodes|
      requires tail.cap <= newTail.cap == newTail.buf.Length
      modifies this`lockI, this`tail, this`nodes, this`texts, this`Repr, tail, newTail, newTail.buf
      ensures Shape() && Repr == old(Repr) + {newTail, newTail.buf}
      ensures nodes == old(nodes) + [newTail]
      ensures texts == SplitLast(old(texts), old(Settled()))
      ensures lockI == if old(Locked()) then 0 else NO_LOCK
    {
      hide AllStable, CapsDouble, Concat, Caps;
      ghost var ns, ts := nodes, texts;
      var node := tail;
      ghost var keep := Settled();
      Migrate(node, newTail);
      node.next := newTail;
      tail := newTail;
      nodes := ns + [newTail];
      texts := SplitLast(ts, keep);
      Repr := Repr + {newTail, newTail.buf};
    }

    /** Under the lock, moves the unfinished string to the node that is to be the tail. */
    method Migrate(node: Node<T>, newTail: Node<T>)
      requires node.len <= node.buf.Length <= newTail.buf.Length && newTail.len == 0
      requires lockI == NO_LOCK || 0 <= lockI <= node.len
      requires node != newTail && node.buf != newTail.buf
      modifies this`lockI, node`len, newTail`len, newTail.buf
      ensures lockI == if old(Locked()) then 0 else NO_LOCK
      ensures node.len == if old(Locked()) then old(lockI) else old(node.len)
      ensures newTail.len == old(node.len) - node.len
      ensures newTail.buf[..newTail.len] == node.buf[node.len..old(node.len)]
    {
      if lockI != NO_LOCK {
        newTail.len := node.len - lockI;
        forall i | 0 <= i < newTail.len {
          newTail.buf[i] := node.buf[lockI + i];
        }
        node.len := lockI;
        lockI := 0;
      }
    }

    /** Copies into the room that is there. */
    method WriteAtTail(arr: seq<T>)
      requires Core() && TailUsed(|arr|) && tail.len + |arr| <= tail.cap
      modifies this`texts, tail`len, tail.buf
      ensures Valid()
      ensures Contents() == old(Contents()) + arr
      ensures Locked() ==> Pending() == old(Pending()) + arr
    {
      hide AllStable, CapsDouble, Concat, Caps, LastGrown;
      ghost var ts, settled := texts, Settled();
      PutAtTail(arr);
      ConcatWrite(ts, arr);
      StableAfterWrite(runs, nodes, ts, arr, settled, Settled());
    }

    method PutAtTail(arr: seq<T>)
      requires Shape() && tail.len + |arr| <= tail.cap
      modifies this`texts, tail`len, tail.buf
      ensures Shape() && tail.len == old(tail.len) + |arr|
      ensures texts == LastGrown(old(texts), arr)
    {
      WriteElems(tail, arr);
      texts := LastGrown(texts, arr);
    }

    static method WriteElems(node: Node<T>, arr: seq<T>)
      requires node.len + |arr| <= node.buf.Length
      modifies node`len, node.buf
      ensures node.len == old(node.len) + |arr|
      ensures node.buf[..node.len] == old(node.buf[..node.len]) + arr
    {
      var n := node.len;
      forall i | 0 <= i < |arr| {
        node.buf[n + i] := arr[i];
      }
      node.len := n + |arr|;
    }

    method Append(val: T)
      requires Valid()
      modifies Repr
      ensures Valid() && fresh(Repr - old(Repr))
      ensures Contents() == old(Contents()) + [val]
      ensures runs == old(runs)
      ensures Locked() == old(Locked())
      ensures Locked() ==> Pending() == old(Pending()) + [val]
    {
      AppendArr([val]);
    }

    /** From here on elements stay together in memory. */
    method Lock()
      requires Valid()
      modifies this`lockI
      ensures Valid() && Locked()
      ensures Contents() == old(Contents()) && Pending() == []
    {
      lockI := tail.len;
    }

    /** Hands out everything appended since the lock as one contiguous run. */
    method Unlock() returns (p: Ptr<T>)
      requires Valid() && Locked()
      modifies this`lockI, this`runs
      ensures Valid() && !Locked()
      ensures Contents() == old(Contents())
      ensures p.Into? && runs == old(runs) + {Run(p, old(Pending()))}
    {
      p := Into(tail, lockI);
      runs := runs + {Run(p, Pending())};
      lockI := NO_LOCK;
    }

    /** Whatever was handed out is still there, in one piece, behind its pointer. */
    lemma RunsReadBack(r: Run<T>)
      requires Valid() && r in runs
      ensures r.ptr.Into? && r.ptr.node in Repr && r.ptr.node.buf in Repr
      ensures r.ptr.i + |r.text| <= r.ptr.node.buf.Length
      ensures r.ptr.node.buf[r.ptr.i..r.ptr.i + |r.text|] == r.text
    {
      var k := r.ptr.node.rank;
      assert NodeOk(nodes[k], k, texts[k]);
      var n := nodes[k];
      assert Stable(r, nodes, texts, Settled());
      assert n.buf[..n.len] == texts[k];
      SubSlice(n.buf[..], n.len, r.ptr.i, r.ptr.i + |r.text|);
    }
  }

  lemma SubSlice<T>(s: seq<T>, n: nat, a: nat, b: nat)
    requires a <= b <= n <= |s|
    ensures s[..n][a..b] == s[a..b]
  {
  }

  /** A run lies inside its node, and before `settled` if that node is the tail. */
  ghost predicate Stable<T(0)>(r: Run<T>, nodes: seq<Node<T>>, texts: seq<seq<T>>, settled: nat)
    requires |nodes| == |texts| > 0
  {
    && r.ptr.Into?
    && var k := r.ptr.node.rank;
    && k < |nodes| && nodes[k] == r.ptr.node
    && r.ptr.i + |r.text| <= |texts[k]|
    && (k == |nodes| - 1 ==> r.ptr.i + |r.text| <= settled)
    && texts[k][r.ptr.i..r.ptr.i + |r.text|] == r.text
  }

  ghost predicate AllStable<T(0)>(runs: set<Run<T>>, nodes: seq<Node<T>>, texts: seq<seq<T>>, settled: nat)
    requires |nodes| == |texts| > 0
  {
    forall r :: r in runs ==> Stable(r, nodes, texts, settled)
  }

  /** The last text with `arr` after it. */
  ghost function LastGrown<T>(texts: seq<seq<T>>, arr: seq<T>): (r: seq<seq<T>>)
    requires |texts| > 0
    ensures |r| == |texts|
    ensures forall i :: 0 <= i < |texts| - 1 ==> r[i] == texts[i]
    ensures r[|texts| - 1] == texts[|texts| - 1] + arr
  {
    texts[..|texts| - 1] + [texts[|texts| - 1] + arr]
  }

  /** Appending to the tail disturbs no run. */
  lemma StableAfterWrite<T(0)>(runs: set<Run<T>>, nodes: seq<Node<T>>, texts: seq<seq<T>>,
                               arr: seq<T>, settled: nat, settled': nat)
    requires |nodes| == |texts| > 0
    requires AllStable(runs, nodes, texts, settled) && settled <= settled'
    ensures AllStable(runs, nodes, LastGrown(texts, arr), settled')
  {
    hide LastGrown;
    var texts', last := LastGrown(texts, arr), |texts| - 1;
    forall r | r in runs ensures Stable(r, nodes, texts', settled') {
      assert Stable(r, nodes, texts, settled);
      if r.ptr.node.rank == last {
        var text := texts[last];
        assert (text + arr)[r.ptr.i..r.ptr.i + |r.text|] == text[r.ptr.i..r.ptr.i + |r.text|];
      }
    }
  }

  /** The last text cut in two at `keep`. */
  ghost function SplitLast<T>(texts: seq<seq<T>>, keep: nat): (r: seq<seq<T>>)
    requires |texts| > 0 && keep <= |texts[|texts| - 1]|
    ensures |r| == |texts| + 1
    ensures forall i :: 0 <= i < |texts| - 1 ==> r[i] == texts[i]
    ensures r[|texts| - 1] == texts[|texts| - 1][..keep]
    ensures r[|texts|] == texts[|texts| - 1][keep..]
  {
    var last := |texts| - 1;
    texts[..last] + [texts[last][..keep]] + [texts[last][keep..]]
  }

  /** Moving what lies beyond the settled part to a new node disturbs no run either. */
  lemma StableAfterSplit<T(0)>(runs: set<Run<T>>, nodes: seq<Node<T>>, newTail: Node<T>,
                               texts: seq<seq<T>>, keep: nat)
    requires |nodes| == |texts| > 0 && keep <= |texts[|texts| - 1]|
    requires AllStable(runs, nodes, texts, keep)
    ensures AllStable(runs, nodes + [newTail], SplitLast(texts, keep), 0)
  {
    var last := |texts| - 1;
    forall r | r in runs ensures Stable(r, nodes + [newTail], SplitLast(texts, keep), 0) {
      assert Stable(r, nodes, texts, keep);
      var k := r.ptr.node.rank;
      if k == last {
        SubSlice(texts[last], keep, r.ptr.i, r.ptr.i + |r.text|);
      }
    }
  }

  ghost function Concat<T>(texts: seq<seq<T>>): seq<T>
  {
    if texts == [] then [] else Concat(texts[..|texts| - 1]) + texts[|texts| - 1]
  }

  lemma ConcatSplit<T>(texts: seq<seq<T>>, keep: nat)
    requires |texts| > 0 && keep <= |texts[|texts| - 1]|
    ensures Concat(SplitLast(texts, keep)) == Concat(texts)
    ensures |texts[|texts| - 1]| <= |Concat(texts)|
  {
    var front, text := texts[..|texts| - 1], texts[|texts| - 1];
    assert texts == front + [text];
    assert text == text[..keep] + text[keep..];
    ConcatSnoc(front, text);
    ConcatSnoc(front, text[..keep]);
    ConcatSnoc(front + [text[..keep]], text[keep..]);
  }

  lemma ConcatWrite<T>(texts: seq<seq<T>>, arr: seq<T>)
    requires |texts| > 0
    ensures Concat(LastGrown(texts, arr)) == Concat(texts) + arr
  {
    hide LastGrown;
    var last, grown := |texts| - 1, LastGrown(texts, arr);
    assert grown[..last] == texts[..last];
    Associates(Concat(texts[..last]), texts[last], arr);
  }

  lemma Associates<T>(a: seq<T>, b: seq<T>, c: seq<T>)
    ensures a + (b + c) == a + b + c
  {
  }

  lemma ConcatSnoc<T>(texts: seq<seq<T>>, text: seq<T>)
    ensures Concat(texts + [text]) == Concat(texts) + text
  {
    assert (texts + [text])[..|texts|] == texts;
  }

  ghost function Caps<T(0)>(ns: seq<Node<T>>): seq<nat>
  {
    seq(|ns|, i requires 0 <= i < |ns| => ns[i].cap)
  }


  ghost predicate CapsDouble(cs: seq<nat>)
  {
    forall i, j :: 0 <= i < j < |cs| ==> 2 * cs[i] <= cs[j]
  }

  lemma CapsPush<T(0)>(ns: seq<Node<T>>, n: Node<T>)
    requires |ns| > 0 && CapsDouble(Caps(ns)) && 2 * ns[|ns| - 1].cap <= n.cap
    ensures CapsDouble(Caps(ns + [n]))
  {
    var cs := Caps(ns);
    assert Caps(ns + [n]) == cs + [n.cap];
    assert cs[|ns| - 1] == ns[|ns| - 1].cap;
  }

  ghost function Sum(cs: seq<nat>): nat
  {
    if cs == [] then 0 else Sum(cs[..|cs| - 1]) + cs[|cs| - 1]
  }

  lemma {:induction false} SumBelowTwiceLast(cs: seq<nat>)
    requires |cs| > 0 && cs[0] > 0 && CapsDouble(cs)
    ensures Sum(cs) < 2 * cs[|cs| - 1]
  {
    var front := cs[..|cs| - 1];
    if front != [] {
      SumBelowTwiceLast(front);
      assert 2 * front[|front| - 1] <= cs[|front|];
    } else {
      assert Sum(cs) == cs[0];
    }
  }

  /** A list of more than one node has allocated less than four times what it stores. */
  lemma CapacityBound<T(0)>(l: UList<T>)
    requires l.Valid() && |l.nodes| > 1
    ensures Sum(Caps(l.nodes)) < 4 * |l.Contents()|
    ensures forall i, j :: 0 <= i < j < |l.nodes| ==> 2 * l.nodes[i].cap <= l.nodes[j].cap
  {
    var cs := Caps(l.nodes);
    SumBelowTwiceLast(cs);
    assert forall i :: 0 <= i < |l.nodes| ==> cs[i] == l.nodes[i].cap;
  }
}
