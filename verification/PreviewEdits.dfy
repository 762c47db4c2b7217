/** The loops of `src/config.c` that edit the preview vector. */
module PreviewEdits {
  import opened Bytes
  import opened Vectors
  import opened Previews
  import opened Commands
  import opened Meaning

  /** Sets the priority of every preview of that name and says whether there was one. */
  method AddPriority(ps: Vector<Preview>, name: Text, priority: int) returns (found: bool)
    requires ps.Valid()
    modifies ps.buf
    ensures ps.Valid()
    ensures ps.Contents() == WithPriority(old(ps.Contents()), name, priority)
    ensures found == Named(old(ps.Contents()), name)
    ensures found <==> SomeNamed(old(ps.Contents()), name)
    ensures |ps.Contents()| == |old(ps.Contents())|
    ensures forall i :: 0 <= i < |ps.Contents()| ==>
              var p := old(ps.Contents())[i];
              ps.Contents()[i] == if p.name == name then p.(priority := priority) else p
  {
    hide Vector<Preview>.Valid, Vector<Preview>.Contents, Named, SomeNamed, WithPriority, SetUpTo;
    ghost var s := ps.Contents();
    found := false;
    var i := 0;
    SetEnds(s, s, name, priority, false);
    while i < ps.len
      invariant ps.Valid() && i <= ps.len == |s|
      invariant SetUpTo(s, ps.Contents(), i, name, priority, found)
    {
      SetStep(s, ps.Contents(), i, name, priority, found);
      var p := ps.Get(i);
      if p.name == name {
        ps.Set(i, p.(priority := priority));
        found := true;
      }
      i := i + 1;
    }
    SetEnds(s, ps.Contents(), name, priority, found);
  }

  /** From `s`, the previews before `i` have been examined, and `t` is what has become of all. */
  ghost predicate SetUpTo(s: seq<Preview>, t: seq<Preview>, i: nat, name: Text, priority: int, found: bool)
  {
    && i <= |s| == |t|
    && t == WithPriority(s[..i], name, priority) + s[i..] && found == Named(s[..i], name)
  }

  /**
   In the end every preview of the name has the new priority and is otherwise the old
   one, at its place; the others are as they were.
   */
  lemma SetEnds(s: seq<Preview>, t: seq<Preview>, name: Text, priority: int, found: bool)
    ensures SetUpTo(s, s, 0, name, priority, false)
    ensures SetUpTo(s, t, |s|, name, priority, found) ==>
              && t == WithPriority(s, name, priority) && found == Named(s, name) == SomeNamed(s, name)
              && |t| == |s|
              && forall i :: 0 <= i < |s| ==> t[i] == if s[i].name == name then s[i].(priority := priority) else s[i]
  {
    PriorityEnds(s, name, priority);
    NamedMeaning(s, name);
  }

  lemma SetStep(s: seq<Preview>, t: seq<Preview>, i: nat, name: Text, priority: int, found: bool)
    requires i < |s| && SetUpTo(s, t, i, name, priority, found)
    ensures |t| == |s|
    ensures t[i].name != name ==> SetUpTo(s, t, i + 1, name, priority, found)
    ensures t[i].name == name ==> SetUpTo(s, t[i := t[i].(priority := priority)], i + 1, name, priority, true)
  {
    NamedSnoc(s, i, name);
    PriorityStep(s, i, name, priority);
  }

  lemma PriorityEnds(s: seq<Preview>, name: Text, priority: int)
    ensures WithPriority(s[..0], name, priority) + s[0..] == s && !Named(s[..0], name)
    ensures WithPriority(s[..|s|], name, priority) + s[|s|..] == WithPriority(s, name, priority)
    ensures s[..|s|] == s
  {
  }

  lemma PriorityStep(s: seq<Preview>, i: nat, name: Text, priority: int)
    requires i < |s|
    ensures var t := WithPriority(s[..i], name, priority) + s[i..];
            && |t| == |s| && t[i] == s[i]
            && t[i := Prioritized(s[i], name, priority)] == WithPriority(s[..i + 1], name, priority) + s[i + 1..]
            && (s[i].name != name ==> t == WithPriority(s[..i + 1], name, priority) + s[i + 1..])
  {
  }

  lemma NamedSnoc(s: seq<Preview>, i: nat, name: Text)
    requires i < |s|
    ensures Named(s[..i + 1], name) <==> Named(s[..i], name) || s[i].name == name
  {
    if Named(s[..i], name) {
      var k :| 0 <= k < i && s[..i][k].name == name;
      assert s[..i + 1][k].name == name;
    }
    if s[i].name == name {
      assert s[..i + 1][i].name == name;
    }
  }

  /**
   Removes every preview of that name and says whether there was one. Each removal
   moves the last preview into the hole; going backwards, that one has been examined
   already, so whatever lies above `i` is kept.
   */
  method RemovePreview(ps: Vector<Preview>, name: Text) returns (found: bool)
    requires ps.Valid()
    modifies ps`len, ps.buf
    ensures ps.Valid()
    ensures multiset(ps.Contents()) == multiset(Without(old(ps.Contents()), name))
    ensures found == Named(old(ps.Contents()), name)
    ensures found <==> SomeNamed(old(ps.Contents()), name)
    ensures forall p :: multiset(ps.Contents())[p] == if p.name == name then 0 else multiset(old(ps.Contents()))[p]
  {
    hide Vector<Preview>.Valid, Vector<Preview>.Contents, Named, SomeNamed, Without, SwapRemoved, Examined;
    ghost var s := ps.Contents();
    found := false;
    var i := ps.len - 1;
    ExaminedEnds(s, ps.Contents(), name);
    while i >= 0
      invariant ps.Valid() && -1 <= i < ps.len
      invariant Examined(s, ps.Contents(), i, name, found)
    {
      ExaminedStep(s, ps.Contents(), i, name, found);
      var p := ps.Get(i);
      if p.name == name {
        ps.Remove(i);
        found := true;
      }
      i := i - 1;
    }
    ExaminedEnds(s, ps.Contents(), name);
    NamedMeaning(s, name);
    forall p ensures multiset(ps.Contents())[p] == if p.name == name then 0 else multiset(s)[p] {
      WithoutCounts(s, name, p);
    }
  }

  /** From `s`, everything above `i` has been examined, and `t` is what is left. */
  ghost predicate Examined(s: seq<Preview>, t: seq<Preview>, i: int, name: Text, found: bool)
  {
    && -1 <= i < |t| <= |s|
    && t[..i + 1] == s[..i + 1]
    && (forall k :: i < k < |t| ==> t[k].name != name)
    && multiset(Without(t, name)) == multiset(Without(s, name))
    && found == Named(s[i + 1..], name)
  }

  lemma ExaminedEnds(s: seq<Preview>, t: seq<Preview>, name: Text)
    ensures Examined(s, s, |s| - 1, name, false)
    ensures forall found :: Examined(s, t, -1, name, found) ==>
              multiset(t) == multiset(Without(s, name)) && found == Named(s, name)
  {
    assert s[|s|..] == [] && s[0..] == s;
    if !Named(t, name) {
      WithoutOfNone(t, name);
    }
  }

  lemma ExaminedStep(s: seq<Preview>, t: seq<Preview>, i: nat, name: Text, found: bool)
    requires Examined(s, t, i, name, found)
    ensures i < |t|
    ensures t[i].name != name ==> Examined(s, t, i - 1, name, found)
    ensures t[i].name == name ==> Examined(s, SwapRemoved(t, i), i - 1, name, true)
  {
    NamedCons(s, i, name);
    assert t[i] == t[..i + 1][i] == s[i];
    assert t[..i] == t[..i + 1][..i] == s[..i];
    if t[i].name == name {
      WithoutSkipsSwapped(t, i, name);
      SwapRemoveAbove(t, i);
    }
  }

  lemma NamedCons(s: seq<Preview>, i: nat, name: Text)
    requires i < |s|
    ensures Named(s[i..], name) <==> Named(s[i + 1..], name) || s[i].name == name
  {
    if Named(s[i + 1..], name) {
      var k :| 0 <= k < |s| - i - 1 && s[i + 1..][k].name == name;
      assert s[i..][k + 1].name == name;
    }
    if s[i].name == name {
      assert s[i..][0].name == name;
    }
    if Named(s[i..], name) && s[i].name != name {
      var k :| 0 <= k < |s| - i && s[i..][k].name == name;
      assert s[i + 1..][k - 1].name == name;
    }
  }

  /** What was above `i`, less the last, is now at or above `i`, and what was below is untouched. */
  lemma SwapRemoveAbove(s: seq<Preview>, i: nat)
    requires i < |s|
    ensures SwapRemoved(s, i)[..i] == s[..i + 1][..i]
    ensures forall k :: i <= k < |s| - 1 ==> exists j :: i < j < |s| && SwapRemoved(s, i)[k] == s[j]
  {
    forall k | i <= k < |s| - 1 ensures exists j :: i < j < |s| && SwapRemoved(s, i)[k] == s[j] {
      assert SwapRemoved(s, i)[k] == s[if k == i then |s| - 1 else k];
    }
  }

  lemma WithoutSkipsSwapped(s: seq<Preview>, i: nat, name: Text)
    requires i < |s| && s[i].name == name
    ensures multiset(Without(SwapRemoved(s, i), name)) == multiset(Without(s, name))
  {
    SwapRemoveTakesOne(s, i);
    forall p ensures multiset(Without(SwapRemoved(s, i), name))[p] == multiset(Without(s, name))[p] {
      WithoutCounts(SwapRemoved(s, i), name, p);
      WithoutCounts(s, name, p);
    }
  }
}
