/** Which preview is run for a file, and what happens when it fails (`src/preview.c`). */
module Selection {
  import opened Bytes
  import opened Previews

  // ---- Matching ----

  /** The part after the last dot (`strrchr`). */
  function AfterLastDot(t: Text): (r: Option<Text>)
    ensures r.None? <==> '.' !in t
    ensures r.Some? ==> |r.value| < |t| && '.' !in r.value && t == t[..|t| - |r.value| - 1] + ['.'] + r.value
  {
    if t == [] then None
    else if t[|t| - 1] == '.' then
      assert t == t[..|t| - 1] + ['.'] + [];
      Some([])
    else
      match AfterLastDot(t[..|t| - 1])
      case None => assert t == t[..|t| - 1] + [t[|t| - 1]]; None
      case Some(r) =>
        assert t == t[..|t| - 1] + [t[|t| - 1]];
        assert t[..|t| - 1] == t[..|t| - |r| - 2] + ['.'] + r;
        Some(r + [t[|t| - 1]])
  }

  /** What a preview looks at of a file's extension: all of it, or what follows its last dot. */
  function ExtFor(p: Preview, ext: Option<Text>): Option<Text>
  {
    if ext.Some? && p.extShort then AfterLastDot(ext.value) else ext
  }

  /** A key that is not given matches anything. */
  predicate KeyMatches(key: Option<Text>, actual: Option<Text>)
  {
    key.None? || StrCmpNull(key, actual) == 0
  }

  datatype FileType = FileType(typ: Option<Text>, subtype: Option<Text>, ext: Option<Text>)

  predicate Matches(p: Preview, f: FileType)
  {
    KeyMatches(p.ext, ExtFor(p, f.ext)) && KeyMatches(p.typ, f.typ) && KeyMatches(p.subtype, f.subtype)
  }

  /** A match has each key missing or equal to the file's. */
  lemma MatchMeaning(p: Preview, f: FileType)
    ensures Matches(p, f) <==>
            && (p.ext == None || p.ext == ExtFor(p, f.ext))
            && (p.typ == None || p.typ == f.typ)
            && (p.subtype == None || p.subtype == f.subtype)
  {
    StrCmpNullFacts(p.ext, ExtFor(p, f.ext));
    StrCmpNullFacts(p.typ, f.typ);
    StrCmpNullFacts(p.subtype, f.subtype);
  }

  /** `t` ends in a dot and `part`. */
  predicate EndsInPart(t: Text, part: Text)
  {
    |part| < |t| && t[|t| - |part| - 1..] == ['.'] + part
  }

  lemma WholeEndsInPart(t: Text)
    ensures '.' in t ==> EndsInPart(t, AfterLastDot(t).value)
  {
    hide AfterLastDot, EndsInPart;
    if '.' in t {
      var part := AfterLastDot(t).value;
      SplitEndsInPart(t[..|t| - |part| - 1], part);
    }
  }

  lemma SplitEndsInPart(a: Text, part: Text)
    ensures EndsInPart(a + ['.'] + part, part)
  {
    assert (a + ['.'] + part)[|a|..] == ['.'] + part;
  }

  /** What `t` ends in after a dot, with no dot in it, is what follows its last dot. */
  lemma LastPartIs(t: Text, part: Text)
    ensures AfterLastDot(t) == Some(part) <==> EndsInPart(t, part) && '.' !in part
  {
    hide AfterLastDot, EndsInPart;
    if EndsInPart(t, part) && '.' !in part {
      EndsAfterDot(t, part);
    }
    if '.' in t {
      WholeEndsInPart(t);
    }
  }

  lemma {:induction false} EndsAfterDot(t: Text, part: Text)
    requires EndsInPart(t, part) && '.' !in part
    ensures AfterLastDot(t) == Some(part)
    decreases |part|
  {
    hide EndsInPart, AfterLastDot;
    if part == [] {
      EndsInDot(t);
      LastDotStep(t);
    } else {
      ShorterEnd(t, part);
      LastDotStep(t);
      EndsAfterDot(t[..|t| - 1], part[..|part| - 1]);
      assert part == part[..|part| - 1] + [part[|part| - 1]];
    }
  }

  lemma LastDotStep(t: Text)
    requires t != []
    ensures AfterLastDot(t) ==
            if t[|t| - 1] == '.' then Some([])
            else
              match AfterLastDot(t[..|t| - 1])
              case None => None
              case Some(r) => Some(r + [t[|t| - 1]])
  {
  }

  lemma EndsInDot(t: Text)
    requires EndsInPart(t, [])
    ensures t != [] && t[|t| - 1] == '.'
  {
    assert t[|t| - 1..][0] == '.';
  }

  lemma ShorterEnd(t: Text, part: Text)
    requires EndsInPart(t, part) && part != []
    ensures t != [] && EndsInPart(t[..|t| - 1], part[..|part| - 1])
    ensures t[|t| - 1] == part[|part| - 1]
  {
    var d := |t| - |part| - 1;
    assert t[|t| - 1] == t[d..][|part|];
    assert t[..|t| - 1][d..] == t[d..][..|part|] == ['.'] + part[..|part| - 1];
  }

  /**
   A preview matches exactly if its extension, if it has one, is the file's, or what the
   file's ends in after its last dot for a preview of the short kind, and its type and
   subtype, if it has them, are the file's.
   */
  lemma MatchesIff(p: Preview, f: FileType)
    ensures Matches(p, f) <==>
            && (p.ext.Some? && !p.extShort ==> f.ext == p.ext)
            && (p.ext.Some? && p.extShort ==>
                  f.ext.Some? && EndsInPart(f.ext.value, p.ext.value) && '.' !in p.ext.value)
            && (p.typ.Some? ==> f.typ == p.typ)
            && (p.subtype.Some? ==> f.subtype == p.subtype)
  {
    hide AfterLastDot, EndsInPart;
    MatchMeaning(p, f);
    if p.ext.Some? && f.ext.Some? {
      LastPartIs(f.ext.value, p.ext.value);
    }
  }

  const MIMETYPE_MAX: nat := 64

  /** Everything before the first slash, and everything after it. */
  function BreakMimetype(m: Text): (r: (Text, Text))
    requires '/' in m
    ensures m == r.0 + ['/'] + r.1 && '/' !in r.0
  {
    if m[0] == '/' then
      assert m == [] + ['/'] + m[1..];
      ([], m[1..])
    else
      var (typ, subtype) := BreakMimetype(m[1..]);
      assert m == [m[0]] + m[1..] == [m[0]] + typ + ['/'] + subtype;
      ([m[0]] + typ, subtype)
  }

  function TypeOf(ext: Option<Text>, mimetype: Text): FileType
    requires '/' in mimetype
  {
    var (typ, subtype) := BreakMimetype(mimetype);
    FileType(Some(typ), Some(subtype), ext)
  }

  /** The type is what comes before the first slash, the subtype what comes after it. */
  lemma TypeOfHalves(ext: Option<Text>, t: Text, u: Text)
    requires '/' !in t
    ensures '/' in t + "/" + u && TypeOf(ext, t + "/" + u) == FileType(Some(t), Some(u), ext)
  {
    var m := t + "/" + u;
    assert m[|t|] == '/';
    var (typ, subtype) := BreakMimetype(m);
    FirstSlash(m, typ, subtype, t, u);
  }

  lemma FirstSlash(m: Text, a: Text, b: Text, t: Text, u: Text)
    requires m == a + ['/'] + b == t + ['/'] + u && '/' !in a && '/' !in t
    ensures a == t && b == u
  {
    assert m[|a|] == m[|t|] == '/';
    assert forall k :: 0 <= k < |t| ==> m[k] == t[k];
    assert forall k :: 0 <= k < |a| ==> m[k] == a[k];
    assert !(|a| < |t|) && !(|t| < |a|);
    assert a == m[..|a|] && t == m[..|t|] && b == m[|a| + 1..] && u == m[|t| + 1..];
  }

  // ---- The first match is the most specific ----

  /** Lexicographically at least as high in (order, extension given, type given, subtype given, priority). */
  predicate AtLeastAsSpecific(p: Preview, q: Preview)
  {
    if p.order != q.order then p.order > q.order
    else if p.ext.Some? != q.ext.Some? then p.ext.Some?
    else if p.typ.Some? != q.typ.Some? then p.typ.Some?
    else if p.subtype.Some? != q.subtype.Some? then p.subtype.Some?
    else p.priority >= q.priority
  }

  ghost predicate FirstMatch(ps: seq<Preview>, f: FileType, k: nat)
  {
    k < |ps| && Matches(ps[k], f) && forall i :: 0 <= i < k ==> !Matches(ps[i], f)
  }

  /** On the keys after the extension, `q` ranks above `p`. */
  predicate LaterKeysAbove(q: Preview, p: Preview)
  {
    if p.typ.Some? != q.typ.Some? then q.typ.Some?
    else if p.subtype.Some? != q.subtype.Some? then q.subtype.Some?
    else q.priority > p.priority
  }

  /**
   Both have an extension, one for the whole of the file's and one for its last part,
   so that the text of the two decides before `q` could, which ranks above `p` otherwise.
   */
  predicate Upsets(q: Preview, p: Preview)
  {
    p.order == q.order && p.ext.Some? && q.ext.Some? && p.extShort != q.extShort && LaterKeysAbove(q, p)
  }

  /** The first match is at least as specific as any other exactly if that one does not upset the order. */
  lemma MostSpecificFirst(ps: seq<Preview>, f: FileType, k: nat, j: nat)
    requires Sorted(ps) && FirstMatch(ps, f, k)
    requires j < |ps| && Matches(ps[j], f)
    ensures AtLeastAsSpecific(ps[k], ps[j]) <==> !Upsets(ps[j], ps[k])
  {
    var p, q := ps[k], ps[j];
    MatchMeaning(p, f);
    MatchMeaning(q, f);
    assert k < j ==> Cmp(p, q) <= 0;
    StrCmpNullFacts(p.ext, q.ext);
    StrCmpNullFacts(p.typ, q.typ);
    StrCmpNullFacts(p.subtype, q.subtype);
  }

  ghost predicate MostSpecific(ps: seq<Preview>, f: FileType, k: nat)
    requires k < |ps|
  {
    forall j :: 0 <= j < |ps| && Matches(ps[j], f) ==> AtLeastAsSpecific(ps[k], ps[j])
  }

  /** In a given list, for a given file, the first match is the most specific exactly if no match upsets the order. */
  lemma MostSpecificIff(ps: seq<Preview>, f: FileType, k: nat)
    requires Sorted(ps) && FirstMatch(ps, f, k)
    ensures MostSpecific(ps, f, k) <==> forall j :: 0 <= j < |ps| && Matches(ps[j], f) ==> !Upsets(ps[j], ps[k])
  {
    forall j | 0 <= j < |ps| && Matches(ps[j], f)
      ensures AtLeastAsSpecific(ps[k], ps[j]) <==> !Upsets(ps[j], ps[k])
    {
      MostSpecificFirst(ps, f, k, j);
    }
  }

  /** Of one order, and a file that `whole` matches by its extension may be one that `short` matches. */
  predicate Overlap(whole: Preview, short: Preview)
  {
    && whole.order == short.order && !whole.extShort && short.extShort
    && whole.ext.Some? && short.ext.Some? && EndsInPart(whole.ext.value, short.ext.value)
  }

  ghost predicate NoOverlap(ps: seq<Preview>)
  {
    forall p, q :: p in ps && q in ps ==> !Overlap(p, q)
  }

  /** Two matches that read the extension differently overlap. */
  lemma UpsetsOverlap(p: Preview, q: Preview, f: FileType)
    requires Matches(p, f) && Matches(q, f)
    ensures Upsets(q, p) ==> Overlap(p, q) || Overlap(q, p)
  {
    MatchMeaning(p, f);
    MatchMeaning(q, f);
    if Upsets(q, p) {
      WholeEndsInPart(f.ext.value);
    }
  }

  /** Without overlap, the first match is the most specific for every file. */
  lemma NoOverlapMostSpecific(ps: seq<Preview>, f: FileType, k: nat)
    requires Sorted(ps) && FirstMatch(ps, f, k) && NoOverlap(ps)
    ensures MostSpecific(ps, f, k)
  {
    hide Matches, Upsets, Overlap;
    MostSpecificIff(ps, f, k);
    forall j | 0 <= j < |ps| && Matches(ps[j], f) ensures !Upsets(ps[j], ps[k]) {
      UpsetsOverlap(ps[k], ps[j], f);
    }
  }

  /** The extensions with a dot in the program's own table, and those looked for in the last part only. */
  const DOTTED_EXTS: seq<Text> := ["tar.gz", "tar.bz", "tar.bz2", "tar.Z", "tar.lzo", "tar.lz", "tar.xz", "tar.7z"]
  const SHORT_EXTS: seq<Text> := ["torrent", "gpg"]

  /** What of the built-in table matters here: its orders, and which extensions it has with which attribute. */
  ghost predicate ShippedTable(ps: seq<Preview>)
  {
    forall p :: p in ps ==>
      && p.order == 0
      && (p.extShort ==> p.ext.Some? && p.ext.value in SHORT_EXTS)
      && (!p.extShort && p.ext.Some? && '.' in p.ext.value ==> p.ext.value in DOTTED_EXTS)
  }

  lemma ShippedDoNotOverlap(ps: seq<Preview>)
    requires ShippedTable(ps)
    ensures NoOverlap(ps)
  {
    forall p, q | p in ps && q in ps ensures !Overlap(p, q) {
      if p.ext.Some? && q.ext.Some? && q.ext.value != [] {
        EndOfPart(p.ext.value, q.ext.value);
      }
    }
  }

  lemma EndOfPart(t: Text, part: Text)
    requires part != []
    ensures EndsInPart(t, part) ==> '.' in t && t[|t| - 1] == part[|part| - 1]
  {
    if EndsInPart(t, part) {
      var end := t[|t| - |part| - 1..];
      assert end[0] == '.' && end[|part|] == part[|part| - 1];
    }
  }

  // ---- Sorting the list ----

  /** `qsort` with `cmp_previews`: some sorted permutation. */
  method Qsort(a: array<Preview>)
    modifies a
    ensures SortedFrom(a[..], old(a[..]))
  {
    ghost var s := a[..];
    for i := 0 to a.Length
      invariant Sorted(a[..i])
      invariant multiset(a[..]) == multiset(s)
    {
      Insert(a, i);
    }
    assert a[..a.Length] == a[..];
  }

  /** Moves the element at `i` down to its place. */
  method Insert(a: array<Preview>, i: nat)
    requires i < a.Length && Sorted(a[..i])
    modifies a
    ensures Sorted(a[..i + 1])
    ensures multiset(a[..]) == multiset(old(a[..]))
  {
    hide Cmp, Sorted;
    ghost var s := a[..];
    var x := a[i];
    var j := i;
    while j > 0 && Cmp(a[j - 1], x) > 0
      invariant 0 <= j <= i
      invariant forall k :: 0 <= k < j || i < k < a.Length ==> a[k] == s[k]
      invariant forall k :: j < k <= i ==> a[k] == s[k - 1]
      invariant forall k :: j <= k < i ==> Cmp(s[k], x) > 0
    {
      a[j] := a[j - 1];
      j := j - 1;
    }
    a[j] := x;
    InsertDone(s, i, j, a[..]);
  }

  lemma InsertDone(s: seq<Preview>, i: nat, j: nat, t: seq<Preview>)
    requires j <= i < |s| == |t| && Sorted(s[..i])
    requires forall k :: 0 <= k < j || i < k < |s| ==> t[k] == s[k]
    requires t[j] == s[i] && forall k :: j < k <= i ==> t[k] == s[k - 1]
    requires forall k :: j <= k < i ==> Cmp(s[k], s[i]) > 0
    requires j > 0 ==> Cmp(s[j - 1], s[i]) <= 0
    ensures Sorted(t[..i + 1]) && multiset(t) == multiset(s)
  {
    hide Cmp, Sorted;
    assert t == Shifted(s, i, j);
    ShiftedSorts(s, i, j);
    ShiftedPermutes(s, i, j);
  }

  /** `s` with the element at `i` moved down to `j`. */
  ghost function Shifted(s: seq<Preview>, i: nat, j: nat): (r: seq<Preview>)
    requires j <= i < |s|
    ensures |r| == |s|
  {
    seq(|s|, k requires 0 <= k < |s| => if k < j || i < k then s[k] else if k == j then s[i] else s[k - 1])
  }

  lemma ShiftedPermutes(s: seq<Preview>, i: nat, j: nat)
    requires j <= i < |s|
    ensures multiset(Shifted(s, i, j)) == multiset(s)
  {
    assert Shifted(s, i, j) == s[..j] + [s[i]] + s[j..i] + s[i + 1..];
    assert s == s[..j] + s[j..i] + [s[i]] + s[i + 1..];
  }

  lemma ShiftedSorts(s: seq<Preview>, i: nat, j: nat)
    requires j <= i < |s| && Sorted(s[..i])
    requires forall k :: j <= k < i ==> Cmp(s[k], s[i]) > 0
    requires j > 0 ==> Cmp(s[j - 1], s[i]) <= 0
    ensures Sorted(Shifted(s, i, j)[..i + 1])
  {
    var r, x := Shifted(s, i, j)[..i + 1], s[i];
    forall a, b | 0 <= a < b < |r| ensures Cmp(r[a], r[b]) <= 0 {
      if a < j == b {
        if a < j - 1 {
          assert Cmp(s[..i][a], s[..i][j - 1]) <= 0;
          CmpTransitive(s[a], s[j - 1], x);
        }
      } else if a == j {
        CmpSign(x, s[b - 1]);
      } else {
        var a', b' := if a < j then a else a - 1, if b < j then b else b - 1;
        assert Cmp(s[..i][a'], s[..i][b']) <= 0;
      }
    }
  }

  // ---- Searching and running ----

  /** The positions of the matches from `i` on. */
  ghost function MatchesFrom(ps: seq<Preview>, f: FileType, i: nat): (m: seq<nat>)
    ensures forall j :: 0 <= j < |m| ==> i <= m[j] < |ps|
    decreases |ps| - i
  {
    if i >= |ps| then []
    else (if Matches(ps[i], f) then [i] else []) + MatchesFrom(ps, f, i + 1)
  }

  lemma MatchesFromStep(ps: seq<Preview>, f: FileType, i: nat)
    requires i < |ps|
    ensures MatchesFrom(ps, f, i) == (if Matches(ps[i], f) then [i] else []) + MatchesFrom(ps, f, i + 1)
    ensures !Matches(ps[i], f) ==> MatchesFrom(ps, f, i) == MatchesFrom(ps, f, i + 1)
  {
  }

  lemma MatchesFromEnd(ps: seq<Preview>, f: FileType, i: nat)
    requires i >= |ps|
    ensures MatchesFrom(ps, f, i) == []
  {
  }

  /** They are all the matches, each once, in the order of the list. */
  lemma MatchesFromMeaning(ps: seq<Preview>, f: FileType, i: nat)
    ensures forall k :: k in MatchesFrom(ps, f, i) <==> i <= k < |ps| && Matches(ps[k], f)
    ensures forall a, b :: 0 <= a < b < |MatchesFrom(ps, f, i)| ==> MatchesFrom(ps, f, i)[a] < MatchesFrom(ps, f, i)[b]
  {
    hide MatchesFrom, Matches;
    OnlyMatchesListed(ps, f, i);
    forall k | i <= k < |ps| && Matches(ps[k], f) ensures k in MatchesFrom(ps, f, i) {
      MatchIsListed(ps, f, i, k);
    }
  }

  lemma {:induction false} OnlyMatchesListed(ps: seq<Preview>, f: FileType, i: nat)
    ensures var m := MatchesFrom(ps, f, i);
            && (forall j :: 0 <= j < |m| ==> Matches(ps[m[j]], f))
            && forall a, b :: 0 <= a < b < |m| ==> m[a] < m[b]
    decreases |ps| - i
  {
    hide Matches, MatchesFrom;
    if i >= |ps| {
      MatchesFromEnd(ps, f, i);
    } else {
      OnlyMatchesListed(ps, f, i + 1);
      MatchesFromStep(ps, f, i);
      Prepended(ps, f, i, MatchesFrom(ps, f, i + 1));
    }
  }

  lemma Prepended(ps: seq<Preview>, f: FileType, i: nat, rest: seq<nat>)
    requires i < |ps| && forall j :: 0 <= j < |rest| ==> i < rest[j] < |ps| && Matches(ps[rest[j]], f)
    requires forall a, b :: 0 <= a < b < |rest| ==> rest[a] < rest[b]
    ensures var m := (if Matches(ps[i], f) then [i] else []) + rest;
            && (forall j :: 0 <= j < |m| ==> m[j] < |ps| && Matches(ps[m[j]], f))
            && forall a, b :: 0 <= a < b < |m| ==> m[a] < m[b]
  {
    hide Matches;
  }

  lemma {:induction false} MatchIsListed(ps: seq<Preview>, f: FileType, i: nat, k: nat)
    requires i <= k < |ps| && Matches(ps[k], f)
    ensures k in MatchesFrom(ps, f, i)
    decreases k - i
  {
    hide Matches;
    if i < k {
      MatchIsListed(ps, f, i + 1, k);
    }
  }

  /** The matches themselves. */
  ghost function Matching(ps: seq<Preview>, f: FileType): (ms: seq<Preview>)
  {
    var m := MatchesFrom(ps, f, 0);
    seq(|m|, j requires 0 <= j < |m| => ps[m[j]])
  }

  const NOTEXIST_EC: int := 127
  const ENOUGH_READ_EC: int := 141
  const SIGPIPE: int := 13

  /** What running a script came to: whether it could be run at all, its exit code, its signal. */
  datatype RunResult = RunResult(started: bool, exitcode: int, signal: int)

  datatype Outcome = NoPreviews | CannotRun | Finished(ok: bool)

  /** The preview says that it cannot handle the file. */
  predicate GaveUp(r: RunResult) { r.started && r.exitcode == NOTEXIST_EC }

  /** No other preview is tried, unless the script was run and exited with 127. */
  predicate EndsSearch(r: RunResult) { !(r.started && r.exitcode == 127) }

  /**
   What is reported of the last script that was run: that it could not be; or success,
   if it exited with 0, or with 141 or on signal 13 because enough was read; or failure.
   */
  predicate Reports(res: Outcome, r: RunResult)
  {
    && (res == CannotRun <==> !r.started)
    && (res == Finished(true) <==> r.started && (r.exitcode == 0 || r.exitcode == 141 || r.signal == 13))
    && (res == Finished(false) <==> r.started && !(r.exitcode == 0 || r.exitcode == 141 || r.signal == 13))
  }

  /** The first so many matches have been run in turn, all giving up but perhaps the last. */
  ghost predicate Tried(ps: seq<Preview>, m: seq<nat>, oracle: (nat, Preview) -> RunResult,
                        last: Option<RunResult>, executed: seq<nat>)
    requires forall j :: 0 <= j < |m| ==> m[j] < |ps|
  {
    && |executed| <= |m| && executed == m[..|executed|]
    && (forall j :: 0 <= j < |executed| - (if last.Some? then 1 else 0) ==> GaveUp(oracle(j, ps[m[j]])))
    && (last.Some? ==>
          && |executed| > 0 && !GaveUp(last.value)
          && last.value == oracle(|executed| - 1, ps[m[|executed| - 1]]))
  }

  /**
   What has been run when it is all over: a prefix of the matches `m`, all giving up but
   the last; "no previews" exactly if every match gives up, and then all of them were run;
   otherwise the result is that of the last one.
   */
  ghost predicate Reported(ps: seq<Preview>, m: seq<nat>, oracle: (nat, Preview) -> RunResult,
                           res: Outcome, executed: seq<nat>)
    requires forall j :: 0 <= j < |m| ==> m[j] < |ps|
  {
    && |executed| <= |m| && executed == m[..|executed|]
    && (forall j :: 0 <= j < |executed| - 1 ==> !EndsSearch(oracle(j, ps[m[j]])))
    && (res == NoPreviews <==> forall j :: 0 <= j < |m| ==> !EndsSearch(oracle(j, ps[m[j]])))
    && (res == NoPreviews ==> executed == m)
    && (res != NoPreviews ==>
          && |executed| > 0
          && var r := oracle(|executed| - 1, ps[m[|executed| - 1]]);
             EndsSearch(r) && Reports(res, r))
  }

  lemma NextOf(m: seq<nat>, n: nat, k: nat, rest: seq<nat>)
    requires n <= |m| && m[n..] == [k] + rest
    ensures n < |m| && m[n] == k && m[..n] + [k] == m[..n + 1] && m[n + 1..] == rest
  {
    assert m[n] == m[n..][0] == k;
    assert m[n + 1..] == m[n..][1..];
  }

  lemma TriedNone(ps: seq<Preview>, m: seq<nat>, oracle: (nat, Preview) -> RunResult)
    requires forall j :: 0 <= j < |m| ==> m[j] < |ps|
    ensures Tried(ps, m, oracle, None, [])
  {
  }

  lemma TriedNext(ps: seq<Preview>, m: seq<nat>, oracle: (nat, Preview) -> RunResult, executed: seq<nat>,
                  k: nat, r: RunResult)
    requires forall j :: 0 <= j < |m| ==> m[j] < |ps|
    requires Tried(ps, m, oracle, None, executed) && |executed| < |m| && m[|executed|] == k
    requires r == oracle(|executed|, ps[k])
    ensures executed + [k] == m[..|executed| + 1]
    ensures Tried(ps, m, oracle, if GaveUp(r) then None else Some(r), executed + [k])
  {
    hide GaveUp;
    assert executed + [k] == m[..|executed| + 1];
  }

  /** Everything before `i` that matches has been run and has given up. */
  ghost predicate Attempted(ps: seq<Preview>, f: FileType, oracle: (nat, Preview) -> RunResult, i: nat,
                            executed: seq<nat>)
  {
    var m := MatchesFrom(ps, f, 0);
    Tried(ps, m, oracle, None, executed) && MatchesFrom(ps, f, i) == m[|executed|..]
  }

  lemma NothingAttempted(ps: seq<Preview>, f: FileType, oracle: (nat, Preview) -> RunResult)
    ensures Attempted(ps, f, oracle, 0, [])
  {
    hide MatchesFrom;
    TriedNone(ps, MatchesFrom(ps, f, 0), oracle);
  }

  lemma AttemptedNext(ps: seq<Preview>, f: FileType, oracle: (nat, Preview) -> RunResult, i: nat,
                      executed: seq<nat>, k: nat, r: RunResult)
    requires Attempted(ps, f, oracle, i, executed) && k < |ps|
    requires MatchesFrom(ps, f, i) == [k] + MatchesFrom(ps, f, k + 1) && r == oracle(|executed|, ps[k])
    ensures if GaveUp(r) then Attempted(ps, f, oracle, k + 1, executed + [k])
            else Tried(ps, MatchesFrom(ps, f, 0), oracle, Some(r), executed + [k])
  {
    hide MatchesFrom, GaveUp, Tried;
    var m := MatchesFrom(ps, f, 0);
    TriedPrefix(ps, m, oracle, executed);
    NextOf(m, |executed|, k, MatchesFrom(ps, f, k + 1));
    TriedNext(ps, m, oracle, executed, k, r);
  }

  lemma AllAttempted(ps: seq<Preview>, f: FileType, oracle: (nat, Preview) -> RunResult, i: nat, executed: seq<nat>)
    requires Attempted(ps, f, oracle, i, executed) && MatchesFrom(ps, f, i) == []
    ensures Tried(ps, MatchesFrom(ps, f, 0), oracle, None, executed) && executed == MatchesFrom(ps, f, 0)
  {
    hide MatchesFrom, GaveUp;
  }

  lemma TriedPrefix(ps: seq<Preview>, m: seq<nat>, oracle: (nat, Preview) -> RunResult, executed: seq<nat>)
    requires forall j :: 0 <= j < |m| ==> m[j] < |ps|
    requires Tried(ps, m, oracle, None, executed)
    ensures |executed| <= |m|
  {
  }

  class PreviewTable {
    var list: array<Preview>

    /** `previews_init`. */
    constructor (ps: seq<Preview>)
      ensures fresh(list) && SortedFrom(list[..], ps)
    {
      list := new Preview[|ps|];
      new;
      var i := 0;
      while i < |ps|
        invariant fresh(list) && list.Length == |ps| && 0 <= i <= |ps|
        invariant list[..i] == ps[..i]
      {
        list[i] := ps[i];
        i := i + 1;
      }
      assert list[..] == ps;
      Qsort(list);
    }

    /** The first match at or after `i`. */
    method FindPreview(f: FileType, i: nat) returns (p: Option<Preview>, k: nat)
      requires i <= list.Length
      ensures i <= k <= list.Length
      ensures MatchesFrom(list[..], f, i) == if p == None then [] else [k] + MatchesFrom(list[..], f, k + 1)
      ensures p == if k < list.Length then Some(list[k]) else None
    {
      hide MatchesFrom, Matches;
      k := i;
      while k < list.Length
        invariant i <= k <= list.Length
        invariant MatchesFrom(list[..], f, k) == MatchesFrom(list[..], f, i)
      {
        MatchesFromStep(list[..], f, k);
        p := Some(list[k]);
        if Matches(list[k], f) {
          return;
        }
        k := k + 1;
      }
      MatchesFromEnd(list[..], f, k);
      p := None;
    }

    /** The retry loop of `preview_run`: runs matches until one does not give up. */
    method Retry(f: FileType, oracle: (nat, Preview) -> RunResult)
      returns (last: Option<RunResult>, executed: seq<nat>)
      ensures Tried(list[..], MatchesFrom(list[..], f, 0), oracle, last, executed)
      ensures last.None? ==> executed == MatchesFrom(list[..], f, 0)
    {
      hide MatchesFrom, Matches, GaveUp, Tried, Attempted;
      ghost var ps := list[..];
      executed := [];
      var i: nat := 0;
      NothingAttempted(ps, f, oracle);
      while true
        invariant i <= list.Length && Attempted(ps, f, oracle, i, executed)
        decreases list.Length - i
      {
        var p, k := FindPreview(f, i);
        if p == None {
          AllAttempted(ps, f, oracle, i, executed);
          return None, executed;
        }
        var r := oracle(|executed|, p.value);
        AttemptedNext(ps, f, oracle, i, executed, k, r);
        executed := executed + [k];
        if !GaveUp(r) {
          return Some(r), executed;
        }
        i := k + 1;
      }
    }

    /**
     `preview_run`. Whatever the scripts do, those run are the first matches of the list,
     in order, each once, up to the first that does not give up; there is "no preview"
     exactly when every match gives up.
     */
    method Run(ext: Option<Text>, mimetype: Text, oracle: (nat, Preview) -> RunResult)
      returns (res: Outcome, executed: seq<nat>)
      requires '/' in mimetype && |mimetype| < MIMETYPE_MAX - 1
      ensures Reported(list[..], MatchesFrom(list[..], TypeOf(ext, mimetype), 0), oracle, res, executed)
      ensures forall i :: 0 <= i < |executed| ==> executed[i] < list.Length
      ensures res != NoPreviews ==>
                && executed != []
                && var r := oracle(|executed| - 1, list[executed[|executed| - 1]]);
                   var enough := r.exitcode == 0 || r.exitcode == 141 || r.signal == 13;
                   && (r.started ==> r.exitcode != 127)
                   && (res == CannotRun <==> !r.started)
                   && (res == Finished(true) <==> r.started && enough)
                   && (res == Finished(false) <==> r.started && !enough)
    {
      hide MatchesFrom, Matches, TypeOf;
      var last;
      last, executed := Retry(TypeOf(ext, mimetype), oracle);
      if last == None {
        return NoPreviews, executed;
      }
      var r := last.value;
      if !r.started {
        return CannotRun, executed;
      }
      var exitcode := r.exitcode;
      if exitcode == ENOUGH_READ_EC {
        exitcode := 0;
      }
      if r.signal == SIGPIPE {
        exitcode := 0;
      }
      return Finished(exitcode == 0), executed;
    }
  }
}
