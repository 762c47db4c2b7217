/** One preview from end to end: configuration file, preview list, file to preview. */
module Session {
  import opened Bytes
  import LS = LexSpec
  import opened Windows
  import opened ConfigSpec
  import opened ConfigFacts
  import opened Config
  import opened Options
  import Meaning
  import opened Vectors
  import opened Previews
  import opened Selection
  import opened Paths
  import opened Printer
  import opened RoundTrip
  import opened Unclosed
  import C = Commands

  /** `init_previews`: the built-in previews, what the configuration makes of them, sorted. */
  method InitPreviews(data: Text, size: nat, builtins: seq<Preview>, opts: C.Options, found: Text -> bool)
    returns (loaded: bool, table: PreviewTable?)
    requires size >= 3 && Typed(opts) && LoadEnds(data, SeenBy(data, size), C.Env(Some(builtins), opts))
    ensures var r := Load(SeenBy(data, size), C.Env(Some(builtins), opts));
            && loaded == (r.ok && found(ShellOf(r.env.opts))) && r.env.previews.Some?
            && (loaded <==> table != null)
            && (loaded ==> SortedFrom(table.list[..], r.env.previews.value))
  {
    hide Load, LoadEnds, SeenBy, Sorted, Typed, ShellOf;
    var v := new Vector<Preview>(|builtins| + 20);
    var _ := v.AppendArr(builtins);
    assert v.Contents() == builtins;
    var opts';
    loaded, opts' := LoadConfig(data, size, v, opts, found);
    table := null;
    if loaded {
      table := new PreviewTable(v.buf[..v.len]);
    }
  }

  /**
   One preview from end to end. The previews run are the first matches of the sorted
   list, each given up by all but perhaps the last; the first of them is the most
   specific match, for every file if the built-in table is like the program's; and none
   is one that the configuration file removed for good, whatever the file to preview is
   and whatever the scripts do.
   */
  method PreviewFile(data: Text, size: nat, builtins: seq<Preview>, opts: C.Options, found: Text -> bool,
                     path: Text, mimetype: Text, oracle: (nat, Preview) -> RunResult)
    returns (loaded: bool, res: Outcome, ran: seq<Preview>, ghost list: seq<Preview>, ghost f: FileType)
    requires size >= 3 && Typed(opts) && LoadEnds(data, SeenBy(data, size), C.Env(Some(builtins), opts))
    requires path != [] && path[0] == '/' && '/' in mimetype && |mimetype| < MIMETYPE_MAX - 1
    ensures var r := Load(SeenBy(data, size), C.Env(Some(builtins), opts));
            && loaded == (r.ok && found(ShellOf(r.env.opts))) && r.env.previews.Some?
            && (loaded ==> SortedFrom(list, r.env.previews.value))
    ensures loaded ==> IsExt(path, f.ext) && f == TypeOf(f.ext, mimetype)
    ensures loaded ==> RanInOrder(Matching(list, f), oracle, res, ran)
    ensures loaded && ran != [] ==>
              forall q :: q in Matching(list, f) ==> (AtLeastAsSpecific(ran[0], q) <==> !Upsets(q, ran[0]))
    ensures loaded && ran != [] && (ShippedTable(builtins) || (AllBuiltin(builtins) && NoOverlap(builtins))) ==>
              forall q :: q in Matching(list, f) ==> AtLeastAsSpecific(ran[0], q)
    ensures forall name, p ::
              RemovedForGood(ParseFile(SeenBy(data, size)).cmds, name) && p in ran ==> p.name != name
    ensures loaded && res != NoPreviews ==>
              && ran != []
              && var r := oracle(|ran| - 1, ran[|ran| - 1]);
                 var enough := r.exitcode == 0 || r.exitcode == 141 || r.signal == 13;
                 && (r.started ==> r.exitcode != 127)
                 && (res == CannotRun <==> !r.started)
                 && (res == Finished(true) <==> r.started && enough)
                 && (res == Finished(false) <==> r.started && !enough)
    ensures loaded ==> AllSuit(ran, f.ext, mimetype)
    ensures !loaded ==> ran == []
  {
    hide Load, LoadEnds, Typed, ShellOf, SeenBy, ParseFile, RemovedForGood, MatchesFrom, IsExt, Matching,
      Reported, RanInOrder, AllSuit, Sorted, AtLeastAsSpecific, Upsets, NoOverlap, ShippedTable, AllBuiltin;
    ghost var seen, env := SeenBy(data, size), C.Env(Some(builtins), opts);
    res, ran, list, f := NoPreviews, [], [], FileType(None, None, None);
    var table;
    loaded, table := InitPreviews(data, size, builtins, opts, found);
    if !loaded {
      return;
    }
    var ext := GetExt(path);
    var executed;
    res, executed := table.Run(ext, mimetype, oracle);
    var ps := table.list[..];
    list, f := ps, TypeOf(ext, mimetype);
    ReportedInList(ps, f, oracle, res, executed);
    ran := seq(|executed|, i requires 0 <= i < |executed| => ps[executed[i]]);
    ReportedRan(ps, f, oracle, res, executed, ran);
    FirstIsMostSpecific(ps, f);
    if ShippedTable(builtins) {
      ShippedAreBuiltin(builtins);
    }
    if AllBuiltin(builtins) && NoOverlap(builtins) {
      NoOverlapListed(seen, env, ps);
    }
    RanAllSuit(ps, f, ran, mimetype);
    OutcomeOf(Matching(ps, f), oracle, res, ran);
    forall name, p | RemovedForGood(ParseFile(seen).cmds, name) && p in ran ensures p.name != name {
      assert p in list;
      RemovedNeverListed(seen, env, list, name, p);
    }
  }

  /** Commands written out and loaded back through the buffered lexer do what they say. */
  method LoadPrinted(cmds: seq<C.Command>, size: nat, previews: Vector?<Preview>, opts: C.Options,
                     found: Text -> bool, bare: Text -> bool)
    returns (ok: bool, newOpts: C.Options)
    requires size >= 3 && Typed(opts) && forall cmd :: cmd in cmds ==> Printable(cmd)
    requires previews != null ==> previews.Valid()
    modifies previews, if previews != null then {previews.buf} else {}
    ensures previews != null ==> previews.Valid()
    ensures var r := C.ExecAll(cmds, C.Env(if previews == null then None else Some(old(previews.Contents())), opts));
            && ok == (r.ok && found(ShellOf(newOpts))) && newOpts == r.env.opts
            && (previews == null <==> r.env.previews.None?)
            && (previews != null ==> multiset(previews.Contents()) == multiset(r.env.previews.value))
            && (r.ok ==> Meaning.CarriedOut(cmds, opts, newOpts,
                                      if previews == null then None else Some(previews.Contents())))
  {
    hide Load, LoadEnds, Typed, ShellOf, LS.Readable, SeenBy, Vector<Preview>.Valid, Vector<Preview>.Contents,
      C.ExecAll, PrintAll, ParseFile, Meaning.CarriedOut;
    PrintedParses(cmds, bare);
    PrintedSeen(cmds, size, bare);
    ReadableLoads(PrintAll(cmds, bare), PrintAll(cmds, bare),
                  C.Env(if previews == null then None else Some(previews.Contents()), opts));
    PrintedLoads(cmds, C.Env(if previews == null then None else Some(previews.Contents()), opts), bare);
    ok, newOpts := LoadConfig(PrintAll(cmds, bare), size, previews, opts, found);
  }

  const WINDOW: nat := 1024

  /**
   Through the program's own window: a file of as many bytes, of which nothing can be
   read as it is, for its only block is never closed, loads and defines a preview.
   */
  method UnclosedPreviewLoads(opts: C.Options, found: Text -> bool)
    returns (data: Text, ok: bool, defined: seq<Preview>)
    requires Typed(opts) && found(ShellOf(opts))
    ensures |data| == WINDOW && data[|data| - 1] == '}' && ParseFile(data) == Program([], false)
    ensures ok && |defined| == 1 && defined[0].name == "a" && defined[0].ext == Some("b")
  {
    hide Load, LoadEnds, Typed, ShellOf, LS.Readable, SeenBy, ParseFile, UnclosedFile;
    var body: Text := seq(WINDOW - 23, i => 'x');
    data := UnclosedFile(body);
    UnclosedPreviewRead(body);
    UnclosedFileReadable(body);
    ReadableLoads(data, SeenBy(data, WINDOW), C.Env(Some([]), opts));
    var v := new Vector<Preview>(20);
    var opts';
    ok, opts' := LoadConfig(data, WINDOW, v, opts, found);
    DefinitionLoads(SeenBy(data, WINDOW), body, opts);
    defined := v.buf[..v.len];
  }

  /** What the definition leaves in a list that was empty. */
  lemma DefinitionLoads(s: Text, body: Text, opts: C.Options)
    requires ParseFile(s) == Program([Definition(body)], true)
    ensures var r := Load(s, C.Env(Some([]), opts));
            && r.ok && r.env.opts == opts
            && r.env.previews == Some([C.Custom("a", C.TypeSet(None, None, Some("b")), body)])
  {
    hide ParseCommands, SkipNewlines, FirstCommand;
    var env := C.Env(Some([]), opts);
    var cmds, types := [Definition(body)], [C.TypeSet(None, None, Some("b"))];
    assert [] + C.Customs("a", types, body) == [C.Custom("a", types[0], body)];
    var env' := C.Exec(cmds[0], env).value;
    assert cmds[1..] == [] && C.ExecAll([], env') == C.Outcome(env', true);
    assert C.ExecAll(cmds, env) == C.ExecAll(cmds[1..], env');
  }

  /** The first so many matches, in order, up to the first that does not give up. */
  ghost predicate RanInOrder(ms: seq<Preview>, oracle: (nat, Preview) -> RunResult, res: Outcome, ran: seq<Preview>)
  {
    && |ran| <= |ms| && ran == ms[..|ran|]
    && (forall j :: 0 <= j < |ran| - 1 ==> !EndsSearch(oracle(j, ms[j])))
    && (res == NoPreviews <==> forall j :: 0 <= j < |ms| ==> !EndsSearch(oracle(j, ms[j])))
    && (res == NoPreviews ==> ran == ms)
    && (res != NoPreviews ==>
          && ran != [] && EndsSearch(oracle(|ran| - 1, ran[|ran| - 1]))
          && Reports(res, oracle(|ran| - 1, ran[|ran| - 1])))
  }

  lemma ReportedInList(ps: seq<Preview>, f: FileType, oracle: (nat, Preview) -> RunResult, res: Outcome,
                       executed: seq<nat>)
    requires Reported(ps, MatchesFrom(ps, f, 0), oracle, res, executed)
    ensures forall i :: 0 <= i < |executed| ==> executed[i] < |ps|
  {
  }

  /** The report in terms of positions, read as one in terms of previews. */
  lemma ReportedRan(ps: seq<Preview>, f: FileType, oracle: (nat, Preview) -> RunResult, res: Outcome,
                    executed: seq<nat>, ran: seq<Preview>)
    requires Reported(ps, MatchesFrom(ps, f, 0), oracle, res, executed)
    requires |ran| == |executed|
    requires forall i :: 0 <= i < |executed| ==> executed[i] < |ps| && ran[i] == ps[executed[i]]
    ensures RanInOrder(Matching(ps, f), oracle, res, ran)
    ensures ran != [] ==> Matching(ps, f) != [] && ran[0] == Matching(ps, f)[0]
    ensures forall p :: p in ran ==> p in ps && p in Matching(ps, f)
  {
    hide MatchesFrom;
    var m, ms := MatchesFrom(ps, f, 0), Matching(ps, f);
    assert forall i :: 0 <= i < |ran| ==> ran[i] == ms[i];
    assert forall j :: 0 <= j < |ms| ==> ms[j] == ps[m[j]];
  }

  /** A preview for files of that extension and of MIME type `t` slash `u`. */
  predicate Suits(p: Preview, ext: Option<Text>, t: Text, u: Text)
  {
    && (p.typ == None || p.typ == Some(t)) && (p.subtype == None || p.subtype == Some(u))
    && (p.ext == None || (ext.Some? && if p.extShort then EndsInPart(ext.value, p.ext.value) else p.ext == ext))
  }

  /** Of a MIME type `t` slash `u`, with no slash in `t`, only previews for that type have been run. */
  ghost predicate AllSuit(ran: seq<Preview>, ext: Option<Text>, mimetype: Text)
  {
    forall t: Text, u: Text, p :: '/' !in t && mimetype == t + "/" + u && p in ran ==> Suits(p, ext, t, u)
  }

  lemma RanAllSuit(ps: seq<Preview>, f: FileType, ran: seq<Preview>, mimetype: Text)
    requires '/' in mimetype && f == TypeOf(f.ext, mimetype) && forall p :: p in ran ==> p in Matching(ps, f)
    ensures AllSuit(ran, f.ext, mimetype)
  {
    hide Matching, Suits;
    forall t: Text, u: Text, p | '/' !in t && mimetype == t + "/" + u && p in ran ensures Suits(p, f.ext, t, u) {
      TypeOfHalves(f.ext, t, u);
      RanSuits(ps, f, p, t, u);
    }
  }

  lemma OutcomeOf(ms: seq<Preview>, oracle: (nat, Preview) -> RunResult, res: Outcome, ran: seq<Preview>)
    requires RanInOrder(ms, oracle, res, ran)
    ensures res != NoPreviews ==>
              && ran != []
              && var r := oracle(|ran| - 1, ran[|ran| - 1]);
                 var enough := r.exitcode == 0 || r.exitcode == 141 || r.signal == 13;
                 && (r.started ==> r.exitcode != 127)
                 && (res == CannotRun <==> !r.started)
                 && (res == Finished(true) <==> r.started && enough)
                 && (res == Finished(false) <==> r.started && !enough)
  {
  }

  lemma RanSuits(ps: seq<Preview>, f: FileType, p: Preview, t: Text, u: Text)
    requires p in Matching(ps, f) && f.typ == Some(t) && f.subtype == Some(u)
    ensures Suits(p, f.ext, t, u)
  {
    hide MatchesFrom, Matches, EndsInPart;
    var m := MatchesFrom(ps, f, 0);
    MatchesFromMeaning(ps, f, 0);
    var j :| 0 <= j < |m| && Matching(ps, f)[j] == p;
    assert m[j] in m;
    MatchesIff(p, f);
  }

  lemma FirstIsMostSpecific(list: seq<Preview>, f: FileType)
    requires Sorted(list)
    ensures Matching(list, f) != [] ==>
              forall q :: q in Matching(list, f) ==>
                (AtLeastAsSpecific(Matching(list, f)[0], q) <==> !Upsets(q, Matching(list, f)[0]))
    ensures Matching(list, f) != [] && NoOverlap(list) ==>
              forall q :: q in Matching(list, f) ==> AtLeastAsSpecific(Matching(list, f)[0], q)
  {
    hide AtLeastAsSpecific, Upsets, NoOverlap, Sorted, Matches, MatchesFrom;
    var m := MatchesFrom(list, f, 0);
    MatchesFromMeaning(list, f, 0);
    if m != [] {
      assert m[0] in m;
      forall i | 0 <= i < m[0] ensures i !in m {
        assert forall a :: 0 <= a < |m| ==> m[0] <= m[a];
      }
      forall a | 0 <= a < |m|
        ensures AtLeastAsSpecific(list[m[0]], list[m[a]]) <==> !Upsets(list[m[a]], list[m[0]])
        ensures NoOverlap(list) ==> AtLeastAsSpecific(list[m[0]], list[m[a]])
      {
        assert m[a] in m;
        MostSpecificFirst(list, f, m[0], m[a]);
        if NoOverlap(list) {
          NoOverlapMostSpecific(list, f, m[0]);
        }
      }
    }
  }

  predicate AllBuiltin(ps: seq<Preview>)
  {
    forall i :: 0 <= i < |ps| ==> ps[i].order == 0
  }

  lemma ShippedAreBuiltin(ps: seq<Preview>)
    requires ShippedTable(ps)
    ensures AllBuiltin(ps) && NoOverlap(ps)
  {
    ShippedDoNotOverlap(ps);
  }

  /** Nothing a configuration can say makes previews overlap. */
  lemma NoOverlapListed(data: Text, env: C.Env, list: seq<Preview>)
    requires env.previews.Some? && AllBuiltin(env.previews.value) && NoOverlap(env.previews.value)
    requires Load(data, env).env.previews.Some? ==> SortedFrom(list, Load(data, env).env.previews.value)
    ensures NoOverlap(list)
  {
    hide Sorted, Cmp, C.ExecAll, ParseCommands, C.KnownTo, C.IsCustom, Overlap;
    C.OnlyCustomsAreAdded(ParseFile(data).cmds, env);
    var builtins, end := env.previews.value, Load(data, env).env.previews.value;
    forall p, q | p in list && q in list ensures !Overlap(p, q) {
      assert p in multiset(list) && p in multiset(end) && q in multiset(list) && q in multiset(end);
      NoOverlapKnown(p, q, builtins);
    }
  }

  lemma NoOverlapKnown(p: Preview, q: Preview, builtins: seq<Preview>)
    requires AllBuiltin(builtins) && NoOverlap(builtins)
    requires C.IsCustom(p) || C.KnownTo(p, builtins)
    requires C.IsCustom(q) || C.KnownTo(q, builtins)
    ensures !Overlap(p, q)
  {
    hide EndsInPart;
    if !C.IsCustom(p) && !C.IsCustom(q) {
      var p' :| p' in builtins && C.SamePreview(p, p');
      var q' :| q' in builtins && C.SamePreview(q, q');
      assert !Overlap(p', q');
    }
  }

  lemma RemovedNeverListed(data: Text, env: C.Env, list: seq<Preview>, name: Text, p: Preview)
    requires Load(data, env).ok && env.previews.Some? && RemovedForGood(ParseFile(data).cmds, name)
    requires Load(data, env).env.previews.Some? ==> SortedFrom(list, Load(data, env).env.previews.value)
    requires p in list
    ensures p.name != name
  {
    RemovedIsGone(data, env, name);
    var ps := Load(data, env).env.previews.value;
    assert p in multiset(list) && p in multiset(ps);
    var i :| 0 <= i < |ps| && ps[i] == p;
  }

  /** Whatever the configuration file says, its own previews come before all built-in ones, of order 0. */
  lemma CustomsPrecedeBuiltins(data: Text, env: C.Env, list: seq<Preview>) returns (k: nat)
    requires env.previews.Some? && forall p :: p in env.previews.value ==> p.order == 0
    requires var end := Load(data, env).env.previews;
             end.Some? ==> SortedFrom(list, end.value)
    ensures k <= |list|
    ensures forall i :: 0 <= i < k ==> C.IsCustom(list[i])
    ensures forall i :: k <= i < |list| ==> C.KnownTo(list[i], env.previews.value)
  {
    hide Sorted, Cmp, C.ExecAll, ParseCommands, C.KnownTo, C.IsCustom;
    C.OnlyCustomsAreAdded(ParseFile(data).cmds, env);
    var builtins, end := env.previews.value, Load(data, env).env.previews.value;
    forall i | 0 <= i < |list|
      ensures if list[i].order == 1 then C.IsCustom(list[i]) else list[i].order == 0 && C.KnownTo(list[i], builtins)
    {
      assert list[i] in multiset(list) && list[i] in multiset(end);
      Origin(list[i], builtins);
    }
    k := CustomsFirst(list);
  }

  lemma Origin(p: Preview, builtins: seq<Preview>)
    requires forall q :: q in builtins ==> q.order == 0
    requires C.IsCustom(p) || C.KnownTo(p, builtins)
    ensures if p.order == 1 then C.IsCustom(p) else p.order == 0 && C.KnownTo(p, builtins)
  {
  }

  /**
   A preview from the configuration file matches if its extension is the file's, and its
   types are, each being free if left out or written as a star, quoted or not.
   */
  lemma CustomMatches(name: Text, t: C.TypeSet, script: Text, f: FileType)
    ensures Matches(C.Custom(name, t, script), f) <==>
            && (t.ext == None || t.ext == f.ext)
            && (t.typ == None || t.typ == Some("*") || t.typ == f.typ)
            && (t.subtype == None || t.subtype == Some("*") || t.subtype == f.subtype)
  {
    MatchMeaning(C.Custom(name, t, script), f);
  }
}
