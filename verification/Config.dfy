/** The recursive-descent parser of `src/config.c`, which runs commands as it reads them. */
module Config {
  import opened Bytes
  import LS = LexSpec
  import opened Windows
  import opened LexFacts
  import opened ConfigSpec
  import opened UnrolledLists
  import opened InputBuffers
  import opened Lexers
  import opened Vectors
  import opened Previews
  import opened PreviewEdits
  import opened Options
  import Meaning
  import C = Commands

  datatype Status = StatOk | StatErr | StatNull

  /** `struct TypeSet`: pointers to text, null for what is not given. */
  datatype TypePtrs = TypePtrs(typ: Ptr<Byte>, subtype: Ptr<Byte>, ext: Ptr<Byte>)

  ghost predicate OptReads(p: Ptr<Byte>, t: Option<Text>, runs: set<Run<Byte>>)
  {
    match t
    case None => p == NullPtr
    case Some(u) => Reads(p, u, runs)
  }

  ghost predicate SetReads(ps: TypePtrs, t: C.TypeSet, runs: set<Run<Byte>>)
  {
    OptReads(ps.typ, t.typ, runs) && OptReads(ps.subtype, t.subtype, runs) && OptReads(ps.ext, t.ext, runs)
  }

  /** The pointers that the vector's copy of a preview has, and the preview they make. */
  datatype Stored = Stored(name: Ptr<Byte>, script: Ptr<Byte>, types: TypePtrs, preview: Preview)

  /** Behind each pointer is the text that the preview has there. */
  ghost predicate StoredReads(x: Stored, runs: set<Run<Byte>>)
  {
    && Reads(x.name, x.preview.name, runs) && Reads(x.script, x.preview.script, runs)
    && SetReads(x.types, C.TypeSet(x.preview.typ, x.preview.subtype, x.preview.ext), runs)
  }

  ghost predicate AllRead(xs: seq<Stored>, runs: set<Run<Byte>>)
  {
    forall i :: 0 <= i < |xs| ==> StoredReads(xs[i], runs)
  }

  ghost function Made(xs: seq<Stored>): (ps: seq<Preview>)
  {
    seq(|xs|, i requires 0 <= i < |xs| => xs[i].preview)
  }

  lemma AllReadStays(xs: seq<Stored>, runs: set<Run<Byte>>, runs': set<Run<Byte>>)
    requires AllRead(xs, runs) && runs <= runs'
    ensures AllRead(xs, runs')
  {
  }

  /** One more preview, a star of its types being no pointer at all. */
  ghost function StoredNow(name: Ptr<Byte>, script: Ptr<Byte>, ps: TypePtrs, p: Preview): Stored
  {
    Stored(name, script, TypePtrs(if p.typ == None then NullPtr else ps.typ,
                                  if p.subtype == None then NullPtr else ps.subtype, ps.ext), p)
  }

  lemma OneMoreStored(xs: seq<Stored>, runs: set<Run<Byte>>, name: Ptr<Byte>, script: Ptr<Byte>, ps: TypePtrs,
                      n: Text, sc: Text, t: C.TypeSet)
    requires AllRead(xs, runs) && Reads(name, n, runs) && Reads(script, sc, runs) && SetReads(ps, t, runs)
    ensures var more := xs + [StoredNow(name, script, ps, C.Custom(n, t, sc))];
            AllRead(more, runs) && Made(more) == Made(xs) + [C.Custom(n, t, sc)]
  {
    hide Reads;
  }

  /** What could be read once still can. */
  lemma ReadsStay(p: Ptr<Byte>, t: Text, runs: set<Run<Byte>>, runs': set<Run<Byte>>)
    requires runs <= runs'
    ensures Reads(p, t, runs) ==> Reads(p, t, runs')
    ensures OptReads(p, Some(t), runs) ==> OptReads(p, Some(t), runs')
  {
  }

  class Parser {
    const lexer: Lexer
    var token: Token
    const previews: Vector?<Preview>
    var opts: C.Options
    // The token as the specification has it.
    ghost var val: LS.Tok
    // How far the lexer may be asked to read.
    ghost const limit: int
    // The previews there are before any command, and those defined since.
    ghost const base: seq<Preview>
    ghost var stored: seq<Stored>

    constructor (lexer: Lexer, previews: Vector?<Preview>, opts: C.Options, ghost limit: int)
      requires lexer.Valid()
      requires previews != null ==> previews.Valid() && {previews, previews.buf} !! lexer.Repr()
      ensures this.lexer == lexer && this.previews == previews && this.opts == opts && this.limit == limit
      ensures stored == [] && base == if previews == null then [] else previews.Contents()
      ensures Holding() && this !in lexer.Repr()
    {
      this.lexer, this.previews, this.opts, this.limit := lexer, previews, opts, limit;
      base, stored := if previews == null then [] else previews.Contents(), [];
      token := Token(LS.Kind.Null, 0, 0, 0, NullPtr);
      val := LS.Tok(LS.Kind.Null, 0, 0, 0, []);
    }

    /** The file as it is seen through the lexer's window. */
    ghost function D(): Text { lexer.seen }

    ghost predicate Lexing()
      reads `token, `val, lexer.Repr(), lexer.textBuf
    {
      && lexer.Valid() && this !in lexer.Repr() && Denotes(token, val, lexer.textBuf.runs)
      && CallsEndTo(lexer.D(), lexer.State(), limit)
    }

    ghost predicate Within(c: Cursor) { Progress(c.lex) <= limit }

    ghost predicate Holding()
      reads this, previews, if previews != null then {previews.buf} else {}, lexer.textBuf
    {
      previews != null ==> previews.Valid() && {previews, previews.buf} !! lexer.Repr() + {this}
    }

    ghost function Cur(): Cursor
      reads `val, lexer.Repr(), lexer.textBuf
    {
      Cursor(lexer.State(), val)
    }

    ghost function Nt(): bool
      reads lexer
    {
      lexer.opts.NumIsText?
    }

    ghost function Runs(): set<Run<Byte>>
      reads lexer.textBuf
    {
      lexer.textBuf.runs
    }

    method NextToken()
      requires Lexing() && Within(Advance(D(), Cur(), Nt()))
      modifies `token, `val, lexer.Repr()
      ensures Lexing() && Nt() == old(Nt()) && old(Runs()) <= Runs()
      ensures fresh(lexer.Repr() - old(lexer.Repr()))
      ensures Cur() == Advance(D(), old(Cur()), Nt())
    {
      hide Lexer.Valid, CallsEndTo, LS.Lex, Reads, LS.CallEnds;
      ghost var st := lexer.State();
      ghost var r := LS.Lex(D(), st, lexer.opts.NumIsText?);
      LexProgresses(D(), st, lexer.opts.NumIsText?);
      NextTo(lexer.D(), st, limit);
      token := lexer.GetToken();
      val := r.tok;
      if lexer.State() != LS.Lex(lexer.D(), st, false).next {
        NothingMoreTo(lexer.D(), lexer.State(), limit);
      }
    }

    method Accept(kind: LS.Kind) returns (st: Status)
      requires Lexing() && (val.kind == kind ==> Within(Advance(D(), Cur(), Nt())))
      modifies `token, `val, lexer.Repr()
      ensures Lexing() && Nt() == old(Nt()) && old(Runs()) <= Runs()
      ensures fresh(lexer.Repr() - old(lexer.Repr()))
      ensures if old(val).kind == kind then st == StatOk && Cur() == Advance(D(), old(Cur()), Nt())
              else st == StatNull && Cur() == old(Cur())
    {
      hide Lexer.Valid, CallsEndTo, LS.Lex, Reads;
      if token.kind == kind {
        NextToken();
        return StatOk;
      }
      return StatNull;
    }

    method Expect(kind: LS.Kind) returns (st: Status)
      requires Lexing() && kind != LS.Eof
      requires Within(ConfigSpec.Expect(D(), Cur(), kind, Nt()).cur)
      modifies `token, `val, lexer.Repr()
      ensures Lexing() && Nt() == old(Nt()) && old(Runs()) <= Runs()
      ensures fresh(lexer.Repr() - old(lexer.Repr()))
      ensures match ConfigSpec.Expect(D(), old(Cur()), kind, Nt())
              case Fail(c) => Cur() == c && st == StatErr
              case Done(tok, c) =>
                && st == StatOk && Cur() == c
                && old(token).kind == tok.kind && old(token).i == tok.num
                && (kind == LS.Str ==> Reads(old(token).s, tok.text, Runs()))
    {
      hide Lexer.Valid, CallsEndTo, LS.Lex;
      st := Accept(kind);
      if st == StatOk {
        return StatOk;
      }
      return StatErr;
    }

    method PreviewTypeExt() returns (st: Status, ext: Ptr<Byte>)
      requires Lexing() && Nt()
      requires Within(ParseType(D(), Cur()).cur)
      modifies `token, `val, lexer.Repr()
      ensures Lexing() && Nt() && old(Runs()) <= Runs()
      ensures fresh(lexer.Repr() - old(lexer.Repr()))
      ensures if old(val).kind != LS.Dot then st == StatNull && Cur() == old(Cur())
              else match ParseType(D(), old(Cur()))
                   case Fail(c) => Cur() == c && st == StatErr
                   case Done(t, c) => st == StatOk && Cur() == c && SetReads(TypePtrs(NullPtr, NullPtr, ext), t, Runs())
    {
      hide Lexer.Valid, CallsEndTo, LS.Lex, LS.LexRun;
      ext := NullPtr;
      st := Accept(LS.Dot);
      if st != StatOk {
        return;
      }
      var tok := token;
      st := Expect(LS.Str);
      if st != StatOk {
        return;
      }
      ext := tok.s;
    }

    method PreviewTypeMimePart() returns (st: Status, s: Ptr<Byte>)
      requires Lexing() && Nt()
      requires Within(ParseMimePart(D(), Cur()).cur)
      modifies `token, `val, lexer.Repr()
      ensures Lexing() && Nt() && old(Runs()) <= Runs()
      ensures fresh(lexer.Repr() - old(lexer.Repr()))
      ensures match ParseMimePart(D(), old(Cur()))
              case Fail(c) => Cur() == c && st == StatErr
              case Done(t, c) => st == StatOk && Cur() == c && OptReads(s, t, Runs())
    {
      hide Lexer.Valid, CallsEndTo, LS.Lex;
      s := NullPtr;
      st := Accept(LS.Star);
      if st != StatNull {
        return;
      }
      var tok := token;
      st := Expect(LS.Str);
      if st != StatOk {
        return;
      }
      s := tok.s;
    }

    method PreviewTypeMime() returns (st: Status, typ: Ptr<Byte>, subtype: Ptr<Byte>)
      requires Lexing() && Nt() && val.kind != LS.Dot
      requires Within(ParseType(D(), Cur()).cur)
      modifies `token, `val, lexer.Repr()
      ensures Lexing() && Nt() && old(Runs()) <= Runs()
      ensures fresh(lexer.Repr() - old(lexer.Repr()))
      ensures match ParseType(D(), old(Cur()))
              case Fail(c) => Cur() == c && st == StatErr
              case Done(t, c) => st == StatOk && Cur() == c && SetReads(TypePtrs(typ, subtype, NullPtr), t, Runs())
    {
      hide Lexer.Valid, CallsEndTo, LS.Lex, Reads, ParseMimePart;
      subtype := NullPtr;
      st, typ := PreviewTypeMimePart();
      if st != StatOk {
        return;
      }
      ghost var t, runs := ParseMimePart(D(), old(Cur())).value, Runs();
      st := Expect(LS.Slash);
      if st != StatOk {
        return;
      }
      st, subtype := PreviewTypeMimePart();
      if t.Some? {
        ReadsStay(typ, t.value, runs, Runs());
      }
    }

    method SetLexerOpts(flags: LexerOpts)
      requires Lexing()
      modifies lexer`opts
      ensures Lexing() && Nt() == flags.NumIsText? && Cur() == old(Cur())
    {
      lexer.SetOpts(flags);
    }

    /** One type, read under the option that keeps numbers as text. */
    method PreviewType() returns (st: Status, ts: TypePtrs)
      requires Lexing() && !Nt()
      requires Within(ParseType(D(), Cur()).cur)
      modifies `token, `val, lexer.Repr()
      ensures Lexing() && !Nt() && old(Runs()) <= Runs()
      ensures fresh(lexer.Repr() - old(lexer.Repr()))
      ensures match ParseType(D(), old(Cur()))
              case Fail(c) => Cur() == c && st == StatErr
              case Done(t, c) => st == StatOk && Cur() == c && SetReads(ts, t, Runs())
    {
      hide Lexer.Valid, CallsEndTo, LS.Lex, ParseType;
      ts := TypePtrs(NullPtr, NullPtr, NullPtr);
      SetLexerOpts(NumIsText);
      var ext: Ptr<Byte>;
      st, ext := PreviewTypeExt();
      if st != StatNull {
        ts := ts.(ext := ext);
      } else {
        var typ, subtype;
        st, typ, subtype := PreviewTypeMime();
        ts := ts.(typ := typ, subtype := subtype);
      }
      SetLexerOpts(NoOpts);
    }

    method Deref(p: Ptr<Byte>, ghost u: Text) returns (t: Text)
      requires Lexing() && Reads(p, u, Runs())
      ensures t == u
    {
      t := lexer.Deref(p, u);
    }

    method DerefOpt(p: Ptr<Byte>, ghost u: Option<Text>) returns (t: Option<Text>)
      requires Lexing() && OptReads(p, u, Runs())
      ensures t == u
    {
      if p == NullPtr {
        return None;
      }
      var v := Deref(p, u.value);
      return Some(v);
    }

    method MakePreview(name: Text, script: Text, ps: TypePtrs, ghost t: C.TypeSet) returns (p: Preview)
      requires Lexing() && SetReads(ps, t, Runs())
      ensures p == C.Custom(name, t, script)
    {
      hide Lexer.Valid, Reads, OptReads;
      var typ := DerefOpt(ps.typ, t.typ);
      var subtype := DerefOpt(ps.subtype, t.subtype);
      var ext := DerefOpt(ps.ext, t.ext);
      p := Preview(name, ext, C.AnyTypeNull(typ), C.AnyTypeNull(subtype), script, 1, 0, false);
    }

    /** One custom preview per type, its texts looked up only now, and the pointers to them. */
    method AddPreview(name: Ptr<Byte>, script: Ptr<Byte>, types: seq<TypePtrs>,
                      ghost n: Text, ghost sc: Text, ghost ts: seq<C.TypeSet>)
      requires Lexing() && Holding() && AllRead(stored, Runs())
      requires Reads(name, n, Runs()) && Reads(script, sc, Runs()) && SetsRead(types, ts, Runs())
      modifies `stored, previews, if previews != null then {previews.buf} else {}
      ensures Holding() && AllRead(stored, Runs())
      ensures previews != null ==> fresh({previews.buf} - old({previews.buf}))
      ensures previews != null ==> previews.Contents() == old(previews.Contents()) + C.Customs(n, ts, sc)
      ensures Made(stored) == Made(old(stored)) + if previews == null then [] else C.Customs(n, ts, sc)
    {
      hide Lexing, Reads, SetReads, Vector<Preview>.Valid, Vector<Preview>.Contents, C.Customs, C.Custom, AllRead, Made;
      if previews == null {
        return;
      }
      var nameText := Deref(name, n);
      var scriptText := Deref(script, sc);
      CustomsFrom(n, ts, sc);
      ghost var before, made := previews.Contents(), Made(stored);
      for i := 0 to |types|
        invariant Lexing() && Holding() && Runs() == old(Runs()) && AllRead(stored, Runs())
        invariant fresh({previews.buf} - old({previews.buf}))
        invariant previews.Contents() == before + C.Customs(n, ts[..i], sc)
        invariant Made(stored) == made + C.Customs(n, ts[..i], sc)
      {
        CustomsSnoc(n, ts, sc, i);
        AddOne(nameText, scriptText, types[i], ts[i], name, script);
      }
    }

    method AddOne(name: Text, script: Text, ps: TypePtrs, ghost t: C.TypeSet, ghost np: Ptr<Byte>, ghost sp: Ptr<Byte>)
      requires Lexing() && Holding() && previews != null && SetReads(ps, t, Runs())
      requires AllRead(stored, Runs()) && Reads(np, name, Runs()) && Reads(sp, script, Runs())
      modifies `stored, previews, previews.buf
      ensures Lexing() && Holding() && fresh({previews.buf} - old({previews.buf})) && Runs() == old(Runs())
      ensures previews.Contents() == old(previews.Contents()) + [C.Custom(name, t, script)]
      ensures AllRead(stored, Runs()) && Made(stored) == Made(old(stored)) + [C.Custom(name, t, script)]
    {
      hide Lexer.Valid, CallsEndTo, Reads, SetReads, Vector<Preview>.Valid, Vector<Preview>.Contents, C.Custom,
        AllRead, Made, StoredNow;
      var p := MakePreview(name, script, ps, t);
      OneMoreStored(stored, Runs(), np, sp, ps, name, script, t);
      var _ := previews.Append(p);
      stored := stored + [StoredNow(np, sp, ps, p)];
    }

    /** A word and its text, as every command begins. */
    method ReadWord() returns (st: Status, text: Text)
      requires Lexing() && !Nt()
      requires Within(ConfigSpec.Expect(D(), Cur(), LS.Str, false).cur)
      modifies `token, `val, lexer.Repr()
      ensures Lexing() && !Nt() && old(Runs()) <= Runs()
      ensures fresh(lexer.Repr() - old(lexer.Repr()))
      ensures match ConfigSpec.Expect(D(), old(Cur()), LS.Str, false)
              case Fail(c) => Cur() == c && st == StatErr
              case Done(tok, c) => st == StatOk && Cur() == c && text == tok.text
    {
      hide Lexer.Valid, CallsEndTo, LS.Lex, Reads;
      text := [];
      var word := token;
      ghost var w := val.text;
      st := Expect(LS.Str);
      if st == StatOk {
        text := Deref(word.s, w);
      }
    }

    /** The types of a preview up to its opening braces. */
    method ReadTypes() returns (st: Status, types: seq<TypePtrs>, ghost ts: seq<C.TypeSet>)
      requires Lexing() && !Nt()
      requires Within(ParseTypes(D(), Cur(), []).cur)
      modifies `token, `val, lexer.Repr()
      ensures Lexing() && !Nt() && old(Runs()) <= Runs()
      ensures fresh(lexer.Repr() - old(lexer.Repr()))
      ensures match ParseTypes(D(), old(Cur()), [])
              case Fail(c) => Cur() == c && st == StatErr
              case Done(parsed, c) => st == StatOk && Cur() == c && ts == parsed && SetsRead(types, ts, Runs())
    {
      hide Lexer.Valid, CallsEndTo, LS.Lex, ParseType, SetReads;
      types, ts := [], [];
      while true
        invariant Lexing() && !Nt() && old(Runs()) <= Runs()
        invariant fresh(lexer.Repr() - old(lexer.Repr()))
        invariant |ts| <= MAX_TYPES && ParseTypes(D(), Cur(), ts) == ParseTypes(D(), old(Cur()), [])
        invariant SetsRead(types, ts, Runs())
        decreases MAX_TYPES - |ts|
      {
        ghost var before := Runs();
        st := Accept(LS.BlkOpen);
        SetsReadStays(types, ts, before, Runs());
        if st != StatNull {
          return;
        }
        if |types| >= MAX_TYPES {
          return StatErr, types, ts;
        }
        ghost var runs, cur := Runs(), Cur();
        var t;
        st, t := PreviewType();
        if st != StatOk {
          return;
        }
        ghost var parsed := ParseType(D(), cur).value;
        SetsReadMore(types, ts, runs, t, parsed, Runs());
        types, ts := types + [t], ts + [parsed];
      }
    }

    /** The previews and options are those of `env`, the previews in some order. */
    ghost predicate Holds(env: C.Env)
      reads this, previews, if previews != null then {previews.buf} else {}, lexer.textBuf
    {
      && Holding() && opts == env.opts
      && (previews == null <==> env.previews.None?)
      && (previews != null ==> multiset(previews.Contents()) == multiset(env.previews.value))
    }

    /**
     Each preview is one from before any command, but for its priority, or one whose
     pointers still have its texts behind them.
     */
    ghost predicate Kept(env: C.Env)
      reads `stored, lexer.textBuf
    {
      AllRead(stored, Runs()) && C.AllKnown(env, base + Made(stored))
    }

    method GetOption(name: Text) returns (r: Option<OptionDef>)
      ensures r == FindOption(OPTIONS, name)
    {
      var i := 0;
      assert OPTIONS[0..] == OPTIONS;
      while i < |OPTIONS|
        invariant 0 <= i <= |OPTIONS|
        invariant FindOption(OPTIONS[i..], name) == FindOption(OPTIONS, name)
      {
        if name == OPTIONS[i].name {
          return Some(OPTIONS[i]);
        }
        i := i + 1;
      }
      return None;
    }

    method CmdSet(ghost env: C.Env) returns (st: Status)
      requires Lexing() && !Nt() && Holds(env)
      requires Within(ParseSet(D(), Cur()).cur)
      modifies `token, `val, `opts, lexer.Repr()
      ensures Lexing() && !Nt() && old(Runs()) <= Runs()
      ensures fresh(lexer.Repr() - old(lexer.Repr()))
      ensures match ParseSet(D(), old(Cur()))
              case Fail(c) => Cur() == c && st == StatErr && Holds(env)
              case Done(cmd, c) =>
                match C.Exec(cmd, env)
                case None => st == StatErr && Cur() == c && Holds(env)
                case Some(env') => st == StatOk && Cur() == c && Holds(env')
    {
      hide Lexer.Valid, CallsEndTo, LS.Lex, FindOption, ParseValue, Reads;
      var nameText;
      st, nameText := ReadWord();
      if st != StatOk {
        return;
      }
      var opt := GetOption(nameText);
      if opt == None {
        return StatErr;
      }
      st := SetOption(nameText, opt.value.arg);
    }

    /** The value of an option, read and stored as its type asks. */
    method SetOption(name: Text, arg: ArgType) returns (st: Status)
      requires Lexing() && !Nt()
      requires Within(ParseValue(D(), Cur(), name, arg).cur)
      modifies `token, `val, `opts, lexer.Repr()
      ensures Lexing() && !Nt() && old(Runs()) <= Runs()
      ensures fresh(lexer.Repr() - old(lexer.Repr()))
      ensures match ParseValue(D(), old(Cur()), name, arg)
              case Fail(c) => Cur() == c && st == StatErr && opts == old(opts)
              case Done(cmd, c) => st == StatOk && Cur() == c && opts == old(opts)[cmd.option := cmd.value]
    {
      hide Lexer.Valid, CallsEndTo, LS.Lex, Reads;
      var value := token;
      match arg
      case Bool =>
        st := Accept(LS.Int);
        var v := if st == StatOk then value.i else 1;
        opts := opts[name := C.Num(v)];
        st := StatOk;
      case Integer =>
        st := Expect(LS.Int);
        if st == StatOk {
          opts := opts[name := C.Num(value.i)];
        }
      case String =>
        st := Expect(LS.Str);
        if st == StatOk {
          var text := Deref(value.s, ConfigSpec.Expect(D(), old(Cur()), LS.Str, false).value.text);
          opts := opts[name := C.Str(text)];
        }
    }

    /** The whole of a preview command after its keyword, with nothing done yet. */
    method ReadPreview() returns (st: Status, name: Ptr<Byte>, types: seq<TypePtrs>, script: Ptr<Byte>,
                                  ghost cmd: C.Command)
      requires Lexing() && !Nt()
      requires Within(ParsePreview(D(), Cur()).cur)
      modifies `token, `val, lexer.Repr()
      ensures Lexing() && !Nt() && old(Runs()) <= Runs()
      ensures fresh(lexer.Repr() - old(lexer.Repr()))
      ensures match ParsePreview(D(), old(Cur()))
              case Fail(c) => Cur() == c && st == StatErr
              case Done(parsed, c) =>
                && st == StatOk && Cur() == c && cmd == parsed && cmd.Add?
                && Reads(name, cmd.name, Runs()) && Reads(script, cmd.script, Runs())
                && SetsRead(types, cmd.types, Runs())
    {
      hide Lexer.Valid, CallsEndTo, LS.Lex, ParseTypes, ParseScript, SetsRead, Reads;
      cmd := C.Add([], [], []);
      types, script := [], NullPtr;
      name := token.s;
      st := Expect(LS.Str);
      if st != StatOk {
        return;
      }
      ghost var n, runs0 := old(val).text, Runs();
      ghost var ts;
      st, types, ts := ReadTypes();
      if st != StatOk {
        return;
      }
      ghost var sc, runs;
      runs := Runs();
      st, script, sc := ReadScript();
      ReadsStay(name, n, runs0, Runs());
      SetsReadStays(types, ts, runs, Runs());
      cmd := C.Add(n, ts, sc);
    }

    method ReadScript() returns (st: Status, script: Ptr<Byte>, ghost text: Text)
      requires Lexing() && !Nt()
      requires Within(ParseScript(D(), Cur()).cur)
      modifies `token, `val, lexer.Repr()
      ensures Lexing() && !Nt() && old(Runs()) <= Runs()
      ensures fresh(lexer.Repr() - old(lexer.Repr()))
      ensures match ParseScript(D(), old(Cur()))
              case Fail(c) => Cur() == c && st == StatErr
              case Done(parsed, c) => st == StatOk && Cur() == c && text == parsed && Reads(script, text, Runs())
    {
      hide Lexer.Valid, CallsEndTo, LS.Lex, Reads;
      script, text := token.s, val.text;
      st := Expect(LS.Str);
      if st != StatOk {
        return;
      }
      ghost var runs := Runs();
      st := Expect(LS.BlkCls);
      ReadsStay(script, text, runs, Runs());
    }

    method CmdPreview(ghost env: C.Env) returns (st: Status)
      requires Lexing() && !Nt() && Holds(env) && AllRead(stored, Runs())
      requires Within(ParsePreview(D(), Cur()).cur)
      modifies `token, `val, `stored, lexer.Repr(), previews, if previews != null then {previews.buf} else {}
      ensures Lexing() && !Nt() && old(Runs()) <= Runs()
      ensures fresh(lexer.Repr() - old(lexer.Repr()))
      ensures previews != null ==> fresh({previews.buf} - old({previews.buf}))
      ensures AllRead(stored, Runs())
      ensures Made(stored) == Made(old(stored)) + MadeBy(ParsePreview(D(), old(Cur())), env)
      ensures match ParsePreview(D(), old(Cur()))
              case Fail(c) => Cur() == c && st == StatErr && Holds(env)
              case Done(cmd, c) =>
                match C.Exec(cmd, env)
                case None => st == StatErr && Cur() == c && Holds(env)
                case Some(env') => st == StatOk && Cur() == c && Holds(env')
    {
      hide Lexer.Valid, CallsEndTo, LS.Lex, ParsePreview, Reads, SetsRead, Vector<Preview>.Valid,
        Vector<Preview>.Contents, C.Customs, C.Exec, C.Added, AllRead, Made;
      ghost var runs, parsed := Runs(), ParsePreview(D(), Cur());
      var name, types, script;
      ghost var cmd;
      st, name, types, script, cmd := ReadPreview();
      AllReadStays(stored, runs, Runs());
      if st != StatOk {
        return;
      }
      DefinePreview(name, script, types, cmd, env);
    }

    /** The effect of a definition. */
    method DefinePreview(name: Ptr<Byte>, script: Ptr<Byte>, types: seq<TypePtrs>, ghost cmd: C.Command,
                         ghost env: C.Env)
      requires Lexing() && Holds(env) && AllRead(stored, Runs()) && cmd.Add?
      requires Reads(name, cmd.name, Runs()) && Reads(script, cmd.script, Runs()) && SetsRead(types, cmd.types, Runs())
      modifies `stored, previews, if previews != null then {previews.buf} else {}
      ensures AllRead(stored, Runs()) && Made(stored) == Made(old(stored)) + C.Added(cmd, env)
      ensures previews != null ==> fresh({previews.buf} - old({previews.buf}))
      ensures Lexing() && Cur() == old(Cur()) && Nt() == old(Nt()) && Runs() == old(Runs())
      ensures C.Exec(cmd, env).Some? && Holds(C.Exec(cmd, env).value)
    {
      hide Lexer.Valid, CallsEndTo, Reads, SetsRead, Vector<Preview>.Valid, Vector<Preview>.Contents,
        C.Customs, AllRead, Made;
      AddPreview(name, script, types, cmd.name, cmd.script, cmd.types);
    }

    /** `add_priority`: without a preview list there is nothing to miss. */
    method SetPriority(name: Text, priority: int, ghost env: C.Env) returns (ok: bool)
      requires Holds(env)
      modifies if previews != null then {previews.buf} else {}
      ensures match C.Exec(C.Priority(name, priority), env)
              case None => !ok && Holds(env)
              case Some(env') => ok && Holds(env')
    {
      hide Vector<Preview>.Valid, Vector<Preview>.Contents, C.Named, C.WithPriority;
      if previews == null {
        return true;
      }
      ghost var s := previews.Contents();
      C.NamedPermutes(s, env.previews.value, name);
      C.WithPriorityPermutes(s, env.previews.value, name, priority);
      if !C.Named(s, name) {
        C.WithPriorityOfNone(s, name, priority);
      }
      ok := AddPriority(previews, name, priority);
    }

    /** `remove_preview`. */
    method DropPreview(name: Text, ghost env: C.Env) returns (ok: bool)
      requires Holds(env)
      modifies previews, if previews != null then {previews.buf} else {}
      ensures previews != null ==> previews.buf == old(previews.buf)
      ensures match C.Exec(C.Remove(name), env)
              case None => !ok && Holds(env)
              case Some(env') => ok && Holds(env')
    {
      hide Vector<Preview>.Valid, Vector<Preview>.Contents, C.Named, C.Without;
      if previews == null {
        return true;
      }
      ghost var s := previews.Contents();
      C.NamedPermutes(s, env.previews.value, name);
      C.WithoutPermutes(s, env.previews.value, name);
      if !C.Named(s, name) {
        C.WithoutOfNone(s, name);
      }
      ok := RemovePreview(previews, name);
    }

    method ReadPriority() returns (st: Status, name: Text, priority: int)
      requires Lexing() && !Nt()
      requires Within(ParsePriority(D(), Cur()).cur)
      modifies `token, `val, lexer.Repr()
      ensures Lexing() && !Nt() && old(Runs()) <= Runs()
      ensures fresh(lexer.Repr() - old(lexer.Repr()))
      ensures match ParsePriority(D(), old(Cur()))
              case Fail(c) => Cur() == c && st == StatErr
              case Done(cmd, c) => st == StatOk && Cur() == c && cmd == C.Priority(name, priority)
    {
      hide Lexer.Valid, CallsEndTo, LS.Lex, Reads;
      priority := 1;
      AdvanceShrinks(D(), ConfigSpec.Expect(D(), Cur(), LS.Str, false).cur, false);
      st, name := ReadWord();
      if st != StatOk {
        return;
      }
      var number := token;
      st := Accept(LS.Int);
      priority := if st == StatOk then number.i else 1;
      st := StatOk;
    }

    method CmdPriority(ghost env: C.Env) returns (st: Status)
      requires Lexing() && !Nt() && Holds(env)
      requires Within(ParsePriority(D(), Cur()).cur)
      modifies `token, `val, lexer.Repr(), previews, if previews != null then {previews.buf} else {}
      ensures Lexing() && !Nt() && old(Runs()) <= Runs()
      ensures fresh(lexer.Repr() - old(lexer.Repr()))
      ensures previews != null ==> fresh({previews.buf} - old({previews.buf}))
      ensures match ParsePriority(D(), old(Cur()))
              case Fail(c) => Cur() == c && st == StatErr && Holds(env)
              case Done(cmd, c) =>
                match C.Exec(cmd, env)
                case None => st == StatErr && Cur() == c && Holds(env)
                case Some(env') => st == StatOk && Cur() == c && Holds(env')
    {
      hide Lexer.Valid, CallsEndTo, LS.Lex, Reads, Vector<Preview>.Valid, Vector<Preview>.Contents, ParsePriority,
        C.Exec;
      var name, priority;
      st, name, priority := ReadPriority();
      if st != StatOk {
        return;
      }
      var ok := SetPriority(name, priority, env);
      st := if ok then StatOk else StatErr;
    }

    method CmdRemove(ghost env: C.Env) returns (st: Status)
      requires Lexing() && !Nt() && Holds(env)
      requires Within(ParseRemove(D(), Cur()).cur)
      modifies `token, `val, lexer.Repr(), previews, if previews != null then {previews.buf} else {}
      ensures Lexing() && !Nt() && old(Runs()) <= Runs()
      ensures fresh(lexer.Repr() - old(lexer.Repr()))
      ensures previews != null ==> fresh({previews.buf} - old({previews.buf}))
      ensures match ParseRemove(D(), old(Cur()))
              case Fail(c) => Cur() == c && st == StatErr && Holds(env)
              case Done(cmd, c) =>
                match C.Exec(cmd, env)
                case None => st == StatErr && Cur() == c && Holds(env)
                case Some(env') => st == StatOk && Cur() == c && Holds(env')
    {
      hide Lexer.Valid, CallsEndTo, LS.Lex, Reads, Vector<Preview>.Valid, Vector<Preview>.Contents, C.Exec;
      var name;
      st, name := ReadWord();
      if st != StatOk {
        return;
      }
      var ok := DropPreview(name, env);
      st := if ok then StatOk else StatErr;
    }

    method Command(ghost env: C.Env) returns (st: Status)
      requires Lexing() && !Nt() && Holds(env) && AllRead(stored, Runs())
      requires Within(ParseCommand(D(), Cur()).cur)
      modifies `token, `val, `opts, `stored, lexer.Repr(), previews, if previews != null then {previews.buf} else {}
      ensures Lexing() && !Nt() && old(Runs()) <= Runs()
      ensures fresh(lexer.Repr() - old(lexer.Repr()))
      ensures previews != null ==> fresh({previews.buf} - old({previews.buf}))
      ensures AllRead(stored, Runs())
      ensures Made(stored) == Made(old(stored)) + MadeBy(ParseCommand(D(), old(Cur())), env)
      ensures match ParseCommand(D(), old(Cur()))
              case Fail(c) => Cur() == c && st == StatErr && Holds(env)
              case Done(cmd, c) =>
                match C.Exec(cmd, env)
                case None => st == StatErr && Cur() == c && Holds(env)
                case Some(env') => st == StatOk && Cur() == c && Holds(env')
    {
      hide Lexer.Valid, CallsEndTo, LS.Lex, Reads, Vector<Preview>.Valid, Vector<Preview>.Contents, C.Exec,
        ParseNamed, AllRead, Made;
      ghost var runs := Runs();
      var keyword;
      st, keyword := ReadWord();
      AllReadStays(stored, runs, Runs());
      if st != StatOk {
        return;
      }
      st := Named(keyword, env);
    }

    /** What the command of that keyword does. */
    method Named(keyword: Text, ghost env: C.Env) returns (st: Status)
      requires Lexing() && !Nt() && Holds(env) && AllRead(stored, Runs())
      requires Within(ParseNamed(D(), Cur(), keyword).cur)
      modifies `token, `val, `opts, `stored, lexer.Repr(), previews, if previews != null then {previews.buf} else {}
      ensures Lexing() && !Nt() && old(Runs()) <= Runs()
      ensures fresh(lexer.Repr() - old(lexer.Repr()))
      ensures previews != null ==> fresh({previews.buf} - old({previews.buf}))
      ensures AllRead(stored, Runs())
      ensures Made(stored) == Made(old(stored)) + MadeBy(ParseNamed(D(), old(Cur()), keyword), env)
      ensures match ParseNamed(D(), old(Cur()), keyword)
              case Fail(c) => Cur() == c && st == StatErr && Holds(env)
              case Done(cmd, c) =>
                match C.Exec(cmd, env)
                case None => st == StatErr && Cur() == c && Holds(env)
                case Some(env') => st == StatOk && Cur() == c && Holds(env')
    {
      hide Lexer.Valid, CallsEndTo, LS.Lex, Reads, Vector<Preview>.Valid, Vector<Preview>.Contents, C.Exec,
        ParseSet, ParsePreview, ParsePriority, ParseRemove, AllRead, Made;
      ghost var runs, parsed := Runs(), ParseNamed(D(), Cur(), keyword);
      if keyword == "set" {
        st := CmdSet(env);
      } else if keyword == "preview" {
        st := CmdPreview(env);
        return;
      } else if keyword == "priority" {
        st := CmdPriority(env);
      } else if keyword == "remove" {
        st := CmdRemove(env);
      } else {
        st := StatErr;
      }
      AllReadStays(stored, runs, Runs());
      MadeByNone(Made(stored), parsed, env);
    }

    method Newlines()
      requires Lexing() && !Nt() && Within(SkipNewlines(D(), Cur()))
      modifies `token, `val, lexer.Repr()
      ensures Lexing() && !Nt() && old(Runs()) <= Runs()
      ensures fresh(lexer.Repr() - old(lexer.Repr()))
      ensures Cur() == SkipNewlines(D(), old(Cur()))
    {
      hide Lexer.Valid, CallsEndTo, LS.Lex, Reads;
      while true
        invariant Lexing() && !Nt() && old(Runs()) <= Runs()
        invariant fresh(lexer.Repr() - old(lexer.Repr()))
        invariant SkipNewlines(D(), Cur()) == SkipNewlines(D(), old(Cur()))
        decreases Rem(D(), Cur())
      {
        AdvanceShrinks(D(), Cur(), false);
        SkipStep(D(), Cur());
        var st := Accept(LS.NewLn);
        if st != StatOk {
          break;
        }
      }
    }

    method End() returns (st: Status)
      requires Lexing() && !Nt()
      requires Within(ParseEnd(D(), Cur()).cur)
      modifies `token, `val, lexer.Repr()
      ensures Lexing() && !Nt() && old(Runs()) <= Runs()
      ensures fresh(lexer.Repr() - old(lexer.Repr()))
      ensures match ParseEnd(D(), old(Cur()))
              case Fail(c) => Cur() == c && st == StatErr
              case Done(_, c) => st == StatOk && Cur() == c
    {
      hide Lexer.Valid, CallsEndTo, LS.Lex, Reads;
      st := Accept(LS.Eof);
      if st != StatNull {
        return;
      }
      st := Expect(LS.NewLn);
      if st != StatOk {
        return;
      }
      Newlines();
    }

    /** Reads and runs commands until the file ends or something fails. */
    method Commands(ghost env: C.Env) returns (st: Status)
      requires Lexing() && !Nt() && Holds(env) && Kept(env)
      requires Within(LoadStops(D(), SkipNewlines(D(), Cur()), env))
      modifies `token, `val, `opts, `stored, lexer.Repr(), previews, if previews != null then {previews.buf} else {}
      ensures Lexing() && !Nt() && old(Runs()) <= Runs()
      ensures fresh(lexer.Repr() - old(lexer.Repr()))
      ensures previews != null ==> fresh({previews.buf} - old({previews.buf}))
      ensures var r := LoadFrom(D(), SkipNewlines(D(), old(Cur())), env);
              Holds(r.env) && Kept(r.env) && st == if r.ok then StatOk else StatErr
      ensures Cur() == LoadStops(D(), SkipNewlines(D(), old(Cur())), env)
    {
      hide Lexer.Valid, CallsEndTo, LS.Lex, Reads, Vector<Preview>.Valid, Vector<Preview>.Contents, C.Exec,
        ParseCommand, ParseEnd, LoadFrom, SkipNewlines, LoadStops, Rem, AllRead, Made, C.AllKnown;
      Newlines();
      AllReadStays(stored, old(Runs()), Runs());
      ghost var now := env;
      while true
        invariant Lexing() && !Nt() && old(Runs()) <= Runs() && Holds(now) && Kept(now)
        invariant fresh(lexer.Repr() - old(lexer.Repr()))
        invariant previews != null ==> fresh({previews.buf} - old({previews.buf}))
        invariant LoadFrom(D(), Cur(), now) == LoadFrom(D(), SkipNewlines(D(), old(Cur())), env)
        invariant LoadStops(D(), Cur(), now) == LoadStops(D(), SkipNewlines(D(), old(Cur())), env)
        decreases Rem(D(), Cur())
      {
        var done;
        done, st, now := NextCommand(now);
        if done {
          return;
        }
      }
    }

    /** One round of the command loop; `done` if it is the last. */
    method NextCommand(ghost env: C.Env) returns (done: bool, st: Status, ghost now: C.Env)
      requires Lexing() && !Nt() && Holds(env) && Kept(env) && Within(LoadStops(D(), Cur(), env))
      modifies `token, `val, `opts, `stored, lexer.Repr(), previews, if previews != null then {previews.buf} else {}
      ensures Lexing() && !Nt() && old(Runs()) <= Runs()
      ensures fresh(lexer.Repr() - old(lexer.Repr()))
      ensures previews != null ==> fresh({previews.buf} - old({previews.buf}))
      ensures Holds(now) && Kept(now) && st != StatNull
      ensures LoadFrom(D(), old(Cur()), env) ==
              if done then C.Outcome(now, st == StatOk) else LoadFrom(D(), Cur(), now)
      ensures !done ==> Rem(D(), Cur()) < Rem(D(), old(Cur()))
      ensures LoadStops(D(), old(Cur()), env) == if done then Cur() else LoadStops(D(), Cur(), now)
    {
      hide Lexer.Valid, CallsEndTo, LS.Lex, Reads, Vector<Preview>.Valid, Vector<Preview>.Contents, C.Exec,
        ParseCommand, ParseEnd, LoadFrom, LoadStops, Rem, Advance, AllRead, Made, C.AllKnown, C.Added;
      LoadStep(D(), Cur(), env);
      StopsStep(D(), Cur(), env);
      now := env;
      ghost var runs, made := Runs(), Made(stored);
      st := Accept(LS.Eof);
      AllReadStays(stored, runs, Runs());
      if st != StatNull {
        return true, st, now;
      }
      st := Command(env);
      KeptNow(base, made, Made(stored), ParseCommand(D(), old(Cur())), env);
      if st != StatOk {
        return true, st, now;
      }
      now := C.Exec(ParseCommand(D(), old(Cur())).value, env).value;
      runs := Runs();
      st := End();
      AllReadStays(stored, runs, Runs());
      done := st != StatOk;
    }

    method Parse(ghost env: C.Env) returns (ok: bool)
      requires lexer.Valid() && this !in lexer.Repr() && Holds(env) && Kept(env)
      requires lexer.State() == LS.START && LoadEnds(lexer.D(), D(), env) && !Nt()
      requires limit == Progress(LoadStops(D(), FirstCommand(D()), env).lex)
      modifies `token, `val, `opts, `stored, lexer.Repr(), previews, if previews != null then {previews.buf} else {}
      ensures Lexing() && old(Runs()) <= Runs()
      ensures previews != null ==> fresh({previews.buf} - old({previews.buf}))
      ensures var r := Load(D(), env);
              Holds(r.env) && ok == r.ok
      ensures AllRead(stored, Runs())
      ensures previews != null ==> forall p :: p in previews.Contents() ==> C.KnownTo(p, base + Made(stored))
      ensures Cur() == LoadStops(D(), FirstCommand(D()), env)
    {
      hide Lexer.Valid, CallsEndTo, LS.Lex, Reads, Vector<Preview>.Valid, Vector<Preview>.Contents, LoadFrom,
        SkipNewlines, LoadStops;
      token := Token(LS.Kind.Null, 0, 0, 0, NullPtr);
      val := LS.Tok(LS.Kind.Null, 0, 0, 0, []);
      ghost var runs := Runs();
      NextToken();
      AllReadStays(stored, runs, Runs());
      var st := Commands(env);
      ok := st != StatErr;
      if previews != null {
        KnownInAnyOrder(previews.Contents(), Load(D(), env).env, base + Made(stored));
      }
    }
  }

  /** The previews that a command read as `r` makes. */
  function MadeBy(r: Parsed<C.Command>, env: C.Env): seq<Preview>
  {
    if r.Done? then C.Added(r.value, env) else []
  }

  lemma MadeByNone(made: seq<Preview>, r: Parsed<C.Command>, env: C.Env)
    ensures MadeBy(r, env) == [] ==> made + MadeBy(r, env) == made
  {
  }

  lemma KnownInAnyOrder(ps: seq<Preview>, env: C.Env, known: seq<Preview>)
    requires env.previews.Some? && multiset(ps) == multiset(env.previews.value) && C.AllKnown(env, known)
    ensures forall p :: p in ps ==> C.KnownTo(p, known)
  {
    forall p | p in ps ensures C.KnownTo(p, known) {
      assert p in multiset(ps) && p in multiset(env.previews.value);
    }
  }

  /** What loading means for options and previews, said of the commands of the file. */
  lemma LoadDone(s: Text, env: C.Env, ps: Option<seq<Preview>>)
    requires ps.Some? ==> env.previews.Some?
    requires ps.Some? && Load(s, env).env.previews.Some? ==>
               multiset(ps.value) == multiset(Load(s, env).env.previews.value)
    ensures Load(s, env).ok ==> Meaning.CarriedOut(ParseFile(s).cmds, env.opts, Load(s, env).env.opts, ps)
  {
    hide Meaning.CarriedOut, C.ExecAll, ParseCommands;
    if Load(s, env).ok {
      Meaning.AllIsDone(ParseFile(s).cmds, env, ps);
    }
  }

  lemma NothingStored(env: C.Env, base: seq<Preview>, runs: set<Run<Byte>>)
    requires env.previews.Some? ==> env.previews.value == base
    ensures AllRead([], runs) && C.AllKnown(env, base + Made([]))
  {
    C.KnownToThemselves(env, base);
    assert base + Made([]) == base;
  }

  /** What the previews are known from, before and after a command. */
  lemma KeptNow(base: seq<Preview>, made: seq<Preview>, made': seq<Preview>, r: Parsed<C.Command>, env: C.Env)
    requires C.AllKnown(env, base + made) && made' == made + MadeBy(r, env)
    ensures C.AllKnown(env, base + made')
    ensures r.Done? && C.Exec(r.value, env).Some? ==> C.AllKnown(C.Exec(r.value, env).value, base + made')
  {
    assert base + made' == base + made + MadeBy(r, env);
    C.MoreKnown(env, base + made, MadeBy(r, env));
    if r.Done? && C.Exec(r.value, env).Some? {
      C.ExecKnown(r.value, env, base + made);
    }
  }

  ghost predicate SetsRead(types: seq<TypePtrs>, ts: seq<C.TypeSet>, runs: set<Run<Byte>>)
  {
    |types| == |ts| && forall i :: 0 <= i < |ts| ==> SetReads(types[i], ts[i], runs)
  }

  lemma SetsReadStays(types: seq<TypePtrs>, ts: seq<C.TypeSet>, runs: set<Run<Byte>>, runs': set<Run<Byte>>)
    requires SetsRead(types, ts, runs) && runs <= runs'
    ensures SetsRead(types, ts, runs')
  {
  }

  lemma SetsReadMore(types: seq<TypePtrs>, ts: seq<C.TypeSet>, runs: set<Run<Byte>>,
                     t: TypePtrs, u: C.TypeSet, runs': set<Run<Byte>>)
    requires SetsRead(types, ts, runs) && runs <= runs' && SetReads(t, u, runs')
    ensures SetsRead(types + [t], ts + [u], runs')
  {
  }

  lemma CustomsFrom(n: Text, ts: seq<C.TypeSet>, sc: Text)
    ensures C.Customs(n, ts[..0], sc) == []
    ensures ts[..|ts|] == ts
  {
  }

  lemma CustomsSnoc(n: Text, ts: seq<C.TypeSet>, sc: Text, i: nat)
    requires i < |ts|
    ensures C.Customs(n, ts[..i + 1], sc) == C.Customs(n, ts[..i], sc) + [C.Custom(n, ts[i], sc)]
  {
  }

  /**
   Reads a configuration file into a preview vector, or for its options only. The
   previews are in the end those that the commands of the file, as it is seen through
   the lexer's window, make of the ones before, in some order. Loading fails if that
   does, or if there is no shell of the name that is then set.
   */
  method LoadConfig(data: Text, size: nat, previews: Vector?<Preview>, opts: C.Options, found: Text -> bool)
    returns (ok: bool, newOpts: C.Options)
    requires size >= 3 && Typed(opts) && (previews != null ==> previews.Valid())
    requires LoadEnds(data, SeenBy(data, size),
                      C.Env(if previews == null then None else Some(previews.Contents()), opts))
    modifies previews, if previews != null then {previews.buf} else {}
    ensures previews != null ==> previews.Valid() && fresh({previews.buf} - old({previews.buf}))
    ensures var before := if previews == null then None else Some(old(previews.Contents()));
            var r := Load(SeenBy(data, size), C.Env(before, opts));
            && ok == (r.ok && found(ShellOf(newOpts))) && newOpts == r.env.opts && Typed(newOpts)
            && (previews == null <==> r.env.previews.None?)
            && (previews != null ==> multiset(previews.Contents()) == multiset(r.env.previews.value))
            && (r.ok ==> Meaning.CarriedOut(ParseFile(SeenBy(data, size)).cmds, opts, newOpts,
                                      if previews == null then None else Some(previews.Contents())))
  {
    hide Lexer.Valid, Typed, ShellOf, LoadEnds, LoadStops, SeenBy, Vector<Preview>.Valid, Vector<Preview>.Contents,
      Load, ParseFile, AllRead, Made, C.AllKnown, Meaning.CarriedOut;
    ghost var before := if previews == null then None else Some(previews.Contents());
    var f := new InFile(data);
    var lexer := new Lexer(f, size);
    ghost var env := C.Env(before, opts);
    var parser := new Parser(lexer, previews, opts, Progress(LoadStops(lexer.seen, FirstCommand(lexer.seen), env).lex));
    NothingStored(env, parser.base, parser.Runs());
    ok := parser.Parse(env);
    newOpts := parser.opts;
    LoadTyped(lexer.seen, env);
    LoadDone(lexer.seen, env, if previews == null then None else Some(previews.Contents()));
    ok := ok && found(ShellOf(newOpts));
  }
}
