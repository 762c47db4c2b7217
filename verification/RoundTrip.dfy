/** Reading back what the printer wrote gives the same commands. */
module RoundTrip {
  import opened Bytes
  import opened LexSpec
  import opened LexFacts
  import opened Windows
  import opened SeenFacts
  import opened ConfigSpec
  import opened Printer
  import C = Commands

  // ---- Text inside a file ----

  /** `w` stands in `s` at `p`. */
  predicate Has(s: Text, p: nat, w: Text)
  {
    p + |w| <= |s| && s[p..p + |w|] == w
  }

  lemma HasSplit(s: Text, p: nat, a: Text, b: Text)
    requires Has(s, p, a + b)
    ensures Has(s, p, a) && Has(s, p + |a|, b)
  {
    var w := s[p..p + |a + b|];
    assert s[p..p + |a|] == w[..|a|] == a;
    assert s[p + |a|..p + |a| + |b|] == w[|a|..] == b;
  }

  lemma HasJoin(s: Text, p: nat, a: Text, b: Text)
    requires Has(s, p, a) && Has(s, p + |a|, b)
    ensures Has(s, p, a + b)
  {
    assert s[p..p + |a + b|] == s[p..p + |a|] + s[p + |a|..p + |a| + |b|];
  }

  lemma HasAt(s: Text, p: nat, w: Text, k: nat)
    requires Has(s, p, w) && k < |w|
    ensures p + k < |s| && s[p + k] == w[k]
  {
    assert s[p..p + |w|][k] == w[k];
  }

  /** A span takes in just the text that belongs to the class and is followed by something that does not. */
  lemma {:induction false} SpanOver(s: Text, p: nat, w: Text, f: Byte -> bool)
    requires Has(s, p, w)
    requires forall c :: c in w ==> f(c) && !IsNegative(c)
    requires IsNegative(At(s, p + |w|)) || !f(At(s, p + |w|))
    ensures Span(s, p, f) == p + |w| && Slice(s, p, p + |w|) == w
    decreases |w|
  {
    if w != [] {
      HasAt(s, p, w, 0);
      assert w == [w[0]] + w[1..];
      HasSplit(s, p, [w[0]], w[1..]);
      SpanOver(s, p + 1, w[1..], f);
    }
  }

  // ---- Single tokens ----

  /** The cursor reached by reading on at `p` with nothing waiting. */
  function Here(s: Text, p: nat, numIsText: bool): Cursor
  {
    CursorAt(s, State(p, []), numIsText)
  }

  /** Where a token may start right away. */
  predicate Starts(s: Text, p: nat)
  {
    !IsBlank(At(s, p)) && At(s, p) != '#'
  }

  /** One blank before a token is skipped. */
  lemma SkipsBlank(s: Text, p: nat, numIsText: bool)
    requires Has(s, p, " ") && Starts(s, p + 1)
    ensures Here(s, p, numIsText) == Here(s, p + 1, numIsText)
  {
    HasAt(s, p, " ", 0);
    assert Span(s, p, IsBlank) == Span(s, p + 1, IsBlank) == p + 1;
  }

  predicate IsWord(w: Text)
  {
    w != [] && IsAlpha(w[0]) && forall i :: 0 <= i < |w| ==> IsSymbol(w[i])
  }

  lemma WordHere(s: Text, p: nat, w: Text, numIsText: bool)
    requires Has(s, p, w) && IsWord(w) && !IsSymbol(At(s, p + |w|))
    ensures Starts(s, p)
    ensures var c := Here(s, p, numIsText);
            c.tok.kind == Str && c.tok.text == w && c.lex == State(p + |w|, [])
  {
    HasAt(s, p, w, 0);
    SpanOver(s, p, w, IsSymbol);
    assert TokenStart(s, p) == p;
  }

  lemma QuotedSpan(s: Text, b: nat, t: Text)
    requires Has(s, b, t + "\"") && Quotable(t)
    ensures var q := Span(s, b, IsNotQuote);
            q == b + |t| && CString(Slice(s, b, q)) == t
  {
    HasSplit(s, b, t, "\"");
    HasAt(s, b + |t|, "\"", 0);
    SpanOver(s, b, t, IsNotQuote);
    CStringOfClean(t);
  }

  lemma QuoteHere(s: Text, p: nat, t: Text, numIsText: bool)
    requires Has(s, p, Quote(t)) && Quotable(t)
    ensures Starts(s, p)
    ensures var c := Here(s, p, numIsText);
            c.tok.kind == Str && c.tok.text == t && c.lex == State(p + |Quote(t)|, [])
  {
    hide Span, CString, Slice;
    assert Quote(t) == "\"" + (t + "\"");
    HasSplit(s, p, "\"", t + "\"");
    HasAt(s, p, "\"", 0);
    QuotedSpan(s, p + 1, t);
    assert TokenStart(s, p) == p;
  }

  lemma BareIsWord(t: Text)
    requires IsBareWord(t)
    ensures IsWord(t)
  {
    forall i | 0 <= i < |t| ensures IsSymbol(t[i]) {
      assert t[i] in t;
    }
  }

  /** A text written with quotes or, where it may, without. */
  lemma TextHere(s: Text, p: nat, t: Text, numIsText: bool, bare: Text -> bool)
    requires Has(s, p, PrintText(t, bare)) && Quotable(t) && !IsWordByte(At(s, p + |PrintText(t, bare)|))
    ensures Starts(s, p) && At(s, p) != '\n'
    ensures var c := Here(s, p, numIsText);
            c.tok.kind == Str && c.tok.text == t && c.lex == State(p + |PrintText(t, bare)|, [])
  {
    hide Lex, Starts, Span;
    HasAt(s, p, PrintText(t, bare), 0);
    if bare(t) && IsBareWord(t) {
      BareIsWord(t);
      WordHere(s, p, t, numIsText);
    } else {
      QuoteHere(s, p, t, numIsText);
    }
  }

  lemma CharHere(s: Text, p: nat, ch: Byte, kind: Kind, numIsText: bool)
    requires Has(s, p, [ch])
    requires (ch == '/' && kind == Slash) || (ch == '*' && kind == Star) || (ch == '.' && kind == Dot)
    ensures Starts(s, p)
    ensures var c := Here(s, p, numIsText);
            c.tok.kind == kind && c.lex == State(p + 1, [])
  {
    HasAt(s, p, [ch], 0);
    assert TokenStart(s, p) == p;
  }

  lemma NewlineHere(s: Text, p: nat, numIsText: bool)
    requires Has(s, p, "\n") && At(s, p + 1) != '\n'
    ensures Starts(s, p)
    ensures var c := Here(s, p, numIsText);
            c.tok.kind == NewLn && c.lex == State(p + 1, [])
  {
    HasAt(s, p, "\n", 0);
    SpanOver(s, p, "\n", IsNewline);
    assert TokenStart(s, p) == p;
  }

  lemma {:induction false} AtoiDigits(n: nat)
    ensures Atoi(Digits(n)) == n
  {
    var t := Digits(n);
    assert t[..|t| - 1] == if n < 10 then [] else Digits(n / 10);
    if n >= 10 {
      AtoiDigits(n / 10);
    }
  }

  lemma DigitsHere(s: Text, b: nat, m: nat)
    requires Has(s, b, Digits(m)) && !IsDigit(At(s, b + |Digits(m)|))
    ensures IsDigit(At(s, b))
    ensures Span(s, b, IsDigit) == b + |Digits(m)| && Atoi(Slice(s, b, b + |Digits(m)|)) == m
  {
    hide Digits, Atoi, Span, Slice, Has;
    HasAt(s, b, Digits(m), 0);
    assert Digits(m)[0] in Digits(m);
    SpanOver(s, b, Digits(m), IsDigit);
    AtoiDigits(m);
  }

  /** How a number is read, in one step. */
  lemma NumberRead(s: Text, p: nat)
    requires var b := AfterMinus(s, p); (b == p + 1 || IsDigit(At(s, p))) && IsDigit(At(s, b))
    ensures Starts(s, p)
    ensures var b, c := AfterMinus(s, p), Here(s, p, false);
            var q := Span(s, b, IsDigit);
            && c.tok.kind == Int && c.lex == State(q, [])
            && c.tok.num == if b == p then Atoi(Slice(s, b, q)) else -Atoi(Slice(s, b, q))
  {
    hide Span, Atoi, Slice;
    assert TokenStart(s, p) == p by {
      assert !IsBlank(At(s, p)) && Span(s, p, IsBlank) == p;
    }
  }

  lemma NatHere(s: Text, p: nat, n: nat)
    requires Has(s, p, Digits(n)) && !IsDigit(At(s, p + |Digits(n)|))
    ensures Starts(s, p)
    ensures var c := Here(s, p, false);
            c.tok.kind == Int && c.tok.num == n && c.lex == State(p + |Digits(n)|, [])
  {
    hide Digits, Atoi, Lex, Has, Span, Slice, Starts;
    DigitsHere(s, p, n);
    NumberRead(s, p);
  }

  lemma NegativeHere(s: Text, p: nat, n: nat)
    requires Has(s, p, "-" + Digits(n)) && !IsDigit(At(s, p + 1 + |Digits(n)|))
    ensures Starts(s, p)
    ensures var c := Here(s, p, false);
            c.tok.kind == Int && c.tok.num == 0 - n && c.lex == State(p + 1 + |Digits(n)|, [])
  {
    hide Digits, Atoi, Lex, Has, Span, Slice, Starts;
    HasSplit(s, p, "-", Digits(n));
    HasAt(s, p, "-", 0);
    DigitsHere(s, p + 1, n);
    NumberRead(s, p);
  }

  lemma IntHere(s: Text, p: nat, n: int)
    requires Has(s, p, PrintInt(n)) && !IsDigit(At(s, p + |PrintInt(n)|))
    ensures Starts(s, p)
    ensures var c := Here(s, p, false);
            c.tok.kind == Int && c.tok.num == n && c.lex == State(p + |PrintInt(n)|, [])
  {
    hide Digits, Lex, Has, Starts, At;
    if n < 0 {
      NegativeHere(s, p, -n);
    } else {
      NatHere(s, p, n);
    }
  }

  /** With the option that keeps numbers as text, a numeral is a string. */
  lemma NumeralHere(s: Text, p: nat, w: Text)
    requires Has(s, p, w) && IsNumeral(w) && !IsDigit(At(s, p + |w|))
    ensures Starts(s, p)
    ensures var c := Here(s, p, true);
            c.tok.kind == Str && c.tok.text == w && c.lex == State(p + |w|, [])
  {
    HasAt(s, p, w, 0);
    assert w[0] in w;
    SpanOver(s, p, w, IsDigit);
    assert TokenStart(s, p) == p;
  }

  lemma BodyCloses(s: Text, b: nat, body: Text)
    requires Has(s, b, body + "}}") && IsBody(body)
    ensures var q := BodyEnd(s, b);
            q == b + |body| && IsClose(s, q) && CString(Slice(s, b, q)) == body
  {
    HasSplit(s, b, body, "}}");
    var q := b + |body|;
    HasAt(s, q, "}}", 0);
    HasAt(s, q, "}}", 1);
    forall j | b <= j < q ensures At(s, j) != EOF_CHAR && !IsClose(s, j) {
      HasAt(s, b, body, j - b);
      if j + 1 < q {
        HasAt(s, b, body, j + 1 - b);
      }
    }
    BodyEndIsFirst(s, b, q);
    assert Slice(s, b, q) == body;
    CStringOfClean(body);
  }

  lemma BlockHere(s: Text, p: nat, body: Text, numIsText: bool)
    requires Has(s, p, PrintBlock(body)) && IsBody(body)
    ensures Starts(s, p)
    ensures var c := Here(s, p, numIsText);
            && c.tok.kind == BlkOpen && c.lex.p == p + |PrintBlock(body)| && |c.lex.queue| == 2
            && c.lex.queue[0].kind == Str && c.lex.queue[0].text == body && c.lex.queue[1].kind == BlkCls
  {
    hide Span, CString, Slice, BodyEnd, IsBody;
    assert PrintBlock(body) == "{{" + (body + "}}");
    HasSplit(s, p, "{{", body + "}}");
    HasAt(s, p, "{{", 0);
    HasAt(s, p, "{{", 1);
    BodyCloses(s, p + 2, body);
    assert TokenStart(s, p) == p;
  }

  // ---- The parts of a command ----

  /** Away from digits the option about numbers makes no difference. */
  lemma ModeFree(s: Text, p: nat)
    requires Starts(s, p) && !IsDigit(At(s, p)) && At(s, p) != '-'
    ensures Here(s, p, true) == Here(s, p, false)
  {
    assert TokenStart(s, p) == p;
  }

  lemma PartParsed(s: Text, p: nat, t: Option<Text>, numIsText: bool, bare: Text -> bool)
    requires Has(s, p, PrintPart(t, bare)) && (t.Some? ==> Quotable(t.value))
    requires !IsWordByte(At(s, p + |PrintPart(t, bare)|))
    ensures Starts(s, p)
    ensures var c := Here(s, p, numIsText);
            && (c.tok.kind == Star || c.tok.kind == Str)
            && ParseMimePart(s, c) == Done(t, Here(s, p + |PrintPart(t, bare)|, true))
  {
    hide Lex, Has, Starts, Quotable, PrintText, IsWordByte;
    if t.Some? {
      TextHere(s, p, t.value, numIsText, bare);
    } else {
      CharHere(s, p, '*', Star, numIsText);
    }
  }

  /** What comes after the slash is read under the option that keeps numbers as text. */
  lemma SubtypeParsed(s: Text, p: nat, t: Option<Text>, bare: Text -> bool)
    requires Has(s, p, PrintSubtype(t, bare)) && (t.Some? ==> Quotable(t.value))
    requires !IsWordByte(At(s, p + |PrintSubtype(t, bare)|))
    ensures Starts(s, p)
    ensures ParseMimePart(s, Here(s, p, true)) == Done(t, Here(s, p + |PrintSubtype(t, bare)|, true))
  {
    hide Lex, Has, Starts, Quotable, PrintExt, IsWordByte;
    if t.Some? {
      ExtParsed(s, p, t.value, bare);
    } else {
      CharHere(s, p, '*', Star, true);
    }
  }

  lemma ExtParsed(s: Text, p: nat, e: Text, bare: Text -> bool)
    requires Has(s, p, PrintExt(e, bare)) && Quotable(e) && !IsWordByte(At(s, p + |PrintExt(e, bare)|))
    ensures Starts(s, p) && Here(s, p, true).tok.kind == Str
    ensures Expect(s, Here(s, p, true), Str, true) == Done(Here(s, p, true).tok, Here(s, p + |PrintExt(e, bare)|, true))
    ensures Here(s, p, true).tok.text == e
  {
    hide Lex, Has, Starts, Quotable, IsNumeral, PrintText;
    if bare(e) && IsNumeral(e) {
      NumeralHere(s, p, e);
    } else {
      TextHere(s, p, e, true, bare);
    }
  }

  lemma ExtTypeParsed(s: Text, p: nat, e: Text, numIsText: bool, bare: Text -> bool)
    requires Has(s, p, " " + ("." + PrintExt(e, bare))) && Quotable(e)
    requires !IsWordByte(At(s, p + 2 + |PrintExt(e, bare)|))
    ensures Here(s, p, numIsText).tok.kind == Dot
    ensures ParseType(s, Here(s, p, numIsText))
            == Done(C.TypeSet(None, None, Some(e)), Here(s, p + 2 + |PrintExt(e, bare)|, true))
  {
    hide Lex, Has, Starts, PrintExt, Quotable, IsWordByte;
    HasSplit(s, p, " ", "." + PrintExt(e, bare));
    HasSplit(s, p + 1, ".", PrintExt(e, bare));
    CharHere(s, p + 1, '.', Dot, numIsText);
    SkipsBlank(s, p, numIsText);
    ExtParsed(s, p + 2, e, bare);
  }

  /** What a type or a name may be followed by is no part of a word. */
  lemma EndsWord()
    ensures !IsWordByte('/') && !IsWordByte(' ')
  {
  }

  lemma MimeTypeParsed(s: Text, p: nat, typ: Option<Text>, subtype: Option<Text>, numIsText: bool, bare: Text -> bool)
    requires Has(s, p, " " + (PrintPart(typ, bare) + ("/" + PrintSubtype(subtype, bare))))
    requires (typ.Some? ==> Quotable(typ.value)) && (subtype.Some? ==> Quotable(subtype.value))
    requires !IsWordByte(At(s, p + 2 + |PrintPart(typ, bare)| + |PrintSubtype(subtype, bare)|))
    ensures Here(s, p, numIsText).tok.kind == Star || Here(s, p, numIsText).tok.kind == Str
    ensures ParseType(s, Here(s, p, numIsText))
            == Done(C.TypeSet(typ, subtype, None),
                    Here(s, p + 2 + |PrintPart(typ, bare)| + |PrintSubtype(subtype, bare)|, true))
  {
    hide Lex, Has, Starts, PrintPart, PrintSubtype, Quotable, ParseMimePart, ParseType, IsWordByte;
    EndsWord();
    var a, b := PrintPart(typ, bare), PrintSubtype(subtype, bare);
    HasSplit(s, p, " ", a + ("/" + b));
    HasSplit(s, p + 1, a, "/" + b);
    HasSplit(s, p + 1 + |a|, "/", b);
    HasAt(s, p + 1 + |a|, "/", 0);
    PartParsed(s, p + 1, typ, numIsText, bare);
    SkipsBlank(s, p, numIsText);
    CharHere(s, p + 1 + |a|, '/', Slash, true);
    SubtypeParsed(s, p + 2 + |a|, subtype, bare);
    PartsMakeType(s, Here(s, p, numIsText), typ, Here(s, p + 1 + |a|, true), subtype, Here(s, p + 2 + |a| + |b|, true));
  }

  lemma PartsMakeType(s: Text, c: Cursor, typ: Option<Text>, c1: Cursor, subtype: Option<Text>, c2: Cursor)
    requires c.tok.kind != Dot && ParseMimePart(s, c) == Done(typ, c1) && c1.tok.kind == Slash
    requires ParseMimePart(s, Advance(s, c1, true)) == Done(subtype, c2)
    ensures ParseType(s, c) == Done(C.TypeSet(typ, subtype, None), c2)
  {
    hide ParseMimePart, Advance;
  }

  lemma TypeParsed(s: Text, p: nat, t: C.TypeSet, numIsText: bool, bare: Text -> bool)
    requires Has(s, p, PrintType(t, bare)) && PrintableType(t) && !IsWordByte(At(s, p + |PrintType(t, bare)|))
    ensures Here(s, p, numIsText).tok.kind != BlkOpen
    ensures ParseType(s, Here(s, p, numIsText)) == Done(t, Here(s, p + |PrintType(t, bare)|, true))
  {
    hide Lex, Has, Starts, PrintPart, PrintExt, PrintSubtype, Quotable, ParseType, IsWordByte;
    match t.ext
    case Some(e) => ExtTypeParsed(s, p, e, numIsText, bare);
    case None => MimeTypeParsed(s, p, t.typ, t.subtype, numIsText, bare);
  }

  lemma {:induction false} TypesParsed(s: Text, p: nat, types: seq<C.TypeSet>, script: Text,
                                       acc: seq<C.TypeSet>, numIsText: bool, bare: Text -> bool)
    requires Has(s, p, PrintTypes(types, bare) + (" " + PrintBlock(script))) && IsBody(script)
    requires |acc| + |types| <= MAX_TYPES && forall t :: t in types ==> PrintableType(t)
    ensures var b := p + |PrintTypes(types, bare)| + 1;
            && Has(s, b, PrintBlock(script))
            && ParseTypes(s, Here(s, p, numIsText), acc) == Done(acc + types, Advance(s, Here(s, b, false), false))
    decreases |types|
  {
    hide Lex, Has, Starts, PrintBlock, PrintType, IsBody, PrintableType, ParseType, ParseTypes, Advance, Here;
    HasSplit(s, p, PrintTypes(types, bare), " " + PrintBlock(script));
    var q := p + |PrintTypes(types, bare)|;
    HasSplit(s, q, " ", PrintBlock(script));
    HasAt(s, q, " ", 0);
    if types == [] {
      BlockHere(s, p + 1, script, numIsText);
      SkipsBlank(s, p, numIsText);
      BlockModeFree(s, p + 1, script);
      TypesEnd(s, Here(s, p, numIsText), acc);
      assert acc + types == acc;
    } else {
      var w, rest := PrintType(types[0], bare), PrintTypes(types[1..], bare);
      HasSplit(s, p, w, rest);
      TypeEnds(s, p + |w|, types[1..], script, bare);
      TypeParsed(s, p, types[0], numIsText, bare);
      TypesParsed(s, p + |w|, types[1..], script, acc + [types[0]], true, bare);
      TypesStep(s, Here(s, p, numIsText), acc, types[0], Here(s, p + |w|, true));
      assert acc + [types[0]] + types[1..] == acc + types;
    }
  }

  lemma TypesStep(s: Text, c: Cursor, acc: seq<C.TypeSet>, t: C.TypeSet, c1: Cursor)
    requires c.tok.kind != BlkOpen && |acc| < MAX_TYPES && ParseType(s, c) == Done(t, c1)
    ensures ParseTypes(s, c, acc) == ParseTypes(s, c1, acc + [t])
  {
    hide ParseType;
  }

  lemma TypesEnd(s: Text, c: Cursor, acc: seq<C.TypeSet>)
    requires c.tok.kind == BlkOpen && |acc| <= MAX_TYPES
    ensures ParseTypes(s, c, acc) == Done(acc, Advance(s, c, false))
  {
  }

  lemma BlockModeFree(s: Text, p: nat, script: Text)
    requires Has(s, p, PrintBlock(script)) && IsBody(script)
    ensures Here(s, p, true) == Here(s, p, false)
  {
    HasAt(s, p, PrintBlock(script), 0);
    ModeFree(s, p);
  }

  /** What follows a type starts with a blank. */
  lemma TypeEnds(s: Text, p: nat, types: seq<C.TypeSet>, script: Text, bare: Text -> bool)
    requires Has(s, p, PrintTypes(types, bare)) && Has(s, p + |PrintTypes(types, bare)|, " " + PrintBlock(script))
    ensures At(s, p) == ' '
    ensures Has(s, p, PrintTypes(types, bare) + (" " + PrintBlock(script)))
  {
    var a, b := PrintTypes(types, bare), " " + PrintBlock(script);
    HasJoin(s, p, a, b);
    if types == [] {
      HasAt(s, p, b, 0);
    } else {
      HasAt(s, p, a, 0);
      assert a[0] == PrintType(types[0], bare)[0] == ' ';
    }
  }

  // ---- Commands ----

  /** A word, a blank, and the start of something else. */
  lemma WordParsed(s: Text, p: nat, w: Text, rest: Text)
    requires Has(s, p, w + (" " + rest)) && IsWord(w) && Starts(s, p + |w| + 1)
    ensures Has(s, p + |w| + 1, rest)
    ensures var c := Here(s, p, false);
            && c.tok.kind == Str && c.tok.text == w
            && Expect(s, c, Str, false) == Done(c.tok, Here(s, p + |w| + 1, false))
  {
    hide Lex, Has, Starts, IsWord;
    HasSplit(s, p, w, " " + rest);
    HasSplit(s, p + |w|, " ", rest);
    HasAt(s, p + |w|, " ", 0);
    WordHere(s, p, w, false);
    SkipsBlank(s, p + |w|, false);
  }

  lemma {:induction false} FoundIsListed(defs: seq<OptionDef>, name: Text)
    requires FindOption(defs, name).Some?
    ensures FindOption(defs, name).value in defs && FindOption(defs, name).value.name == name
  {
    if defs[0].name != name {
      FoundIsListed(defs[1..], name);
    }
  }

  predicate IsLower(w: Text)
  {
    w != [] && forall i :: 0 <= i < |w| ==> 'a' <= w[i] <= 'z'
  }

  lemma OptionsAreLower()
    ensures IsLower("forcekitty") && IsLower("forcekittyanim") && IsLower("forcechafa")
    ensures IsLower("noimages") && IsLower("nosymlinkinfo") && IsLower("autochafa")
    ensures IsLower("chafasixel") && IsLower("showgpg") && IsLower("shell")
  {
  }

  /** Every option can be written without quotes, and none is of the integer type. */
  lemma OptionIsWord(name: Text)
    requires FindOption(OPTIONS, name).Some?
    ensures IsWord(name) && FindOption(OPTIONS, name).value.arg != Integer
  {
    FoundIsListed(OPTIONS, name);
    OptionsAreLower();
    assert IsLower(name) by {
      hide IsLower, FindOption;
      var i :| 0 <= i < |OPTIONS| && OPTIONS[i].name == name;
    }
  }

  /** What may follow a command: a newline, a blank or the end of the file, and no number. */
  predicate CommandEnds(s: Text, p: nat)
  {
    (At(s, p) == '\n' || At(s, p) == ' ' || At(s, p) == EOF_CHAR) && Here(s, p, false).tok.kind != Int
  }

  lemma NewLineToken(s: Text, p: nat)
    requires At(s, p) == '\n'
    ensures Here(s, p, false).tok.kind == NewLn && CommandEnds(s, p)
  {
    assert TokenStart(s, p) == p;
  }

  lemma ValueParsed(s: Text, p: nat, option: Text, arg: ArgType, value: C.OptVal, bare: Text -> bool)
    requires Has(s, p, PrintValue(value, bare)) && CommandEnds(s, p + |PrintValue(value, bare)|)
    requires if arg == String then value.Str? && Quotable(value.s) else value.Num?
    ensures Starts(s, p)
    ensures ParseValue(s, Here(s, p, false), option, arg)
            == Done(C.Set(option, value), Here(s, p + |PrintValue(value, bare)|, false))
  {
    hide Lex, Has, Starts, PrintInt, PrintText, Quotable;
    match value
    case Num(n) => IntHere(s, p, n);
    case Str(t) => TextHere(s, p, t, false, bare);
  }

  /** A flag that goes without a value is set to 1. */
  lemma FlagParsed(s: Text, p: nat, option: Text)
    requires FindOption(OPTIONS, option).Some? && FindOption(OPTIONS, option).value.arg == Bool
    requires IsWord(option) && Has(s, p, option) && CommandEnds(s, p + |option|)
    ensures ParseSet(s, Here(s, p, false)) == Done(C.Set(option, C.Num(1)), Here(s, p + |option|, false))
  {
    hide Lex, Has, Starts, IsWord, FindOption;
    WordHere(s, p, option, false);
  }

  lemma SettingParsed(s: Text, p: nat, option: Text, value: C.OptVal, bare: Text -> bool)
    requires Printable(C.Set(option, value)) && IsWord(option)
    requires var w := option + (" " + PrintValue(value, bare));
             Has(s, p, w) && CommandEnds(s, p + |w|)
    ensures ParseSet(s, Here(s, p, false))
            == Done(C.Set(option, value), Here(s, p + |option| + 1 + |PrintValue(value, bare)|, false))
  {
    hide Lex, Has, Starts, IsWord, PrintValue, Quotable, FindOption, ParseValue;
    var def := FindOption(OPTIONS, option).value;
    HasSplit(s, p, option, " " + PrintValue(value, bare));
    HasSplit(s, p + |option|, " ", PrintValue(value, bare));
    ValueParsed(s, p + |option| + 1, option, def.arg, value, bare);
    WordParsed(s, p, option, PrintValue(value, bare));
  }

  lemma SetParsed(s: Text, p: nat, option: Text, value: C.OptVal, bare: Text -> bool)
    requires Printable(C.Set(option, value))
    requires var w := option + PrintSetting(value, bare);
             Has(s, p, w) && CommandEnds(s, p + |w|)
    ensures Starts(s, p)
    ensures ParseSet(s, Here(s, p, false))
            == Done(C.Set(option, value), Here(s, p + |option + PrintSetting(value, bare)|, false))
  {
    hide Lex, Has, Starts, IsWord, PrintValue, Quotable, FindOption, ParseSet;
    OptionIsWord(option);
    WordStarts(s, p, option, PrintSetting(value, bare));
    HasSplit(s, p, option, PrintSetting(value, bare));
    if value == C.Num(1) {
      FlagParsed(s, p, option);
    } else {
      SettingParsed(s, p, option, value, bare);
    }
  }

  lemma WordStarts(s: Text, p: nat, w: Text, rest: Text)
    requires Has(s, p, w + rest) && IsWord(w)
    ensures Starts(s, p) && At(s, p) != '\n'
  {
    HasAt(s, p, w + rest, 0);
  }

  /** A name and what follows it. */
  lemma NameParsed(s: Text, p: nat, name: Text, rest: Text, bare: Text -> bool)
    requires Has(s, p, PrintText(name, bare) + rest) && Quotable(name)
    requires !IsWordByte(At(s, p + |PrintText(name, bare)|))
    ensures Starts(s, p) && Has(s, p + |PrintText(name, bare)|, rest)
    ensures var c := Here(s, p, false);
            && c.tok.kind == Str && c.tok.text == name
            && Expect(s, c, Str, false) == Done(c.tok, Here(s, p + |PrintText(name, bare)|, false))
  {
    HasSplit(s, p, PrintText(name, bare), rest);
    TextHere(s, p, name, false, bare);
  }

  lemma PreviewParsed(s: Text, p: nat, name: Text, types: seq<C.TypeSet>, script: Text, bare: Text -> bool)
    requires Printable(C.Add(name, types, script))
    requires Has(s, p, PrintText(name, bare) + (PrintTypes(types, bare) + (" " + PrintBlock(script))))
    ensures Starts(s, p)
    ensures ParsePreview(s, Here(s, p, false))
            == Done(C.Add(name, types, script),
                    Here(s, p + |PrintText(name, bare) + (PrintTypes(types, bare) + (" " + PrintBlock(script)))|,
                         false))
  {
    hide Lex, Has, Starts, PrintBlock, PrintTypes, PrintText, Quotable, IsBody, PrintableType, ParseTypes, IsWordByte;
    EndsWord();
    var q := p + |PrintText(name, bare)|;
    HasSplit(s, p, PrintText(name, bare), PrintTypes(types, bare) + (" " + PrintBlock(script)));
    HasSplit(s, q, PrintTypes(types, bare), " " + PrintBlock(script));
    TypeEnds(s, q, types, script, bare);
    NameParsed(s, p, name, PrintTypes(types, bare) + (" " + PrintBlock(script)), bare);
    TypesParsed(s, q, types, script, [], false, bare);
    var b := q + |PrintTypes(types, bare)| + 1;
    BlockHere(s, b, script, false);
    assert [] + types == types;
    FromQueue(s, Here(s, b, false));
  }

  /** The body and the closing braces of a block come from the queue, then reading goes on. */
  lemma FromQueue(s: Text, c: Cursor)
    requires |c.lex.queue| == 2
    ensures var c1 := Advance(s, c, false);
            var c2 := Advance(s, c1, false);
            && c1.tok == c.lex.queue[0] && c2.tok == c.lex.queue[1]
            && Advance(s, c2, false) == Here(s, c.lex.p, false)
  {
    hide Scan;
    var c1 := Advance(s, c, false);
    assert c1 == Cursor(State(c.lex.p, c.lex.queue[1..]), c.lex.queue[0]);
    var c2 := Advance(s, c1, false);
    assert c2 == Cursor(State(c.lex.p, []), c.lex.queue[1]);
  }

  lemma PriorityParsed(s: Text, p: nat, name: Text, priority: int, bare: Text -> bool)
    requires Quotable(name)
    requires var w := PrintText(name, bare) + PrintPriority(priority);
             Has(s, p, w) && CommandEnds(s, p + |w|)
    ensures Starts(s, p)
    ensures ParsePriority(s, Here(s, p, false))
            == Done(C.Priority(name, priority), Here(s, p + |PrintText(name, bare) + PrintPriority(priority)|, false))
  {
    hide Lex, Has, Starts, PrintText, Quotable, PrintInt;
    var q := p + |PrintText(name, bare)|;
    HasSplit(s, p, PrintText(name, bare), PrintPriority(priority));
    if priority != 1 {
      HasSplit(s, q, " ", PrintInt(priority));
      HasAt(s, q, " ", 0);
    }
    NameParsed(s, p, name, PrintPriority(priority), bare);
    if priority != 1 {
      IntHere(s, q + 1, priority);
      SkipsBlank(s, q, false);
    }
  }

  /** The keyword of a command and what follows it. */
  function Keyword(cmd: C.Command): Text
  {
    match cmd
    case Set(_, _) => "set"
    case Add(_, _, _) => "preview"
    case Priority(_, _) => "priority"
    case Remove(_) => "remove"
  }

  function Arguments(cmd: C.Command, bare: Text -> bool): Text
  {
    match cmd
    case Set(option, value) => option + PrintSetting(value, bare)
    case Add(name, types, script) => PrintText(name, bare) + (PrintTypes(types, bare) + (" " + PrintBlock(script)))
    case Priority(name, priority) => PrintText(name, bare) + PrintPriority(priority)
    case Remove(name) => PrintText(name, bare)
  }

  lemma KeywordIsWord(cmd: C.Command, bare: Text -> bool)
    ensures IsWord(Keyword(cmd))
    ensures PrintCommand(cmd, bare) == Keyword(cmd) + (" " + Arguments(cmd, bare))
    ensures |PrintCommand(cmd, bare)| == |Keyword(cmd)| + 1 + |Arguments(cmd, bare)|
  {
  }

  function ParseArguments(s: Text, c: Cursor, cmd: C.Command): Parsed<C.Command>
  {
    match cmd
    case Set(_, _) => ParseSet(s, c)
    case Add(_, _, _) => ParsePreview(s, c)
    case Priority(_, _) => ParsePriority(s, c)
    case Remove(_) => ParseRemove(s, c)
  }

  lemma ArgumentsParsed(s: Text, p: nat, cmd: C.Command, bare: Text -> bool)
    requires Printable(cmd)
    requires Has(s, p, Arguments(cmd, bare)) && CommandEnds(s, p + |Arguments(cmd, bare)|)
    ensures Starts(s, p)
    ensures ParseArguments(s, Here(s, p, false), cmd) == Done(cmd, Here(s, p + |Arguments(cmd, bare)|, false))
  {
    hide Lex, Has, Starts, ParseSet, ParsePreview, ParsePriority,
      PrintSetting, PrintTypes, PrintBlock, PrintPriority, PrintText;
    match cmd
    case Set(option, value) => SetParsed(s, p, option, value, bare);
    case Add(name, types, script) => PreviewParsed(s, p, name, types, script, bare);
    case Priority(name, priority) => PriorityParsed(s, p, name, priority, bare);
    case Remove(name) => TextHere(s, p, name, false, bare);
  }

  lemma CommandParsed(s: Text, p: nat, cmd: C.Command, bare: Text -> bool)
    requires Printable(cmd)
    requires Has(s, p, PrintCommand(cmd, bare)) && CommandEnds(s, p + |PrintCommand(cmd, bare)|)
    ensures At(s, p) != '\n' && Here(s, p, false).tok.kind == Str
    ensures ParseCommand(s, Here(s, p, false)) == Done(cmd, Here(s, p + |PrintCommand(cmd, bare)|, false))
  {
    hide Lex, Has, Starts, IsWord, PrintCommand, Arguments, Printable,
      ParseSet, ParsePreview, ParsePriority, ParseRemove;
    var w := Keyword(cmd);
    KeywordIsWord(cmd, bare);
    HasSplit(s, p, w, " " + Arguments(cmd, bare));
    HasSplit(s, p + |w|, " ", Arguments(cmd, bare));
    ArgumentsParsed(s, p + |w| + 1, cmd, bare);
    WordParsed(s, p, w, Arguments(cmd, bare));
    WordStarts(s, p, w, " " + Arguments(cmd, bare));
  }

  // ---- Files ----

  /** Printed commands are read back, and then what comes at `q`. */
  lemma {:induction false} AllParsed(s: Text, p: nat, cmds: seq<C.Command>, q: nat, bare: Text -> bool)
    requires forall cmd :: cmd in cmds ==> Printable(cmd)
    requires Has(s, p, PrintAll(cmds, bare)) && p + |PrintAll(cmds, bare)| == q
    requires At(s, q) != '\n' && Here(s, q, false).tok.kind != NewLn
    ensures At(s, p) != '\n' && Here(s, p, false).tok.kind != NewLn
    ensures var tail := ParseCommands(s, Here(s, q, false));
            ParseCommands(s, Here(s, p, false)) == Program(cmds + tail.cmds, tail.ok)
    decreases |cmds|
  {
    hide Lex, Has, PrintCommand, Printable, ParseCommands;
    var tail := ParseCommands(s, Here(s, q, false));
    if cmds == [] {
      assert [] + tail.cmds == tail.cmds;
    } else {
      var w, rest := PrintCommand(cmds[0], bare), PrintAll(cmds[1..], bare);
      HasSplit(s, p, w, "\n" + rest);
      HasSplit(s, p + |w|, "\n", rest);
      AllParsed(s, p + |w| + 1, cmds[1..], q, bare);
      LineParsed(s, p, cmds[0], bare);
      FirstAndRest(cmds, tail.cmds);
    }
  }

  lemma FirstAndRest(a: seq<C.Command>, b: seq<C.Command>)
    requires a != []
    ensures a + b == [a[0]] + (a[1..] + b)
  {
  }

  /** A command on a line of its own, and then what comes below. */
  lemma LineParsed(s: Text, p: nat, cmd: C.Command, bare: Text -> bool)
    requires Printable(cmd) && Has(s, p, PrintCommand(cmd, bare)) && Has(s, p + |PrintCommand(cmd, bare)|, "\n")
    requires var b := p + |PrintCommand(cmd, bare)| + 1;
             At(s, b) != '\n' && Here(s, b, false).tok.kind != NewLn
    ensures At(s, p) != '\n' && Here(s, p, false).tok.kind != NewLn
    ensures var rest := ParseCommands(s, Here(s, p + |PrintCommand(cmd, bare)| + 1, false));
            ParseCommands(s, Here(s, p, false)) == Program([cmd] + rest.cmds, rest.ok)
  {
    hide Lex, Has, PrintCommand, Printable, ParseCommand, ParseEnd, ParseCommands, CommandEnds, Here;
    var b := p + |PrintCommand(cmd, bare)|;
    HasAt(s, b, "\n", 0);
    NewLineToken(s, b);
    CommandParsed(s, p, cmd, bare);
    EndParsed(s, b);
    CommandThenRest(s, Here(s, p, false), cmd, Here(s, b, false), Here(s, b + 1, false));
  }

  lemma CommandThenRest(s: Text, c: Cursor, cmd: C.Command, c1: Cursor, c2: Cursor)
    requires c.tok.kind != Eof && ParseCommand(s, c) == Done(cmd, c1) && ParseEnd(s, c1) == Done((), c2)
    ensures var rest := ParseCommands(s, c2);
            ParseCommands(s, c) == Program([cmd] + rest.cmds, rest.ok)
  {
    hide ParseCommand, ParseEnd;
  }

  lemma EndParsed(s: Text, q: nat)
    requires Has(s, q, "\n") && At(s, q + 1) != '\n' && Here(s, q + 1, false).tok.kind != NewLn
    ensures ParseEnd(s, Here(s, q, false)) == Done((), Here(s, q + 1, false))
  {
    hide Lex, Has;
    NewlineHere(s, q, false);
  }

  lemma EofHere(s: Text, p: nat)
    requires p == |s|
    ensures Starts(s, p) && Here(s, p, false).tok.kind == Eof
  {
  }

  /** Whatever commands are written out, lexing and parsing the text gives back just those commands. */
  lemma PrintedParses(cmds: seq<C.Command>, bare: Text -> bool)
    requires forall cmd :: cmd in cmds ==> Printable(cmd)
    ensures ParseFile(PrintAll(cmds, bare)) == Program(cmds, true)
  {
    var s := PrintAll(cmds, bare);
    assert Has(s, 0, s);
    EofHere(s, |s|);
    AllParsed(s, 0, cmds, |s|, bare);
    assert cmds + [] == cmds;
  }

  /** The text can be read to its end, and is seen as it is through every window. */
  lemma PrintedSeen(cmds: seq<C.Command>, size: nat, bare: Text -> bool)
    ensures Readable(PrintAll(cmds, bare), START) && SeenBy(PrintAll(cmds, bare), size) == PrintAll(cmds, bare)
  {
    EndsInNewline(cmds, bare);
    NewlineTerminatedIsReadable(PrintAll(cmds, bare));
    SeenIsFile(PrintAll(cmds, bare), size);
  }

  lemma {:induction false} EndsInNewline(cmds: seq<C.Command>, bare: Text -> bool)
    ensures var s := PrintAll(cmds, bare); s == [] || s[|s| - 1] == '\n'
  {
    if cmds != [] {
      EndsInNewline(cmds[1..], bare);
    }
  }

  /** So loading the text is running the commands, on any previews and options. */
  lemma PrintedLoads(cmds: seq<C.Command>, env: C.Env, bare: Text -> bool)
    requires forall cmd :: cmd in cmds ==> Printable(cmd)
    ensures Load(PrintAll(cmds, bare), env) == C.ExecAll(cmds, env)
  {
    PrintedParses(cmds, bare);
    var s := PrintAll(cmds, bare);
    assert LoadFrom(s, FirstCommand(s), env) == C.Outcome(C.ExecAll(cmds, env).env, C.ExecAll(cmds, env).ok);
  }

  // ---- The number of types ----

  lemma {:induction false} TooManyTypes(s: Text, p: nat, types: seq<C.TypeSet>, script: Text,
                                        acc: seq<C.TypeSet>, numIsText: bool, bare: Text -> bool)
    requires Has(s, p, PrintTypes(types, bare) + (" " + PrintBlock(script))) && IsBody(script)
    requires |acc| <= MAX_TYPES < |acc| + |types| && forall t :: t in types ==> PrintableType(t)
    ensures ParseTypes(s, Here(s, p, numIsText), acc).Fail?
    decreases |types|
  {
    hide Lex, Has, Starts, PrintBlock, PrintType, IsBody, PrintableType, ParseType, Advance, Here;
    HasSplit(s, p, PrintTypes(types, bare), " " + PrintBlock(script));
    var w, rest := PrintType(types[0], bare), PrintTypes(types[1..], bare);
    HasSplit(s, p, w, rest);
    TypeEnds(s, p + |w|, types[1..], script, bare);
    TypeParsed(s, p, types[0], numIsText, bare);
    if |acc| < MAX_TYPES {
      TooManyTypes(s, p + |w|, types[1..], script, acc + [types[0]], true, bare);
      TypesStep(s, Here(s, p, numIsText), acc, types[0], Here(s, p + |w|, true));
    }
  }

  lemma PreviewFails(s: Text, p: nat, name: Text, types: seq<C.TypeSet>, script: Text, bare: Text -> bool)
    requires Quotable(name) && IsBody(script) && |types| > MAX_TYPES && forall t :: t in types ==> PrintableType(t)
    requires Has(s, p, PrintText(name, bare) + (PrintTypes(types, bare) + (" " + PrintBlock(script))))
    ensures Starts(s, p) && ParsePreview(s, Here(s, p, false)).Fail?
  {
    hide Lex, Has, Starts, PrintBlock, PrintTypes, PrintText, Quotable, IsBody, PrintableType, ParseTypes, IsWordByte;
    EndsWord();
    var q := p + |PrintText(name, bare)|;
    HasSplit(s, p, PrintText(name, bare), PrintTypes(types, bare) + (" " + PrintBlock(script)));
    HasSplit(s, q, PrintTypes(types, bare), " " + PrintBlock(script));
    TypeEnds(s, q, types, script, bare);
    NameParsed(s, p, name, PrintTypes(types, bare) + (" " + PrintBlock(script)), bare);
    TooManyTypes(s, q, types, script, [], false, bare);
  }

  /** A preview of up to sixteen types is read, one of more is an error. */
  lemma TypeLimit(name: Text, types: seq<C.TypeSet>, script: Text, bare: Text -> bool)
    requires Quotable(name) && IsBody(script) && forall t :: t in types ==> PrintableType(t)
    ensures var cmd := C.Add(name, types, script);
            ParseFile(PrintAll([cmd], bare)) == if |types| <= 16 then Program([cmd], true) else Program([], false)
  {
    hide Lex, Has, Starts, IsWord, PrintTypes, PrintBlock, PrintText, PrintCommand, Quotable, IsBody, PrintableType,
      ParsePreview, ParseCommands;
    var cmd := C.Add(name, types, script);
    if |types| <= 16 {
      PrintedParses([cmd], bare);
    } else {
      var s, w := PrintAll([cmd], bare), Keyword(cmd);
      var line := PrintCommand(cmd, bare);
      HasItself(s);
      HasSplit(s, 0, line, "\n" + PrintAll([cmd][1..], bare));
      KeywordIsWord(cmd, bare);
      HasSplit(s, 0, w, " " + Arguments(cmd, bare));
      HasSplit(s, |w|, " ", Arguments(cmd, bare));
      PreviewFails(s, |w| + 1, name, types, script, bare);
      WordParsed(s, 0, w, Arguments(cmd, bare));
      assert ParseCommand(s, Here(s, 0, false)).Fail?;
      NothingRead(s, Here(s, 0, false));
    }
  }

  lemma HasItself(s: Text)
    ensures Has(s, 0, s)
  {
  }

  lemma NothingRead(s: Text, c: Cursor)
    requires c.tok.kind != Eof && ParseCommand(s, c).Fail?
    ensures ParseCommands(s, c) == Program([], false)
  {
  }
}
