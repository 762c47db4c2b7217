/** Which token sequences are commands, and which are not, token by token. */
module Grammar {
  import opened Bytes
  import opened LexSpec
  import opened ConfigSpec
  import opened Options
  import C = Commands

  /** A command is one of four words and what has to follow it; nothing else is. */
  lemma CommandIff(s: Text, c: Cursor)
    ensures var r, c1 := ParseCommand(s, c), Advance(s, c, false);
            && (c.tok.kind != Str ==> r.Fail?)
            && (c.tok.kind == Str ==>
                  if c.tok.text == "set" then r == ParseSet(s, c1)
                  else if c.tok.text == "preview" then r == ParsePreview(s, c1)
                  else if c.tok.text == "priority" then r == ParsePriority(s, c1)
                  else if c.tok.text == "remove" then r == ParseRemove(s, c1)
                  else r.Fail?)
  {
    hide ParseSet, ParsePreview, ParsePriority, ParseRemove, Advance;
  }

  /** A flag, with a number or without, or the shell with a text. */
  lemma SetIff(s: Text, c: Cursor)
    ensures var r, c1 := ParseSet(s, c), Advance(s, c, false);
            var name := c.tok.text;
            && (r.Done? <==> c.tok.kind == Str && (name in FLAGS || (name == "shell" && c1.tok.kind == Str)))
            && (r.Done? && name != "shell" ==>
                  && r.value == C.Set(name, C.Num(if c1.tok.kind == Int then c1.tok.num else 1))
                  && r.cur == if c1.tok.kind == Int then Advance(s, c1, false) else c1)
            && (r.Done? && name == "shell" ==>
                  r.value == C.Set(name, C.Str(c1.tok.text)) && r.cur == Advance(s, c1, false))
  {
    hide Advance, FindOption;
    OptionTable(c.tok.text);
    ShellIsNoFlag();
  }

  lemma ShellIsNoFlag()
    ensures "shell" !in FLAGS
  {
  }

  predicate IsPart(c: Cursor) { c.tok.kind == Star || c.tok.kind == Str }

  function PartOf(c: Cursor): Option<Text>
  {
    if c.tok.kind == Star then None else Some(c.tok.text)
  }

  /** A dot and a text, or two parts with a slash between, each a star or a text. */
  lemma TypeIff(s: Text, c: Cursor)
    ensures var r := ParseType(s, c);
            var c1 := Advance(s, c, true);
            var c2 := Advance(s, c1, true);
            && (r.Done? <==> if c.tok.kind == Dot then c1.tok.kind == Str
                             else IsPart(c) && c1.tok.kind == Slash && IsPart(c2))
            && (r.Done? && c.tok.kind == Dot ==> r.value == C.TypeSet(None, None, Some(c1.tok.text)) && r.cur == c2)
            && (r.Done? && c.tok.kind != Dot ==>
                  r.value == C.TypeSet(PartOf(c), PartOf(c2), None) && r.cur == Advance(s, c2, true))
  {
    hide Advance;
  }

  /** A name, types up to the opening braces, a text and the closing braces. */
  lemma PreviewIff(s: Text, c: Cursor)
    ensures var r, ts := ParsePreview(s, c), ParseTypes(s, Advance(s, c, false), []);
            var c2 := Advance(s, ts.cur, false);
            && (r.Done? <==> c.tok.kind == Str && ts.Done? && ts.cur.tok.kind == Str && c2.tok.kind == BlkCls)
            && (r.Done? ==>
                  && r.value == C.Add(c.tok.text, ts.value, ts.cur.tok.text) && r.cur == Advance(s, c2, false))
  {
    hide Advance, ParseTypes;
  }

  /** A name, with a number or without. */
  lemma PriorityIff(s: Text, c: Cursor)
    ensures var r, c1 := ParsePriority(s, c), Advance(s, c, false);
            && (r.Done? <==> c.tok.kind == Str)
            && (r.Done? ==>
                  && r.value == C.Priority(c.tok.text, if c1.tok.kind == Int then c1.tok.num else 1)
                  && r.cur == if c1.tok.kind == Int then Advance(s, c1, false) else c1)
  {
    hide Advance;
  }

  lemma RemoveIff(s: Text, c: Cursor)
    ensures var r := ParseRemove(s, c);
            && (r.Done? <==> c.tok.kind == Str)
            && (r.Done? ==> r.value == C.Remove(c.tok.text) && r.cur == Advance(s, c, false))
  {
    hide Advance;
  }

  /** A command is followed by a newline or the end of the file, and by nothing else. */
  lemma EndIff(s: Text, c: Cursor)
    ensures ParseEnd(s, c).Done? <==> c.tok.kind == NewLn || c.tok.kind == Eof
    ensures c.tok.kind == NewLn ==> ParseEnd(s, c).cur == SkipNewlines(s, Advance(s, c, false))
  {
    hide Advance, SkipNewlines;
  }
}
