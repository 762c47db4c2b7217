/**
 Commands written out as a configuration file. Whether a text that can do without quotes
 is written without is up to `bare`, text by text.
 */
module Printer {
  import opened Bytes
  import opened ConfigSpec
  import C = Commands

  /** Text that can stand between double quotes. */
  predicate Quotable(t: Text)
  {
    forall c :: c in t ==> c != '"' && c != NUL && c as int < 128
  }

  /** A script that can stand between double braces. */
  predicate IsBody(t: Text)
  {
    && (forall k :: 0 <= k < |t| ==> t[k] != NUL && t[k] != EOF_CHAR)
    && (forall k :: 0 <= k < |t| - 1 ==> t[k] == '}' ==> t[k + 1] != '}')
    && (t != [] ==> t[|t| - 1] != '}')
  }

  predicate IsLetter(c: Byte) { 'a' <= c <= 'z' || 'A' <= c <= 'Z' }

  predicate IsWordByte(c: Byte) { IsLetter(c) || '0' <= c <= '9' || c == '_' || c == '-' }

  /** Text that can stand without quotes: a word of letters, digits, underscores and hyphens, a letter first. */
  predicate IsBareWord(t: Text)
  {
    t != [] && IsLetter(t[0]) && forall c :: c in t ==> IsWordByte(c)
  }

  predicate IsNumeral(t: Text)
  {
    t != [] && forall c :: c in t ==> '0' <= c <= '9'
  }

  /** An extension, or a MIME type. */
  predicate PrintableType(t: C.TypeSet)
  {
    match t.ext
    case Some(e) => Quotable(e) && t.typ == t.subtype == None
    case None => (t.typ.Some? ==> Quotable(t.typ.value)) && (t.subtype.Some? ==> Quotable(t.subtype.value))
  }

  predicate Printable(cmd: C.Command)
  {
    match cmd
    case Set(option, value) =>
      (match FindOption(OPTIONS, option)
       case None => false
       case Some(def) =>
         match def.arg
         case String => value.Str? && Quotable(value.s)
         case _ => value.Num?)
    case Add(name, types, script) =>
      && Quotable(name) && |types| <= MAX_TYPES && IsBody(script)
      && forall t :: t in types ==> PrintableType(t)
    case Priority(name, _) => Quotable(name)
    case Remove(name) => Quotable(name)
  }

  function Digits(n: nat): (t: Text)
    ensures IsNumeral(t)
  {
    var d: Text := [('0' as int + n % 10) as char];
    if n < 10 then d else Digits(n / 10) + d
  }

  function PrintInt(n: int): Text
  {
    if n < 0 then "-" + Digits(-n) else Digits(n)
  }

  function Quote(t: Text): Text { "\"" + t + "\"" }

  function PrintText(t: Text, bare: Text -> bool): Text
  {
    if bare(t) && IsBareWord(t) then t else Quote(t)
  }

  /** Among the types of a preview numerals can do without quotes too, such as the extension of a manual page. */
  function PrintExt(e: Text, bare: Text -> bool): Text
  {
    if bare(e) && IsNumeral(e) then e else PrintText(e, bare)
  }

  function PrintPart(t: Option<Text>, bare: Text -> bool): Text
  {
    if t.Some? then PrintText(t.value, bare) else "*"
  }

  function PrintSubtype(t: Option<Text>, bare: Text -> bool): Text
  {
    if t.Some? then PrintExt(t.value, bare) else "*"
  }

  function PrintType(t: C.TypeSet, bare: Text -> bool): Text
  {
    match t.ext
    case Some(e) => " " + ("." + PrintExt(e, bare))
    case None => " " + (PrintPart(t.typ, bare) + ("/" + PrintSubtype(t.subtype, bare)))
  }

  function PrintTypes(types: seq<C.TypeSet>, bare: Text -> bool): Text
  {
    if types == [] then [] else PrintType(types[0], bare) + PrintTypes(types[1..], bare)
  }

  function PrintBlock(script: Text): Text { "{{" + script + "}}" }

  function PrintValue(v: C.OptVal, bare: Text -> bool): Text
  {
    match v
    case Num(i) => PrintInt(i)
    case Str(t) => PrintText(t, bare)
  }

  /** What follows the name of an option: a flag that is 1 can go without. */
  function PrintSetting(v: C.OptVal, bare: Text -> bool): Text
  {
    if v == C.Num(1) then [] else " " + PrintValue(v, bare)
  }

  /** What follows the name of a preview whose priority is set; 1 is what it is without. */
  function PrintPriority(priority: int): Text
  {
    if priority == 1 then [] else " " + PrintInt(priority)
  }

  /** A command without the newline that ends it. */
  function PrintCommand(cmd: C.Command, bare: Text -> bool): Text
  {
    match cmd
    case Set(option, value) => "set" + (" " + (option + PrintSetting(value, bare)))
    case Add(name, types, script) =>
      "preview" + (" " + (PrintText(name, bare) + (PrintTypes(types, bare) + (" " + PrintBlock(script)))))
    case Priority(name, priority) => "priority" + (" " + (PrintText(name, bare) + PrintPriority(priority)))
    case Remove(name) => "remove" + (" " + PrintText(name, bare))
  }

  function PrintAll(cmds: seq<C.Command>, bare: Text -> bool): Text
  {
    if cmds == [] then [] else PrintCommand(cmds[0], bare) + ("\n" + PrintAll(cmds[1..], bare))
  }
}
