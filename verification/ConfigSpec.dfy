/**
 The grammar of `src/config.c` over the lexer's specification: which commands a file
 consists of, apart from what they do. The lexer option in force when a token is read
 is part of the grammar, for the parser switches it with one token already read ahead.
 */
module ConfigSpec {
  import opened Bytes
  import opened LexSpec
  import opened LexFacts
  import C = Commands

  datatype ArgType = Bool | Integer | String

  datatype OptionDef = OptionDef(name: Text, arg: ArgType)

  const OPTIONS: seq<OptionDef> := [
    OptionDef("forcekitty", Bool),
    OptionDef("forcekittyanim", Bool),
    OptionDef("forcechafa", Bool),
    OptionDef("noimages", Bool),
    OptionDef("nosymlinkinfo", Bool),
    OptionDef("autochafa", Bool),
    OptionDef("chafasixel", Bool),
    OptionDef("showgpg", Bool),
    OptionDef("shell", String)]

  /** The first option of that name. */
  function FindOption(defs: seq<OptionDef>, name: Text): Option<OptionDef>
  {
    if defs == [] then None
    else if defs[0].name == name then Some(defs[0])
    else FindOption(defs[1..], name)
  }

  const MAX_TYPES: nat := 16

  /** The lexer's state with the token read ahead. */
  datatype Cursor = Cursor(lex: State, tok: Tok)

  /** Either way, `cur` is where reading has come to. */
  datatype Parsed<+T> = Fail(cur: Cursor) | Done(value: T, cur: Cursor)

  /** The cursor on the first token read from a given state. */
  function CursorAt(s: Text, st: State, numIsText: bool): Cursor
  {
    var r := Lex(s, st, numIsText);
    Cursor(r.next, r.tok)
  }

  function Advance(s: Text, c: Cursor, numIsText: bool): Cursor
  {
    CursorAt(s, c.lex, numIsText)
  }

  /** How much reading is left; the token read ahead counts unless it is the end of file. */
  function Rem(s: Text, c: Cursor): nat
  {
    2 * Left(s, c.lex) + if c.tok.kind == Eof then 0 else 1
  }

  /** Reading has come from `c` to `d`. */
  predicate Before(c: Cursor, d: Cursor)
  {
    Progress(c.lex) <= Progress(d.lex)
  }

  lemma AdvanceShrinks(s: Text, c: Cursor, numIsText: bool)
    ensures Rem(s, Advance(s, c, numIsText)) <= Rem(s, c)
    ensures c.tok.kind != Eof ==> Rem(s, Advance(s, c, numIsText)) < Rem(s, c)
    ensures Before(c, Advance(s, c, numIsText))
  {
    LexShrinks(s, c.lex, numIsText);
    LexProgresses(s, c.lex, numIsText);
  }

  /** Moves on over a token of the given kind. */
  function Expect(s: Text, c: Cursor, kind: Kind, numIsText: bool): (r: Parsed<Tok>)
    requires kind != Eof
    ensures Before(c, r.cur) && (r.Done? ==> Rem(s, r.cur) < Rem(s, c))
  {
    if c.tok.kind == kind then
      AdvanceShrinks(s, c, numIsText);
      Done(c.tok, Advance(s, c, numIsText))
    else Fail(c)
  }

  function SkipNewlines(s: Text, c: Cursor): (r: Cursor)
    ensures Before(c, r) && Rem(s, r) <= Rem(s, c) && r.tok.kind != NewLn
    decreases Rem(s, c)
  {
    if c.tok.kind == NewLn then
      AdvanceShrinks(s, c, false);
      SkipNewlines(s, Advance(s, c, false))
    else c
  }

  lemma SkipStep(s: Text, c: Cursor)
    ensures SkipNewlines(s, c) == if c.tok.kind == NewLn then SkipNewlines(s, Advance(s, c, false)) else c
  {
  }

  /** "*" for any, or a word. */
  function ParseMimePart(s: Text, c: Cursor): (r: Parsed<Option<Text>>)
    ensures Before(c, r.cur) && (r.Done? ==> Rem(s, r.cur) < Rem(s, c))
  {
    if c.tok.kind == Star then
      AdvanceShrinks(s, c, true);
      Done(None, Advance(s, c, true))
    else
      match Expect(s, c, Str, true)
      case Fail(e) => Fail(e)
      case Done(tok, c1) => Done(Some(tok.text), c1)
  }

  /** An extension after a dot, or the two parts of a MIME type. */
  function ParseType(s: Text, c: Cursor): (r: Parsed<C.TypeSet>)
    ensures Before(c, r.cur) && (r.Done? ==> Rem(s, r.cur) < Rem(s, c))
  {
    if c.tok.kind == Dot then
      AdvanceShrinks(s, c, true);
      match Expect(s, Advance(s, c, true), Str, true)
      case Fail(e) => Fail(e)
      case Done(tok, c1) => Done(C.TypeSet(None, None, Some(tok.text)), c1)
    else
      match ParseMimePart(s, c)
      case Fail(e) => Fail(e)
      case Done(typ, c1) =>
        match Expect(s, c1, Slash, true)
        case Fail(e) => Fail(e)
        case Done(_, c2) =>
          match ParseMimePart(s, c2)
          case Fail(e) => Fail(e)
          case Done(subtype, c3) => Done(C.TypeSet(typ, subtype, None), c3)
  }

  /** Types up to the opening braces, at most sixteen. */
  function ParseTypes(s: Text, c: Cursor, types: seq<C.TypeSet>): (r: Parsed<seq<C.TypeSet>>)
    requires |types| <= MAX_TYPES
    ensures Before(c, r.cur) && (r.Done? ==> Rem(s, r.cur) < Rem(s, c) && |r.value| <= MAX_TYPES)
    decreases MAX_TYPES - |types|
  {
    if c.tok.kind == BlkOpen then
      AdvanceShrinks(s, c, false);
      Done(types, Advance(s, c, false))
    else if |types| >= MAX_TYPES then Fail(c)
    else
      match ParseType(s, c)
      case Fail(e) => Fail(e)
      case Done(t, c1) => ParseTypes(s, c1, types + [t])
  }

  /** The value of an option: a flag may go without, and then is 1. */
  function ParseValue(s: Text, c: Cursor, name: Text, arg: ArgType): (r: Parsed<C.Command>)
    ensures Before(c, r.cur) && (r.Done? ==> Rem(s, r.cur) <= Rem(s, c) && r.value.Set?)
    ensures r.Done? ==> r.value.option == name && (r.value.value.Str? <==> arg == String)
  {
    match arg
    case Bool =>
      if c.tok.kind == Int then
        AdvanceShrinks(s, c, false);
        Done(C.Set(name, C.Num(c.tok.num)), Advance(s, c, false))
      else Done(C.Set(name, C.Num(1)), c)
    case Integer =>
      (match Expect(s, c, Int, false)
       case Fail(e) => Fail(e)
       case Done(v, c1) => Done(C.Set(name, C.Num(v.num)), c1))
    case String =>
      (match Expect(s, c, Str, false)
       case Fail(e) => Fail(e)
       case Done(v, c1) => Done(C.Set(name, C.Str(v.text)), c1))
  }

  function ParseSet(s: Text, c: Cursor): (r: Parsed<C.Command>)
    ensures Before(c, r.cur) && (r.Done? ==> Rem(s, r.cur) < Rem(s, c) && r.value.Set?)
  {
    match Expect(s, c, Str, false)
    case Fail(e) => Fail(e)
    case Done(name, c1) =>
      match FindOption(OPTIONS, name.text)
      case None => Fail(c1)
      case Some(def) => ParseValue(s, c1, name.text, def.arg)
  }

  /** The body of a block and its closing braces. */
  function ParseScript(s: Text, c: Cursor): (r: Parsed<Text>)
    ensures Before(c, r.cur) && (r.Done? ==> Rem(s, r.cur) < Rem(s, c))
  {
    match Expect(s, c, Str, false)
    case Fail(e) => Fail(e)
    case Done(script, c1) =>
      match Expect(s, c1, BlkCls, false)
      case Fail(e) => Fail(e)
      case Done(_, c2) => Done(script.text, c2)
  }

  function ParsePreview(s: Text, c: Cursor): (r: Parsed<C.Command>)
    ensures Before(c, r.cur) && (r.Done? ==> Rem(s, r.cur) < Rem(s, c) && r.value.Add?)
  {
    match Expect(s, c, Str, false)
    case Fail(e) => Fail(e)
    case Done(name, c1) =>
      match ParseTypes(s, c1, [])
      case Fail(e) => Fail(e)
      case Done(types, c2) =>
        match ParseScript(s, c2)
        case Fail(e) => Fail(e)
        case Done(script, c3) => Done(C.Add(name.text, types, script), c3)
  }

  function ParsePriority(s: Text, c: Cursor): (r: Parsed<C.Command>)
    ensures Before(c, r.cur) && (r.Done? ==> Rem(s, r.cur) < Rem(s, c) && r.value.Priority?)
  {
    match Expect(s, c, Str, false)
    case Fail(e) => Fail(e)
    case Done(name, c1) =>
      if c1.tok.kind == Int then
        AdvanceShrinks(s, c1, false);
        Done(C.Priority(name.text, c1.tok.num), Advance(s, c1, false))
      else Done(C.Priority(name.text, 1), c1)
  }

  function ParseRemove(s: Text, c: Cursor): (r: Parsed<C.Command>)
    ensures Before(c, r.cur) && (r.Done? ==> Rem(s, r.cur) < Rem(s, c) && r.value.Remove?)
  {
    match Expect(s, c, Str, false)
    case Fail(e) => Fail(e)
    case Done(name, c1) => Done(C.Remove(name.text), c1)
  }

  /** A command after its keyword. */
  function ParseNamed(s: Text, c: Cursor, keyword: Text): (r: Parsed<C.Command>)
    ensures Before(c, r.cur) && (r.Done? ==> Rem(s, r.cur) < Rem(s, c))
  {
    if keyword == "set" then ParseSet(s, c)
    else if keyword == "preview" then ParsePreview(s, c)
    else if keyword == "priority" then ParsePriority(s, c)
    else if keyword == "remove" then ParseRemove(s, c)
    else Fail(c)
  }

  function ParseCommand(s: Text, c: Cursor): (r: Parsed<C.Command>)
    ensures Before(c, r.cur) && (r.Done? ==> Rem(s, r.cur) < Rem(s, c))
  {
    match Expect(s, c, Str, false)
    case Fail(e) => Fail(e)
    case Done(cmd, c1) => ParseNamed(s, c1, cmd.text)
  }

  /** The end of a command: the end of the file, or at least one newline. */
  function ParseEnd(s: Text, c: Cursor): (r: Parsed<()>)
    ensures Before(c, r.cur) && (r.Done? ==> Rem(s, r.cur) <= Rem(s, c))
  {
    if c.tok.kind == Eof then
      AdvanceShrinks(s, c, false);
      Done((), Advance(s, c, false))
    else
      match Expect(s, c, NewLn, false)
      case Fail(e) => Fail(e)
      case Done(_, c1) => Done((), SkipNewlines(s, c1))
  }

  /** The commands of a file up to its end or its first syntax error, and which of the two it was. */
  datatype Program = Program(cmds: seq<C.Command>, ok: bool)

  function ParseCommands(s: Text, c: Cursor): Program
    decreases Rem(s, c)
  {
    if c.tok.kind == Eof then Program([], true)
    else
      match ParseCommand(s, c)
      case Fail(_) => Program([], false)
      case Done(cmd, c1) =>
        match ParseEnd(s, c1)
        case Fail(_) => Program([cmd], false)
        case Done(_, c2) =>
          var rest := ParseCommands(s, c2);
          Program([cmd] + rest.cmds, rest.ok)
  }

  /** The cursor on the first command, if there is one. */
  function FirstCommand(s: Text): Cursor
  {
    SkipNewlines(s, CursorAt(s, START, false))
  }

  function ParseFile(s: Text): Program
  {
    ParseCommands(s, FirstCommand(s))
  }

  /** What reading from a cursor on means: the commands run in order; a failing one, or a syntax error, ends it all. */
  function LoadFrom(s: Text, c: Cursor, env: C.Env): C.Outcome
  {
    var p := ParseCommands(s, c);
    var r := C.ExecAll(p.cmds, env);
    C.Outcome(r.env, p.ok && r.ok)
  }

  function Load(s: Text, env: C.Env): C.Outcome
  {
    LoadFrom(s, FirstCommand(s), env)
  }

  /** Where reading stops: past the end of the file, at what cannot be read, or behind a command that fails. */
  function LoadStops(s: Text, c: Cursor, env: C.Env): (r: Cursor)
    ensures Before(c, r)
    decreases Rem(s, c)
  {
    if c.tok.kind == Eof then
      AdvanceShrinks(s, c, false);
      Advance(s, c, false)
    else
      match ParseCommand(s, c)
      case Fail(e) => e
      case Done(cmd, c1) =>
        match C.Exec(cmd, env)
        case None => c1
        case Some(env') =>
          match ParseEnd(s, c1)
          case Fail(e) => e
          case Done(_, c2) => LoadStops(s, c2, env')
  }

  /** All calls of the lexer up to the cursor `c` return. */
  ghost predicate ReadsTo(s: Text, st: State, c: Cursor)
  {
    CallsEndTo(s, st, Progress(c.lex))
  }

  /** No comment without a newline is met while the file, seen as `seen`, is loaded. */
  ghost predicate LoadEnds(s: Text, seen: Text, env: C.Env)
  {
    ReadsTo(s, START, LoadStops(seen, FirstCommand(seen), env))
  }

  /** If all calls return there is no such comment. */
  lemma ReadableLoads(s: Text, seen: Text, env: C.Env)
    requires Readable(s, START)
    ensures LoadEnds(s, seen, env)
  {
    ReadableTo(s, START, Progress(LoadStops(seen, FirstCommand(seen), env).lex));
  }

  lemma {:induction false} StopsStep(s: Text, c: Cursor, env: C.Env)
    ensures LoadStops(s, c, env) ==
            if c.tok.kind == Eof then Advance(s, c, false)
            else
              match ParseCommand(s, c)
              case Fail(e) => e
              case Done(cmd, c1) =>
                match C.Exec(cmd, env)
                case None => c1
                case Some(env') =>
                  match ParseEnd(s, c1)
                  case Fail(e) => e
                  case Done(_, c2) => LoadStops(s, c2, env')
  {
  }

  /** Reading all first and running after is the same as running each command as soon as it is read. */
  lemma LoadStep(s: Text, c: Cursor, env: C.Env)
    ensures LoadFrom(s, c, env) ==
            if c.tok.kind == Eof then C.Outcome(env, true)
            else
              match ParseCommand(s, c)
              case Fail(_) => C.Outcome(env, false)
              case Done(cmd, c1) =>
                match C.Exec(cmd, env)
                case None => C.Outcome(env, false)
                case Some(env') =>
                  match ParseEnd(s, c1)
                  case Fail(_) => C.Outcome(env', false)
                  case Done(_, c2) => LoadFrom(s, c2, env')
  {
    if c.tok.kind != Eof && ParseCommand(s, c).Done? {
      var Done(cmd, c1) := ParseCommand(s, c);
      var p := ParseCommands(s, c);
      assert p.cmds[0] == cmd;
      if ParseEnd(s, c1).Done? {
        assert p.cmds[1..] == ParseCommands(s, ParseEnd(s, c1).cur).cmds;
      } else {
        assert p == Program([cmd], false);
        assert p.cmds[1..] == [];
        if C.Exec(cmd, env).Some? {
          assert C.ExecAll([], C.Exec(cmd, env).value) == C.Outcome(C.Exec(cmd, env).value, true);
          assert C.ExecAll(p.cmds, env) == C.ExecAll(p.cmds[1..], C.Exec(cmd, env).value);
        }
      }
    }
  }
}
