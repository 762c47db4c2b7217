# ctpv: configuration, lexer and preview selection, verified

ctpv reads a configuration file, builds a table of previews from it and from a
built-in table, sorts the table, and runs the first preview that matches a file, going
on to the next one while scripts exit with code 127. This project models that path in
three layers and proves properties of each and of all of them together.

1. **Lexer over a sliding window** (`UnrolledList.dfy`, `InputBuffer.dfy`, `Lexer.dfy`).
   A window over the file is refilled by moving unread bytes to its front; token text is
   built in an unrolled list whose lock moves a half-built string to a bigger node. Both
   are modelled as classes that change in place, with buffers, nodes, a token ring and
   pointers into nodes. `LexSpec.dfy` is the lexer as a function of the whole file, and
   `Window.dfy` says as which file a file is seen through a window. The main result is
   that the first refines the second on the file as it is seen, for every file and every
   window size of at least three, and that no text handed out ever changes; `Seen.dfy`
   and `SeenConfig.dfy` say when that is the file itself.
2. **Parser with immediate effects** (`Config.dfy`, `PreviewEdits.dfy`, `Vector.dfy`).
   `ConfigSpec.dfy` says which commands a file consists of, apart from what they do;
   `Commands.dfy` says what commands do. The parser, which runs commands while it reads
   them with one token read ahead and the lexer's mode switching under way, is proved to
   do the same. `Printer.dfy` and `RoundTrip.dfy` close the circle: any list of printable
   commands, written out, is read back as itself.
   `Tokens.dfy`, `Grammar.dfy` and `Meaning.dfy` say what these specifications come to,
   byte by byte, token by token and for lists and options alone.
3. **Order, selection, fallback** (`Previews.dfy`, `Selection.dfy`, `Paths.dfy`).
   The comparison, a sort, the search and the retry loop, for arbitrary exit codes.

`Session.dfy` composes all three; `ConfigFacts.dfy`, `Options.dfy`, `Comments.dfy`,
`Unclosed.dfy`, `LexFacts.dfy` and `LexerRuns.dfy` hold what follows for files and for
whole runs.

## How the program is represented

- A `char` is signed in the program. A byte is its code 0..255 here; it is negative as a
  `char` from 128 on, and end of file, -1, is the code 255. No byte is excluded: a byte
  0xFF in a file reads as end of file, and bytes from 128 on end a quoted string, as in
  the program. Character classes are those of the C locale.
- `fread` returns as many bytes as there are up to the number asked for, and the end of
  the file is known once fewer came back. The window has any size of at least three.
- Script execution is an arbitrary function from attempt and preview to a result; which
  shells there are is an arbitrary predicate on names.
- `qsort` is a simple sort in place; everything else uses only that its result is a
  sorted permutation.

## What was found

- *A lookahead past the end of a full window reads a stale byte* (`InputBuffer.PeekN`). If
  a block is never closed, the file ends in a single closing brace and the window, ending
  where the file does, has a closing brace in its second place, the brace is taken for
  two and the block for closed. This happens to the program: there is a file of 1024
  bytes, the size of its window, of which nothing can be read as it is, and which loads
  and defines a preview (`UnclosedPreviewLoads`). `WholeFileSeenIff` says exactly when it
  happens to files of just the size of the window. `Windows.SeenBy` works out from the
  places of the refills which file is seen, for any file and window size; the lexer is
  proved to deliver exactly the tokens of that file, and these are the tokens of the file
  itself exactly if the closing brace is not doubled (`UnseenIff`). A file shorter than
  the window and one that ends in a newline are always seen as they are (`SeenIsFile`),
  and a well-formed one is always read as the same commands (`WellFormedSeen`).
- *A comment without a newline at the end of the file never ends* (`CommentEndsIff`,
  `EndlessComment`). A call that meets one does not return; these are the
  only files that the preconditions of the lexer and the loader exclude
  (`LexSpec.CallEnds`, `ConfigSpec.LoadEnds`). A number sign inside quotes or a block is no comment, and a
  comment that loading does not come to does no harm.
- *A comment takes its newline with it, and blanks after it are not skipped*
  (`CommentBehindCommand`, `LineBelowComment`). The manual (doc/ctpv.1:301-302)
  says only that commands are separated by newlines and comments start with a number sign;
  in the code a comment behind a command makes the next line a syntax error
  (`CommentedFile`), and a line indented right below a comment cannot be read. The
  specification follows the code.
- *That more specific previews come first* (doc/ctpv.1:225-230) holds for the program's own
  table and any configuration. Two previews of one order that read the extension
  differently, one as a whole and one its last part, could break it, but no two such in the
  table match the same file (`ShippedDoNotOverlap`). `MostSpecificIff` says for any list and
  file whether it holds.

## Model

| member | source | states |
|---|---|---|
| UnrolledLists.UList.AppendArr | src/ulist.c:83-108 | Appending adds exactly the given elements at the end of the list, wherever they have to move; under the lock everything appended since the lock stays one run; no string handed out before is disturbed |
| UnrolledLists.UList.AddNode | src/ulist.c:91-104 | A locked migration to a bigger node changes neither the contents nor the unfinished string nor any run handed out before |
| UnrolledLists.UList.Lock | src/ulist.c:119-122 | From here on appended elements form one contiguous run, empty so far |
| UnrolledLists.UList.Unlock | src/ulist.c:124-130 | The pointer returned stands for exactly what was appended since the lock, and joins the set of runs that stay readable |
| UnrolledLists.UList.RunsReadBack | src/ulist.c:83-130 | In every valid state each pointer ever handed out still has its whole text behind it, contiguous, inside its buffer |
| UnrolledLists.CapacityBound | src/ulist.c:83-108 | Each node is at least twice as big as every earlier one, and with more than one node the total capacity is below four times the number of elements stored |
| UnrolledLists.StableAfterSplit | src/ulist.c:94-101 | Cutting the tail at the lock and moving the rest to a new node keeps every run where it is |
| Growth.GrownFits | src/vector.c:40-59 | Doubling ends with a capacity that fits, is the old one times a power of two, is unchanged exactly if it fitted before, and otherwise is below twice the length wanted |
| Growth.DoubleUntil | src/vector.c:45-46 | The doubling loop ends and computes that capacity |
| Vectors.Vector.ResizeIfNeeded | src/vector.c:40-59 | Contents are kept, the wanted length fits, and over any run the capacity is the first one times a power of two and, once grown, below twice the largest length ever requested |
| Vectors.Vector.AppendArr | src/vector.c:61-71 | Appends the elements after the existing ones and returns the old length |
| Vectors.Vector.Remove | src/vector.c:90-94 | The last element takes the place of the removed one |
| Vectors.SwapRemoveTakesOne | src/vector.c:90-94 | Swap-remove takes exactly one occurrence of the removed element out of the multiset |
| InputBuffers.InputBuffer.PeekN | src/lexer.c:68-98 | With any window size of at least three, lookahead yields the byte of the file at that distance or end of file, without moving; the one exception, a lookahead past a window that ends exactly where the file does, yields a stale byte, and which one is stated; the window ends where the arithmetic of refills says |
| InputBuffers.InputBuffer.Refill | src/lexer.c:78-97 | Sliding the unread bytes to the front and reading on keeps the reading position and all unread bytes |
| SeenFacts.SeenStep | src/lexer.c:75-97 | Which file the lexer sees through a window: each call delivers the token of the file as it is, except for the one call, if any, that takes a brace at the end of the file for two and delivers the token of the file with that brace twice |
| SeenFacts.SeenIsFile | src/lexer.c:75-97 | The file is seen as it is if it is shorter than the window, ends in a newline, does not end in a brace, or the window does not have the same brace in its second place |
| SeenFacts.UnseenIff | src/lexer.c:348-381 | For a given file and window size, the tokens are those of the file, under every switching of the option, exactly if the window does not make a closing brace at its end two |
| SeenFacts.MisreadIsError | src/lexer.c:348-381 | Where it does, the lexer delivers a closed block for a block that the file never closes |
| SeenFacts.CleanFileSeen | src/lexer.c:319-426 | A file in which no call finds an error is seen as it is through every window |
| SeenConfig.WellFormedSeen | src/config.c:364-403 | So a well-formed configuration file is read as the same commands, and loaded with the same effect, through every window |
| SeenFacts.WholeFileSeenIff | src/lexer.c:75-97 | For every file of just the size of the window: a closing brace at its end is seen as two exactly if some call meets a block that is never closed and the second byte is a closing brace too |
| Unclosed.UnclosedPreviewRead | src/lexer.c:348-381 | Concrete files, for every window size from 23 on: a comment and a preview whose block lacks one of its closing braces, of which nothing can be read as they are, and which are read as the preview |
| LexerRuns.UnclosedReadClosed | src/lexer.c:348-426 | The same through the lexer itself: on any such file that starts with its unclosed block it delivers opening braces, a body and closing braces where the file has an error |
| Session.UnclosedPreviewLoads | src/lexer.c:14-18 | And through the whole program at its own window of 1024 bytes: a file of as many bytes whose only block is never closed loads, and defines a preview |
| LexFacts.LexShrinks | src/lexer.c:400-426 | Every call delivers a waiting token or consumes at least one byte, or is at the end of the file and says so, for ever |
| LexFacts.TokenBound | src/lexer.c:400-426 | Under any switching of the lexer option, n bytes give at most n tokens other than end of file |
| LexFacts.EofAbsorbs | src/lexer.c:413-413 | Once everything is read, every further token is end of file, as the command loop relies on |
| LexFacts.RingNeverFull | src/lexer.c:42-58 | In every reachable state at most two of the sixteen ring slots are taken, so equal ends mean an empty ring |
| LexFacts.BlockDelivery | src/lexer.c:348-381 | A closed block is delivered as its opening braces, the text up to the first pair of closing braces, and the closing braces, over three calls |
| LexFacts.SkippedAreComments | src/lexer.c:193-202 | Where the comments to be skipped have their newlines, what is skipped is whole lines that each start with a number sign, up to one that does not |
| LexFacts.PositionMeaning | src/lexer.c:105-119 | The tracked line is one more than the newlines read, the tracked column one more than the distance from the last of them |
| LexFacts.TokenPosition | src/lexer.c:219-224 | Every token other than end of file carries the exact line and column of its first byte; body and closing token of a block carry those of its opening braces |
| Tokens.StartMeaning | src/lexer.c:405-406 | Before a token spaces and tabs are skipped, then whole lines that start with a number sign, and nothing more |
| Tokens.CharToken | src/lexer.c:414-416 | A slash, a star and a dot are each a token of its own |
| Tokens.EndToken | src/lexer.c:413-413 | End of file is delivered at the end of the file and at a byte that is -1 as a char, and nowhere else |
| Tokens.NewlineToken | src/lexer.c:226-236 | All newlines in a row are one token |
| Tokens.WordToken | src/lexer.c:238-262 | A letter starts a word; it goes on over letters, digits, underscores and hyphens, and any other byte ends it |
| Tokens.NumberToken | src/lexer.c:283-317 | A number is a maximal run of digits, negative after a minus sign; under the option it is the text of its digits |
| Tokens.AtoiMeaning | src/lexer.c:308-308 | The value of digits is their decimal value, whatever zeros they start with |
| Tokens.StringToken | src/lexer.c:264-281 | A string goes on to the next double quote, to the first byte that is negative as a char or to the end of the file, and its text ends at a NUL |
| Tokens.CStringMeaning | src/lexer.c:276-276 | A C string is everything before the first NUL |
| Tokens.ErrorToken | src/lexer.c:424-425 | Any other byte is an error and is consumed, with a minus sign before it if there is one |
| LexFacts.CommentEndsIff | src/lexer.c:193-202 | Some number of rounds ends the inner comment loop exactly if the file has a newline ahead |
| LexFacts.CommentEnds | src/lexer.c:197-201 | If it has, the loop takes as many rounds as there are bytes up to the newline and leaves the reader past it |
| LexFacts.EndlessComment | src/lexer.c:193-202 | Concrete file: in one that is nothing but a number sign, no number of rounds ends the loop |
| Lexers.Lexer.SkipLineWithin | src/lexer.c:197-201 | The loop itself, reading byte by byte and given up after any number of rounds: it is done exactly if that many rounds are enough |
| LexFacts.NewlineTerminatedIsReadable | src/lexer.c:193-202 | In a file that is empty or ends in a newline every call of the lexer returns |
| Lexers.Lexer.CmpNextN | src/lexer.c:176-191 | Zero exactly if the next two bytes seem to be the given ones, consuming nothing, across refills; past the end of the file the second may be a stale one |
| Lexers.Lexer.IgnoreComments | src/lexer.c:193-202 | Ends if the comments it meets have their newlines, and leaves the reader past all adjacent comment lines |
| Lexers.Lexer.ReadWhile | src/lexer.c:204-217 | Consumes exactly the maximal run of accepted non-negative bytes and records it, terminated, as one contiguous text |
| Lexers.Lexer.ReadInt | src/lexer.c:283-317 | Reads digits as a number or, under the option, as text; a minus sign is consumed even if no digit follows |
| Lexers.Lexer.ReadBlock | src/lexer.c:348-381 | Queues the body up to the first closing braces and the closing token; an unclosed block is an error token, unless its last byte is misread as closing it, which is said exactly |
| Lexers.Lexer.ReadString | src/lexer.c:264-281 | A string runs to its closing quote, to the first byte that is negative as a char, or to the end of the file |
| Lexers.Lexer.GetToken | src/lexer.c:400-426 | Refinement: whatever the window size and wherever refills fall, each call that returns delivers the token that the lexer over the whole file as it is seen delivers and moves on to its next state; strings handed out before stay readable |
| Lexers.Lexer.StillReads | src/lexer.c:132-145 | In every valid state the NUL-terminated string behind any pointer ever handed out is the text it was then; there is no NUL in it, so that comparing texts is comparing C strings |
| LexerRuns.ReadAll | src/lexer.c:68-426 | For every window size and every sequence of option switches, the tokens read are those of the specification for the file as it is seen, their texts looked up only after all reading: later lexing changes none |
| ConfigSpec.LoadStep | src/config.c:364-373 | Running each command as soon as it is read is the same as reading the whole file first and running its commands after |
| Config.Parser.Expect | src/config.c:146-168 | Consumes a token of the expected kind or reports an error, keeping one token of lookahead and earlier texts readable |
| Grammar.CommandIff | src/config.c:328-344 | A command is one of the four keywords and what has to follow it; any other word, or no word, is an error |
| Grammar.SetIff | src/config.c:239-270 | Setting takes a flag with a number or without, which makes it 1, or the shell with a text, and nothing else |
| Grammar.TypeIff | src/config.c:170-199 | A type is a dot and a text, or two parts with a slash between, each a star or a text, and nothing else |
| Grammar.PreviewIff | src/config.c:272-297 | A definition is a name, types, opening braces, a body and closing braces, and nothing else |
| Grammar.PriorityIff | src/config.c:299-313 | A priority is a name with a number, or without, which makes it 1 |
| Grammar.EndIff | src/config.c:354-362 | After a command come a newline or the end of the file, and nothing else |
| RoundTrip.TypeLimit | src/config.c:277-288 | A definition of up to sixteen types is read, one of more is an error |
| Config.Parser.PreviewType | src/config.c:211-227 | Reads one type under the option that keeps numbers as text and restores the option on every path |
| Config.Parser.ReadTypes | src/config.c:277-288 | Reads at most sixteen types up to the opening braces; the texts of all of them are still readable afterwards |
| Config.Parser.AddPreview | src/config.c:77-103 | Appends one custom preview of order 1 per type, in order, with star types made null, from texts read many tokens earlier, and keeps the pointers to them |
| Config.Parser.CmdSet | src/config.c:239-270 | Sets the named option to the value read, or to 1 for a flag without value; an unknown option or a value of the wrong kind is an error and changes nothing |
| Options.OptionTable | src/config.c:59-69 | There are eight flags and the shell, a text, and no other options |
| Meaning.SetMeaning | src/config.c:252-263 | Setting an option gives it the value, touches no other and never fails |
| Config.Parser.Command | src/config.c:328-344 | Running a command has the effect that its meaning gives it, or fails with nothing changed |
| Config.Parser.Commands | src/config.c:364-373 | The command loop ends and leaves what the commands of the file, read apart from their effects, do when run in order up to the first failure |
| Config.Parser.Parse | src/config.c:375-403 | Whole-parse meaning: previews as a multiset, options and success are those of the fold over the command list of the file; a failing parse leaves the fold of the commands before the failure; exactly so much is read; and in the end each preview in the vector is one from before, but for its priority, or one whose pointers still have its name, script and types behind them |
| Config.LoadConfig | src/config.c:405-429 | The same from an open file, for every window size, with a preview vector or without, whenever the comments met up to where loading stops have their newlines; after a load that succeeds each option has the value set last, or the one from before, each name has its last priority and each definition its previews; loading also fails if no shell of the name then set is found |
| Options.LoadTyped | src/config.c:239-270 | Whatever a file sets, with success or not, every option keeps a value of its own type |
| Options.ShellIsSet | src/config.c:422-422 | So the shell that is looked for is always a text |
| Meaning.LastSetHolds | src/config.c:252-263 | After commands that succeed, an option has the value that the last command for it sets |
| Meaning.NeverSetKeeps | src/config.c:252-263 | An option that no command sets is as it was |
| Meaning.LastPriorityHolds | src/config.c:105-121 | After commands that succeed, all previews of a name have the priority given last, if none was defined since |
| Meaning.DefinedIsThere | src/config.c:77-103 | After commands that succeed, every type of a definition that was not removed has its preview, with the name, keys and script as written |
| PreviewEdits.AddPriority | src/config.c:105-121 | Every preview of that name has the new priority and is otherwise the old one, at its place, every other is unchanged, and it succeeds exactly if there is one of the name |
| Meaning.PriorityMeaning | src/config.c:105-121 | The command does the same, and fails exactly if there is none |
| Meaning.AddMeaning | src/config.c:77-103 | A definition adds one preview for each of its types, of order 1 and priority 0, a star of a MIME type standing for none, and never fails |
| Meaning.RemoveMeaning | src/config.c:123-139 | Removal leaves none of the name and every other preview as often as before, and fails exactly if there is none |
| PreviewEdits.RemovePreview | src/config.c:123-139 | The backward loop with swap-remove leaves no preview of the name and every other one as often as it was, and succeeds exactly if one was removed |
| PreviewEdits.ExaminedStep | src/config.c:130-136 | Its invariant: everything above the index has been examined and kept, though each removal moves the last preview into the hole |
| Commands.WithPriorityPermutes | src/config.c:105-121 | Setting priorities commutes with reordering the list |
| Commands.WithoutMeaning | src/config.c:123-139 | Removal leaves no preview of that name and every other preview as often as before |
| Commands.RemovalIsFinal | src/config.c:123-139 | If commands succeed and the last removal of a name is followed by no addition of it, no preview of that name is left |
| Commands.OptionsOnlyAgrees | src/config.c:107-126 | Commands that succeed with a preview list succeed without one and leave the same options |
| Commands.OnlyCustomsAreAdded | src/config.c:89-99 | Whatever the commands, each preview in the end is a custom one or one from before with at most its priority changed |
| ConfigFacts.TwoRuns | src/config.c:364-403 | A file that loads with previews loads without, with the same options, both runs reading the same tokens up to the same place; without previews it loads exactly if it is well formed |
| ConfigFacts.SameTokensRead | src/config.c:364-403 | Even if the run with previews fails, the run without reads at least as far |
| ConfigFacts.FailureKeepsPrefix | src/config.c:364-373 | Running commands stops at the first that names no existing preview, having done exactly what the ones before it do |
| ConfigFacts.RemovedIsGone | src/config.c:315-326 | A preview whose last remove in the file is followed by no definition of it is not in the loaded list |
| Comments.CommentBehindCommand | src/config.c:354-373 | A file of commands with a comment behind one of them is well formed exactly if an empty line comes next or nothing at all; otherwise reading stops there |
| Comments.CommentedFile | src/lexer.c:193-202 | Concrete file: two commands on two lines, the first with a comment behind it, of which only the first is read |
| Comments.LineBelowComment | src/lexer.c:405-406 | A file of commands with a comment line among them is well formed exactly if the line below the comment does not start with a blank; otherwise reading stops there |
| RoundTrip.TypesParsed | src/config.c:280-288 | A printed list of types is read back as it was, each type read with one token of lookahead across the switch of the lexer option |
| RoundTrip.SetParsed | src/config.c:239-270 | A printed setting is read back as it was, a flag that is 1 from its name alone |
| RoundTrip.PriorityParsed | src/config.c:299-313 | A printed priority is read back as it was, 1 from the name of the preview alone |
| RoundTrip.NumeralHere | src/lexer.c:301-306 | Under the option, a bare numeral such as a manual page section is read as text |
| RoundTrip.CommandParsed | src/config.c:328-344 | Every printed command is read back as itself, with the newline after it as the next token |
| RoundTrip.PrintedParses | src/config.c:364-403 | Round trip: lexing and parsing the text of any list of printable commands gives exactly that list, whichever texts are written in quotes and whichever, where they may, as bare words or numerals |
| RoundTrip.PrintedLoads | src/config.c:364-403 | So loading the text is running the commands, whatever the previews and options before |
| Session.LoadPrinted | src/config.c:405-429 | The same through the buffered lexer and the parser with effects, for every window size: each option is left at the value last printed, each name with its last priority and each definition with its previews |
| Previews.CmpSign | src/preview.c:25-48 | Swapping the arguments of the comparison flips its sign, and it is zero exactly if all five keys agree |
| Previews.CmpMeaning | src/preview.c:25-48 | What is tried first: the higher order, then extension, type and subtype, given before missing and the later in the dictionary before the earlier, then the higher priority |
| Bytes.StrCmpMeaning | src/utils.c:86-96 | String comparison is that of a dictionary by bytes |
| Previews.CmpTransitive | src/preview.c:25-48 | The comparison is transitive, so sorting by it is well defined |
| Previews.CustomsFirst | src/preview.c:32-33 | In a sorted list all previews of order 1 precede all of order 0 |
| Session.CustomsPrecedeBuiltins | src/config.c:97-97 | Whatever the file says, the sorted list is its custom previews followed by previews from the built-in table |
| Selection.MatchesIff | src/preview.c:91-120 | A preview matches exactly if its extension, if it has one, is the file's, or for the short kind what follows the last dot in it, and its type and subtype, if it has them, are the file's |
| Selection.TypeOfHalves | src/preview.c:76-89 | The type is what comes before the first slash of the MIME type, the subtype what comes after it |
| Session.CustomMatches | src/config.c:71-103 | A preview from the file matches exactly if its extension, type and subtype are the file's, a type being free if left out or a star, quoted or not; a star is not special as an extension |
| Selection.MostSpecificFirst | src/preview.c:91-120 | The first match in a sorted list is lexicographically at least as high as any other match in order, extension given, type given, subtype given, priority, exactly if the two do not read the extension differently while the other ranks above on the later keys |
| Selection.MostSpecificIff | src/preview.c:100-105 | For a given list and file, the first match is the most specific one exactly if no match upsets the order in that way |
| Selection.NoOverlapMostSpecific | src/preview.c:25-48 | So in a list where no whole extension ends in a dot and a short extension of the same order, the first match is the most specific for every file |
| Selection.ShippedDoNotOverlap | previews.h:67-116 | The extensions of the built-in table are such |
| Session.NoOverlapListed | src/config.c:89-99 | And nothing a configuration file says can change that |
| Selection.Qsort | src/preview.c:63-63 | Sorting gives a permutation in the order of the comparison; nothing is assumed about equal keys |
| Selection.PreviewTable.FindPreview | src/preview.c:91-120 | Resumes at an index and returns the first match from there on, or none |
| Selection.PreviewTable.Run | src/preview.c:165-224 | For any exit codes, the previews run are a prefix of the matches, in list order, each once, ending at the first that does not exit with 127; none found exactly if all matches give up; otherwise success exactly if the last script was run and exited with 0 or 141 or on signal 13 |
| Selection.MatchesFromMeaning | src/preview.c:91-120 | The matches are listed completely, in strictly increasing position, so each is attempted at most once |
| Session.InitPreviews | src/ctpv.c:87-99 | Built-in previews, then the configuration, then sorting: the list is a sorted permutation of what the file's commands make of the built-in table |
| Session.PreviewFile | src/ctpv.c:214-289 | End to end: the previews run are the first matches of that list, all for the file's own type, subtype and extension; with a built-in table like the program's, the first is the most specific whatever the file and the configuration; none is one that the configuration removed for good, whatever the scripts do; the outcome is that of the last script; and if the configuration fails nothing is run |
| Bytes.StrCmpZero | src/utils.c:86-96 | String comparison is zero exactly on equal strings |
| Paths.GetExt | src/utils.c:147-162 | The part after the first dot in the longest suffix of letters, digits and dots, or none if that suffix has no dot; the walk never leaves the string |
| Paths.ExtMeaning | src/utils.c:147-162 | Said byte by byte: the suffix is of letters, digits and dots and cannot be longer, and no dot comes before the one after which the extension starts |

## Left out

- Lexers.Lexer.GetToken: a call that meets a comment without a newline is excluded by its precondition, since the program never returns from it.
- Lexers.Lexer.CmpNextN: compares two bytes, the only number the lexer ever asks for.
- Config.Parser.AddPreview: a preview in the vector holds texts where the program's holds pointers; the pointers are kept beside it as ghost state, and `Config.Parser.Parse` promises that they still have those texts behind them.
- Config.LoadConfig: opening and closing the file are not modelled.
- Session.PreviewFile: starts from the real path and the MIME type of the file; looking these up, the symbolic link and the cache are not modelled.
- Selection.PreviewTable.Run: setting environment variables, the server fifo and copying script output are not modelled; MIME types have a slash and fewer than 63 bytes, since the program aborts or truncates otherwise.
- Selection.PreviewTable: the list holds previews where the program holds pointers to them; previews carry no script length.
- Lexers.Token: the union of number and text is two fields.
- `atoi` and the difference of two priorities are mathematical integers; overflow is not modelled, nor is unsigned wrap-around of positions.
- `strcmp` is reduced to the sign of its result.
- Allocation failure, `free`, pointer alignment and `fread` errors.
- Error messages: only the outcome is kept.
- Server, shell and process handling (`src/server.c`, `src/shell.c`, `spawn` in `src/utils.c`, `quit/ctpvquit.c`), the rest of `src/ctpv.c`, the scripts and the table generators: input and output around the core.
- The contents of the built-in table: it is any list of previews; only its extensions are looked at, in `Selection.ShippedTable`.
