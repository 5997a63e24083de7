# libCLI in Dafny

A model of the two pieces of libCLI that carry its logic, with proofs of what
they promise.

- **The in-place argument tokenizer.** `libcli_parse` (source/parse.c, and the
  older source/cli_internal.c) walks a NUL-terminated `char` buffer with a read
  head and a write head. It drops quote delimiters and escaping backslashes and
  ends every argument with a NUL. It records where each argument starts in a
  bounded `arguments` array, and it reports whether the input ended cleanly.
- **The sorted command registry.** A `CliHeader` (source/cli.c, and the older
  src/cli.c) holds a fixed-capacity array of `{name, function}` records in
  `strcmp` order. `search` is a binary search. `libcli_add` shifts the tail
  right with `memmove` and inserts. `libcli_new` pre-registers `help` in
  source/cli.c. `libcli_run` dispatches to a command or to the help listing.

## Structure

| file | module | models |
|---|---|---|
| cstrings.dfy | `CStrings` | C strings in a buffer (`strlen`, a `char*` read as a string), `strcmp`, the C-locale `isspace` |
| lexer.dfy | `Lexer` | The tokenizer's specification. `Feed` is the transition taken by each `parse_*` function on one character. `FeedAll` runs it over a string and `Finish` is the return on reading the NUL. `Lex(s)` is the status plus the arguments begun. `Rewritten(s)` is what the write head leaves in the buffer. |
| lexer_properties.dfy | `LexerProperties` | What the tokenizer promises: blank input, plain words, quoting, escapes, and the three kinds of failure |
| parse.dfy | `Parse` | source/parse.c itself. The `Parser` struct is a class over the input `array<char>` and the `arguments` array. There is one method per `parse_*` state function and a loop that performs their tail calls. `LibcliParse` is proved against `Lex`/`Rewritten`. |
| cli_internal.dfy | `CliInternal` | source/cli_internal.c: the same machine over the same `Parser`, with the single `unexpected_eof` failure and a count of 0 on failure |
| command_table.dfy | `CommandTable` | What the two registries share: the order, ascending or descending, sortedness, the insertion point, insertion, and the `memmove` shift |
| registry.dfy | `Registry` | source/cli.c: an ascending table with the help command and a writeback sink |
| legacy_registry.dfy | `LegacyRegistry` | src/cli.c: a descending table with no help command |

Pointers into the input buffer are modelled as offsets, so `arguments[k]` holds
the offset at which argument `k` starts. The writeback sink and the command
functions are not called. `Run` and `RunHelp` return, in order, the calls they
would make (`Writeback(text)` or `Invoke(function, userdata)`). A command
function is identified by a number, and the built-in help command by the tag
`Help` rather than by comparing against `dummy_help_command`.

The tokenizer is proved in two layers:
- **Each C state function** is proved to take exactly the `Feed` transition, or
  to return exactly the `Finish` status.
- **The whole parse** is then proved to leave `Rewritten(s)` at the start of the
  buffer. On success that is each argument followed by its NUL. It is also
  proved to leave the argument starts in the array, each of which reads back as
  its argument.

The C header's safety rule (include/cli/internal/parse.h:13-14) is that the
write head never passes the read head. The model proves it in the form the code
keeps: at every write, the write head is at or behind the read head. That is the
precondition of `Parser.Write`, and every state function is proved to meet it.
The last write of a parse that ends inside an argument is the closing NUL, which
`parse_argument` writes after `parser_read` has stopped on the input's NUL.
Where it lands depends on the input (see "Left out").

## Model

| member | source | states |
|---|---|---|
| CStrings.Strlen | source/parse.c:25-31 | The read head stops at the first NUL: the result is the index of a NUL, and no NUL comes before it |
| CStrings.CString | source/parse.c:153-162 | The input of `libcli_parse` is the characters before the first NUL: none of them is a NUL, and a NUL follows them |
| CStrings.CStringAt | source/parse.c:18-23 | A recorded `char*` read as a C string: the characters from the offset up to the next NUL, none of which is a NUL |
| CStrings.CStringAtTerminated | source/parse.c:110-116 | A string written into the buffer and followed by a NUL reads back as exactly that string from its start offset |
| CStrings.Strcmp | source/cli.c:38 | `strcmp` by sign: zero exactly when the strings are equal; otherwise the first differing character decides, and a proper prefix is smaller |
| CStrings.StrcmpAntisymmetric | src/cli.c:21 | Swapping the arguments of `strcmp` flips its sign, which is what turns src/cli.c's table into descending order |
| CStrings.StrcmpTransitive | source/cli.c:34-49 | `strcmp` order is transitive, so a binary search may discard a whole half of the table |
| Lexer.Rewritten | include/cli/internal/parse.h:13-14 | The characters written by a parse of `s` number at most the characters read (`|s|`) plus the NUL |
| Lexer.WrittenBounded | include/cli/internal/parse.h:13-14 | After any prefix of the input, the write head is at or behind the read head |
| Lexer.FeedEffects | source/parse.c:131-151 | Each step writes nothing or one character, where a NUL ends an argument. An argument start is recorded exactly when the machine leaves state Space, and its offset is the write head at that moment |
| Lexer.FeedAllAppend | source/parse.c:38-151 | Running the machine over `s + t` is running it over `s` and then over `t` |
| Lexer.FeedAllWellFormed | source/parse.c:131-151 | Outside an argument (state Space) no characters are pending |
| Lexer.FeedAllNoNul | source/parse.c:25-31 | A parse of a C string never writes a NUL inside an argument |
| Lexer.JoinSnoc | source/parse.c:110-116 | Closing one more argument appends it and its NUL to the buffer image, and it starts where the image ended |
| Lexer.JoinAppend | source/parse.c:110-116 | The buffer image of two runs of arguments is the image of the first followed by the image of the second |
| Lexer.StartsAt | source/parse.c:18-23 | The start of argument `k` is the length of the image of the arguments before it |
| Lexer.ReadBack | source/parse.c:18-23 | In a buffer holding the arguments' image, the offset recorded for argument `k` reads back as argument `k`, whatever follows the image |
| Lexer.RewrittenOnSuccess | source/parse.c:110-116 | On success the rewritten buffer is exactly the arguments, each followed by a NUL |
| LexerProperties.LexBlank | source/parse.c:131-136 | Empty or whitespace-only input succeeds with no arguments and writes nothing |
| LexerProperties.BlankStaysInSpace | source/parse.c:135-136 | Whitespace keeps the machine in state Space without changing anything |
| LexerProperties.WordRun | source/parse.c:110-127 | A run of plain characters read from state Space becomes one argument, copied unchanged |
| LexerProperties.WordsFrom | source/parse.c:110-151 | From state Space, input without quotes or backslashes yields exactly its whitespace-separated words |
| LexerProperties.LexWords | source/parse.c:110-151 | Input without quotes or backslashes succeeds. Its arguments are exactly the whitespace-separated words, and the buffer becomes those words, each ending in a NUL |
| LexerProperties.QuotedEscape | source/parse.c:54-77 | Inside either quote, a backslash and the character after it copy just that character and stay inside the quote |
| LexerProperties.QuotedChar | source/parse.c:65-77 | Inside either quote, a character other than the closing quote and a backslash is copied and the quote continues |
| LexerProperties.QuotedRun | source/parse.c:65-105 | Inside quotes every character is copied except the escaping backslashes, and a backslash escapes the next character in single and in double quotes alike |
| LexerProperties.QuotesJoinArgument | source/parse.c:65-105 | A quoted piece inside an argument adds its unescaped body to that same argument and returns to state Argument, so adjacent quoted and bare pieces form one argument |
| LexerProperties.QuoteOpensArgument | source/parse.c:140-149 | A quote after whitespace begins an argument that holds the quoted body without its delimiters. The new argument starts where the image of the arguments before it ends |
| LexerProperties.LexQuoted | source/parse.c:65-105 | `'body'` and `"body"` each parse as one argument holding the unescaped body |
| LexerProperties.LexTwoQuoted | source/parse.c:65-151 | Two quoted arguments separated by a space parse, with success, as exactly their two unescaped bodies, in either kind of quote |
| LexerProperties.BareEscape | source/parse.c:41-49 | Inside an argument, a backslash outside quotes is dropped and the next character is copied, whatever it is, and the argument continues |
| LexerProperties.BareEscapeOpens | source/parse.c:137-139 | Between arguments, a bare backslash opens an argument that begins with the escaped character |
| LexerProperties.LexEscapedQuotes | source/parse.c:41-49 | The input `\'\"` parses, with success, as the one argument `'"` |
| LexerProperties.LexTrailingBackslash | source/parse.c:41-45 | A backslash right before the end of input gives `eof_after_slash`, whether it is bare, inside `'…'` or inside `"…"` (also source/parse.c:54-58, 82-86) |
| LexerProperties.LexUnterminatedQuote | source/parse.c:65-69 | Input that ends inside `'…'` gives `unterminated_single_quote`, and input that ends inside `"…"` gives `unterminated_double_quote` (also source/parse.c:93-97) |
| LexerProperties.FailureHasArgument | source/parse.c:131-151 | Every failure happens inside an argument, so a failed parse has begun at least one |
| Parse.Parser.constructor | source/parse.c:154-160 | The `Parser` initializer: both heads at the start of the input and no arguments recorded |
| Parse.Parser.MarkArgument | source/parse.c:18-23 | While `argument_count < max_arguments`, stores the write head in the next slot and counts it. Otherwise nothing changes |
| Parse.Parser.Read | source/parse.c:25-31 | Returns the character under the read head, and advances the head unless that character is the NUL |
| Parse.Parser.Write | source/parse.c:33-36 | Stores one character at the write head and advances it. Only allowed while the write head is not ahead of the read head |
| Parse.Parser.ParseSlash | source/parse.c:41-49 | On NUL returns `eof_after_slash`; otherwise copies the character and goes to state Argument, exactly as `Feed`/`Finish` |
| Parse.Parser.ParseSingleQuoteSlash | source/parse.c:54-62 | On NUL returns `eof_after_slash`; otherwise copies the character and goes back into single quotes |
| Parse.Parser.ParseSingleQuote | source/parse.c:65-77 | On NUL returns `unterminated_single_quote`. `'` ends the quote without being copied, `\` escapes, and anything else is copied |
| Parse.Parser.ParseDoubleQuoteSlash | source/parse.c:82-90 | On NUL returns `eof_after_slash`; otherwise copies the character and goes back into double quotes |
| Parse.Parser.ParseDoubleQuote | source/parse.c:93-105 | On NUL returns `unterminated_double_quote`. `"` ends the quote without being copied, `\` escapes, and anything else is copied |
| Parse.Parser.ParseArgument | source/parse.c:110-128 | On NUL writes the closing NUL and succeeds, and on whitespace writes a NUL and goes to state Space. Quotes and `\` change state without being copied, and anything else is copied |
| Parse.Parser.ParseSpace | source/parse.c:131-151 | On NUL succeeds and on whitespace stays. Any other character marks an argument at the write head before entering its state (a plain character is also copied) |
| Parse.Parser.Step | source/parse.c:120-127 | The tail call `return parse_*(parser)`: one step of the state named, with that step's contract |
| Parse.Parser.Run | source/parse.c:131-151 | Starting in `parse_space`, the chain of state functions ends. It returns `Lex(input).status` and leaves the buffer and the argument array as the whole parse prescribes. The read head ends on the NUL and the write head at the end of what was written |
| Parse.FinalWritePassesReadHead | source/parse.c:111-113 | Parsing the bare input `a` ends with the read head at 1 and the write head at 2: the closing NUL moves the write head past the read head |
| Parse.FinalWriteBehindReadHead | source/parse.c:110-114 | Parsing the quoted input `"a"` ends with the read head at 3 and the write head at 2: the dropped quotes leave the closing NUL behind the read head |
| Parse.LibcliParse | source/parse.c:153-168 | Status = `Lex` status. `argument_count = min(arguments begun, max_arguments) <= max_arguments`. The buffer starts with `Rewritten(input)` and the rest is untouched. The first `argument_count` slots hold the argument starts and the rest are untouched. On success each recorded offset reads back as its argument |
| Parse.RecordedDenote | source/parse.c:153-168 | On success each recorded offset, read as a C string in the rewritten buffer, is its argument |
| CliInternal.Collapse | source/cli_internal.c:5-8 | The result is `parse_result_ok` exactly on success: the three lexical failures all become `parse_result_unexpected_eof` |
| CliInternal.ParseSlash | source/cli_internal.c:47-55 | As source/parse.c's `parse_slash`, but the end of input returns `unexpected_eof` |
| CliInternal.ParseSingleQuoteSlash | source/cli_internal.c:60-68 | As source/parse.c's `parse_single_quote_slash`, but the end of input returns `unexpected_eof` |
| CliInternal.ParseSingleQuote | source/cli_internal.c:71-83 | As source/parse.c's `parse_single_quote`, but the end of input returns `unexpected_eof` |
| CliInternal.ParseDoubleQuoteSlash | source/cli_internal.c:88-96 | As source/parse.c's `parse_double_quote_slash`, but the end of input returns `unexpected_eof` |
| CliInternal.ParseDoubleQuote | source/cli_internal.c:99-111 | As source/parse.c's `parse_double_quote`, but the end of input returns `unexpected_eof` |
| CliInternal.ParseArgument | source/cli_internal.c:116-134 | The same transitions and writes as source/parse.c's `parse_argument`; the end of input returns `ok` |
| CliInternal.ParseSpace | source/cli_internal.c:137-157 | The same transitions, marks and writes as source/parse.c's `parse_space`; the end of input returns `ok` |
| CliInternal.Step | source/cli_internal.c:127-133 | The tail call: one step of the state named |
| CliInternal.Run | source/cli_internal.c:137-157 | The chain of state functions ends and returns `ok` exactly when `Lex` succeeds. It leaves the same buffer and argument array as source/parse.c |
| CliInternal.LibcliParse | source/cli_internal.c:159-173 | Returns `min(arguments begun, max_arguments)` on success and 0 on any failure, so it is never more than `max_arguments`. The buffer rewrite and the recorded starts equal source/parse.c's. On success each recorded offset reads back as its argument |
| CommandTable.PrecedesAsymmetric | source/cli.c:40-46 | At most one of two names comes before the other |
| CommandTable.PrecedesTotal | source/cli.c:40-46 | Of two distinct names one comes before the other |
| CommandTable.PrecedesTransitive | source/cli.c:34-49 | The table order, ascending or descending, is transitive |
| CommandTable.NamesUnique | source/cli.c:55-58 | In a sorted table no name occurs twice, so a name picks out one command |
| CommandTable.RankIsInsertionPoint | source/cli.c:51 | For an absent name in a sorted table, the number of entries before it is the place where everything before is smaller and everything after is larger |
| CommandTable.InsertionPointIsRank | source/cli.c:34-51 | A split point for a name means the name is absent, and there is only one such point |
| CommandTable.AddedSorted | source/cli.c:60-71 | Inserting an absent name at its rank keeps the table strictly ordered. The table then holds exactly the old entries plus the new one |
| CommandTable.SortedDetermined | source/cli.c:54-74 | Two strictly ordered tables with the same entries are equal |
| CommandTable.AddedCommutes | source/cli.c:89-95 | Adding two distinct new names in either order gives the same table |
| CommandTable.Inserted | source/cli.c:60-71 | The array after the shift and the store holds the new record at the insertion point of its name. Its first `count + 1` entries are the old table with the record added, still strictly ordered, and they hold exactly the old entries and the record |
| CommandTable.ShiftRight | source/cli.c:66-67 | The `memmove`: the `capacity - index - 1` entries from `index` move up one place within the array. The last slot's old entry is dropped and the entry at `index` stays |
| CommandTable.InsertAt | source/cli.c:66-70 | The `memmove` followed by the store: the record is inserted at `index` and the last slot's old entry falls off the end |
| Registry.ListingLayout | source/cli.c:19-23 | For each command in table order: `"\n    "`, then its name |
| Registry.HelpWritesLayout | source/cli.c:16-26 | The help output, write by write: `"list of commands:"`, then `"\n    "` + name for every command in table order, then `"\n"` |
| Registry.Cli.constructor | source/cli.c:76-87 | The table is empty and then `help` is added. With capacity at least 1 it holds exactly `help`, otherwise nothing |
| Registry.HelpStaysReserved | source/cli.c:11 | Only `help` runs the help listing: adding a command keeps this unless the new command is tagged `Help` under another name, which `Add` does not allow |
| Registry.InsertedReserved | source/cli.c:60-71 | `CommandTable.Inserted` for this registry: inserting a record that is not `Help` under another name also keeps `Help` reserved for `help` |
| Registry.Cli.Search | source/cli.c:29-52 | Finds the index of the command named `name` if there is one. Otherwise it reports the name absent and returns its ascending-order insertion point |
| Registry.Cli.Insert | source/cli.c:60-71 | The insertion half of `add_command`: the count grows by one, the new record sits at its insertion point with the rest of the array shifted up one, and the table stays strictly ascending with `Help` kept for `help` |
| Registry.Cli.AddCommand | source/cli.c:54-74 | A duplicate changes nothing. Otherwise the count grows by one and entries before the insertion point stay. The rest (unused slots too) move up one, the new record sits at the insertion point, and the table stays strictly ascending |
| Registry.Cli.Add | source/cli.c:89-95 | Returns true exactly when there was room and the name was new. A full table or a duplicate changes nothing; otherwise the effect is that of `AddCommand` |
| Registry.Cli.RunHelp | source/cli.c:16-26 | Writes exactly the help listing of the current table |
| Registry.Cli.Run | source/cli.c:97-113 | Returns `unknown` and calls nothing exactly when no command has that name. Otherwise it returns `ok` and either writes the help listing or calls that command's function once with `userdata` |
| LegacyRegistry.Cli.constructor | src/cli.c:37-43 | An empty table of the given capacity, with no help command |
| LegacyRegistry.Cli.Search | src/cli.c:12-35 | With the arguments of `strcmp` swapped, it finds the command named `name`. Otherwise it reports the name absent and returns its descending-order insertion point |
| LegacyRegistry.Cli.Insert | src/cli.c:56-68 | The insertion half of `libcli_add`: the count grows by one, the new record sits at its insertion point with the rest of the array shifted up one, and the table stays strictly descending |
| LegacyRegistry.Cli.Add | src/cli.c:45-69 | Returns true exactly when there was room (checked first) and the name was new. Otherwise nothing changes. A success shifts the tail up one, places the record at its insertion point and keeps the table strictly descending |
| LegacyRegistry.Cli.Run | src/cli.c:71-78 | Calls the function of the command with that name exactly once, with `userdata`, and calls nothing when there is none |

## Left out

- The typed-argument dispatcher (arity checks, integer and float coercion, help with summaries and aligned columns) is exercised by tests/tests.c but has no implementation in the files modelled here. It is not part of this model.
- The macro-generated command dispatch (include/macrocli/macrocli.h and its implementation files) and the example programs: the generator is not available, and the examples are terminal I/O.
- `isspace` is the C-locale set (space, `\t`, `\n`, `\v`, `\f`, `\r`); other locales are not modelled.
- `char` is Dafny's `char`. `strcmp`'s unsigned-char comparison is the code-point order, and only the sign of its result is modelled, which is all the registries use.
- CStrings.Strcmp: compares whole Dafny strings. It agrees with `strcmp` on command names only when the names contain no NUL, which C strings cannot.
- Pointers are offsets. The model does not capture a caller later changing a name string that the table stores by pointer: the table stores the name's characters.
- The writeback sink, the command functions and `userdata` are not called. `Registry.Cli.Run`, `Registry.Cli.RunHelp` and `LegacyRegistry.Cli.Run` return the sequence of calls instead. A function pointer is a number, and `dummy_help_command` is the `Help` tag.
- The state functions call each other in tail position. The model runs them as a loop over the state, so C recursion depth (which an optimising compiler removes) is not modelled.
- `size_t` is `nat`. No index computed by these functions can wrap: `mid = left + size / 2` stays below `count`, and `capacity - index - 1` is taken only when `index < capacity`.
- The headers disagree with the `.c` files. include/cli.h's `CliHeader` lacks the `writeback` field, and its `libcli_new` takes `(size_t commands_size, CliCommand* commands)` (include/cli.h:34), while source/cli.c's `libcli_new` takes a `const CliNewInfo*` (source/cli.c:76). inc/cli.h declares `libcli_add` returning `void` and `libcli_run` without `userdata`. The model follows the `.c` files: `Registry.Cli.constructor` takes the capacity and the command array that `CliNewInfo` carries, the sink is abstract, and src/cli.c's `libcli_add` returns a flag.
- The header's rule that the write head never passes the read head (include/cli/internal/parse.h:13-14) is proved only at each write, which is all in-place parsing needs. The closing NUL written on reaching the end inside an argument (source/parse.c:111-113) can break it, by at most one: `Parse.Parser.Run` ends with the write head at `|Output|` and the read head at the input's length, and `Lexer.Rewritten` bounds the output by that length plus one. The write head ends one past the read head only when every character read was copied, as for `a` (`Parse.FinalWritePassesReadHead`: read 1, write 2). When a quote, an escaping backslash or a second whitespace character was dropped, the NUL lands behind the read head, over a character already read, as for `"a"` with its quotes (`Parse.FinalWriteBehindReadHead`: read 3, write 2). A parse that ends in state Space writes nothing at the end. The final write is harmless in every case, because nothing is read after it.
- `Help` is a tag, not a pointer to the private `dummy_help_command`. `Registry.Cli.Add` and `Registry.Cli.AddCommand` require that only `help` is tagged `Help`, which stands in for the function being `static` (source/cli.c:11).
- tests.py and the test programs are not modelled. Each tokenizer test in tests/parse_tests.c is an instance of a `LexerProperties` lemma: `LexBlank` (empty and whitespace-only input), `LexWords` (one and several words), `LexQuoted` (single and double quotes), `LexTwoQuoted` (mixed quotes), `LexEscapedQuotes` (backslashes), `LexTrailingBackslash` (end after a slash) and `LexUnterminatedQuote` (both unterminated quotes).
