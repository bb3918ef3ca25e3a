# ARKsh core, verified

A Dafny model of the parts of ARKsh that are plain algorithms: lexing and word expansion, the value
tree with its JSON and path operations, control flow by signals, descriptor redirection, the scratch
arena, and path normalisation. Each part has up to three modules:

- `X` holds the model as datatypes and functions, branch for branch as the source has it;
- `XLaws` (or `X` itself) proves what the part is for, for all inputs, runs or reachable states; a module
  named for a grammar, a meaning, a standard or a printing holds the model against a specification that
  shares no definition with it: characters, operators and numbers spelled out, texts by their grammar;
- `XRuntime` holds the code in the source's own form, classes and arrays that loops update, and proves
  that it computes the functions of `X`.

`dafny verify dfyconfig.toml` checks everything. C strings are `string`s without their terminator;
`size_t` and `int` values that count or index things are unbounded, while arithmetic expansion, path
indices, buffer sizes and table sizes carry the source's limits.

| part | modules | source |
|---|---|---|
| lexer | `Lexer`, `LexerLaws`, `LexerScans`, `LexerGrammar`, `LexerRuntime` | `src/lexer.c` |
| quoting, word expansion, fields | `WordExpansion`, `WordMeaning`, `WordExpansionRuntime`, `Fields`, `Quoting` | `src/expand.c`, `src/lexer.c` |
| patterns and parameter expansion | `Glob`, `GlobPatterns`, `ParameterExpansion` | `src/expand.c`, `src/executor.c` |
| arithmetic expansion | `Arith`, `ArithEvaluator`, `ArithMeaning`, `ArithNumerals`, `ArithLaws`, `ArithGrammar`, `ArithRange` | `src/expand.c` |
| values, JSON, value paths | `Values`, `Json`, `JsonLaws`, `JsonStrings`, `JsonGrammar`, `JsonPrinting`, `JsonRuntime`, `ValuePath`, `ValueMeaning`, `ValuePathText`, `ValuePathGrammar` | `src/object.c` |
| control flow | `Control`, `ControlLaws`, `ControlLists`, `ControlContexts`, `ControlRuntime` | `src/executor.c`, `src/shell.c` |
| `exec` redirections | `Redirect`, `RedirectLaws`, `RedirectTransactions`, `RedirectRuntime` | `src/executor.c` |
| operator evaluator, `group_by`, Base64 | `BinaryExpr`, `BinaryExprRuntime`, `GroupBy`, `Base64`, `Base64Standard` | `src/executor.c` |
| scratch arena | `Arena`, `ArenaPlacement`, `ArenaRuns`, `ArenaRuntime` | `src/arena.c` |
| lexical paths | `PathNorm`, `PathNormMeaning`, `PathNormRuntime` | `src/platform.c` |
| shared | `Text`, `Bits`, `Numerals` | |

Where the code does not do what one expects of it, the model follows the code and a lemma says exactly
when the expectation holds:

- `exec 3>f` ends with descriptor 3 closed when 3 is the lowest free descriptor
  (`RedirectLaws.OpenIsTransactionIff`, at `LowestDescriptorStaysClosed`). A failing `exec` loses a
  descriptor that could not be backed up for want of a free one (`FailureRestoresIff`, at
  `FullTableLosesDescriptor`). After `3>&-` a rollback can move the file of one descriptor to another
  (`CloseThenFailure`).
- `break n` and `continue n` with n above the number of enclosing loops leave their signal pending
  (`ControlContexts.LoopCountIsExact`).
- A loop whose condition prints more than the buffer holds, or whose item cannot be prepared, is left with
  `loop_depth` still raised (`ControlLaws.CountersRestoredIff`, at `LeakyLoop`); one whose body prints too
  much is not counted by a `break` that leaves it, which then leaves a loop too many
  (`ControlLaws.NoSignalEscapes`, at `MissedBreak`).
- The printer cuts a scalar that does not fit and reports success, and nesting deeper than the parser
  allows prints but is not read back (`JsonLaws.JsonRoundTrip`, at `NestedReadsBackIff` for 129 lists).
- `group_by` is a partition only for keys of 1 to 127 bytes (`GroupBy.GroupByIsPartitionIff`); a longer key
  is split over groups with one and the same name (`LongKeySplitsGroup`).
- The Base64 decoder accepts padding inside a text and stray bits, and a decoded zero byte ends the string
  (`Base64.EncodeUndoesDecodeIff`, at `ZeroBytesAreLost` and `PaddingInsideIsAccepted`).
- `&&`, `||` and `?:` in arithmetic evaluate all operands, so an operand that C would skip can make the
  whole fail (`ArithLaws.EvaluatesLazilyIff`, at `SkippedDivisionFails`).
- `[` is a literal in `${v%p}` and opens a class in `case` (`Glob.MatchersAgreeIff`, at
  `MatchersDifferOnBracket`).
- Variable names above 127 bytes are read as their first 127 (`ArithLaws.NameIsReadIff`).
- `${v//p/r}` never ends for an empty pattern (`ParameterExpansion.GlobalLoopEndsIff`).
- The memory obtained for a request holds it only if header, size and alignment together do not wrap around:
  if size and alignment do, chunks are made without end; if only the header makes them wrap, the chunk passes
  the test for room and has too little memory behind it (`Arena.NewChunkHoldsIff`, at `ShortChunk`).
- A path keeps its destination only if its names have at most 127 bytes, so that two long names can get one
  normal form (`PathNorm.NormaliseKeepsDestinationIff` and `NormalFormIsCanonical`, at `LongNamesCollide`);
  a backslash, which a POSIX name may hold, is taken as a separator (`BackslashSeparates`).
- The lexer never makes the tokens for `2>`, `2>>` and `2>&1` (`LexerLaws.NoErrorRedirections`).
- A trailing separator other than white space yields one more, empty field; splitting what was joined fails
  only for one empty unquoted field and for no field at all in a quoted word (`Fields.SplitOfJoin`).

## Model

| member | source | states |
|---|---|---|
| Lexer.TokenAdvances | src/lexer.c:664-1002 | every token found takes at least one character, so the main loop ends |
| LexerLaws.LexIsLossless | src/lexer.c:649-1015 | for every line that lexes: each raw text is the slice of the line at its position, tokens are non-empty, ordered and disjoint, only white space lies before, between and after them, and the end-of-line token closes the stream |
| LexerLaws.OperatorsAreLongest | src/lexer.c:745-986 | each operator token is the longest operator at its place; with a descriptor it is digits and then the longest operator that may follow them |
| LexerLaws.NoErrorRedirections | src/lexer.c:867-895 | the kinds made for descriptor 2 alone never occur in a token stream |
| LexerLaws.NoInvalidToken | src/lexer.c:465-468 | no line fails with an invalid token: wherever no operator starts, a non-empty word does |
| LexerLaws.FoundIsSlice | src/lexer.c:675-1001 | whatever the decision at a position, the token found is the slice of the line up to where scanning goes on |
| LexerLaws.WordFaithful | src/lexer.c:263-476 | the raw buffer of a word is the part of the line scanned, and the cooked text is never longer, so only the raw buffer can overflow |
| LexerLaws.ArithFaithful | src/lexer.c:140-261 | the same through a nested arithmetic expansion |
| LexerLaws.ProcessFaithful | src/lexer.c:478-581 | the same through a process substitution |
| LexerGrammar.LexLineIff | src/lexer.c:649-1015 | a line lexes to given tokens if and only if they are the tokens of the grammar and at most 128: each starts behind white space, is the word, operator, redirection, process substitution, arrow or bracket that starts there after the tokens before it, has the text that its quotes and escapes leave, and ends where the grammar ends it |
| LexerGrammar.TokenIs | src/lexer.c:664-1002 | at every position and after any tokens, the lexer finds a token if and only if it is the one that the grammar has there |
| LexerGrammar.WordIs | src/lexer.c:263-476 | a word ends exactly at the first place outside quotes, escapes and substitutions where a blank stands or an operator, a redirection with its descriptor, `<(` or `>(` begins; in `[[ ]]` the places are others; every operator is spelled out |
| LexerScans.CommandsIs | src/lexer.c:301-373 | a command substitution ends at the parenthesis that closes it, told by recursive descent through quotes, escapes and nested substitutions |
| LexerScans.ExpressionIs | src/lexer.c:140-261 | an arithmetic expansion ends at its two closing parentheses, told the same way |
| LexerScans.ProcessesAre | src/lexer.c:478-581 | so does a process substitution |
| LexerRuntime.MatchFdRedirection | src/lexer.c:44-85 | the loop over the digits finds exactly the redirection, kind and length, that the function defines |
| LexerRuntime.Scanner.ScanArithmetic | src/lexer.c:140-261 | the loop with quote state and depth stops where the recursive scan does, with the same buffers or the same error |
| LexerRuntime.Scanner.ScanCommand | src/lexer.c:301-373 | the same for command substitution |
| LexerRuntime.Scanner.ScanQuoted | src/lexer.c:415-455 | the same for a quoted stretch |
| LexerRuntime.Scanner.ScanWordToken | src/lexer.c:263-476 | the word loop computes the word scan of the model, for both modes |
| LexerRuntime.Scanner.ScanProcessToken | src/lexer.c:478-581 | the loop computes the process substitution scan of the model |
| LexerRuntime.LexTokens | src/lexer.c:649-1015 | the token loop gives exactly the tokens or the error of `LexLine` |
| Quoting.QuotingRoundTrip | src/lexer.c:263-476 | a line of words, each any mix of single-quoted, double-quoted and escaped segments, lexes to one word token each, and every one expands to the text it stands for, in every mode and every shell |
| Quoting.ShellQuoteRoundTrip | src/expand.c:1989-2213 | single-quoting any string, with the usual form for embedded quotes, gives one word token that expands to exactly that string as one field, whatever the separators, without pathname expansion |
| Quoting.QuotedWordExpands | src/expand.c:2215-2314 | a quoted word expands to one value, its text, in every mode |
| Quoting.SegmentLexes | src/lexer.c:396-455 | a quoted segment is one round of the word scanner, cooked to its text |
| Quoting.SegmentExpands | src/expand.c:2028-2197 | the expander undoes each kind of quoting and leaves a trace even of empty text |
| WordExpansion.PatternDenotesText | src/expand.c:1989-2213 | for every token and shell: the pattern without its escapes is the expanded text, it has a bare glob character exactly when pathname expansion is called for, and its buffer never overflows |
| WordExpansion.PatternOfText | src/expand.c:58-96 | the pattern of a text unescapes to it, at most doubles it, and is bare exactly where globbing is allowed |
| WordMeaning.ExpandTokenIs | src/expand.c:1989-2213 | for every token, shell and mode: the expansion is the marked characters of its parts, one after the other (single-quoted, double-quoted and escaped text, substitutions in and outside quotes, a home directory, plain characters); only text of an unquoted substitution that is not arithmetic can be split, and only bare glob characters keep their meaning; it fails exactly when a part has no meaning or there are more than 255 characters |
| WordMeaning.ExpandWordIs | src/expand.c:2215-2314 | a word has the values of its marked characters, through pathname expansion and field splitting in command mode and as one text otherwise, and none exactly if the parts have no meaning or are too long |
| WordMeaning.ProcessWordIs | src/expand.c:2215-2260 | a process substitution is one path, and is refused in command names and object expressions |
| WordMeaning.QuotedSubstitution | src/expand.c:2165-2197 | a substitution in double quotes is one value, whatever its text and the separators |
| WordMeaning.BareSubstitution | src/expand.c:2088-2130 | a substitution outside quotes is split everywhere, but for an arithmetic one |
| WordExpansionRuntime.TokenExpander.AppendPatternText | src/expand.c:58-96 | the loop appends the pattern of the text, failing exactly when it does not fit |
| WordExpansionRuntime.TokenExpander.ExpandRawToken | src/expand.c:1989-2213 | the loop fills text, splitting marks and pattern as the step function says, with the same error |
| WordExpansionRuntime.ExpandWordValues | src/expand.c:2215-2314 | expansion, pathname expansion and field splitting in the order and with the errors of `ExpandWord` |
| Fields.ApplyIfsSplitting | src/expand.c:1891-1987 | the loop gives the pieces between separators, empty ones kept as stated; it fails exactly when there are more than the maximum |
| Fields.FieldsConserveText | src/expand.c:1920-1959 | the fields put together are the word without its splittable separators |
| Fields.FieldsAreWhole | src/expand.c:1920-1978 | each field is a whole stretch between separators: it keeps none and stops short of none |
| Fields.RejoinIsWord | src/expand.c:1928-1978 | with one separator that is no white space, joining the fields with it gives the word back, whatever is splittable |
| Fields.SplitOfJoin | src/expand.c:1891-1987 | splitting a joined text gives the fields back, except exactly for a single empty field in an unquoted word, which yields none, and for no fields in a quoted word, which yields an empty one |
| Fields.LiteralIsOneField | src/expand.c:1980-1984 | a word without splittable characters is one field, and a quoted empty word exactly one empty field |
| Fields.FieldsOfLayout | src/expand.c:1920-1978 | of every word, by its layout of texts and gaps: a run of white space separates once and gives no field at either end, and every other separator ends a field, an empty one if nothing or only white space precedes it |
| Fields.EveryWordIsLaidOut | src/expand.c:1920-1959 | every word has such a layout |
| Glob.GlobMatchFull | src/expand.c:442-474 | the matcher decides the pattern relation for every pattern and string |
| Glob.GlobMatchPrefix | src/expand.c:332-374 | the result is the largest length whose prefix the relation accepts, and -1 exactly when there is none |
| Glob.GreedyIsLongest | src/expand.c:342-354 | the largest span of the first star that works also gives the largest total |
| Glob.LaterStartReachesAsFar | src/expand.c:342-354 | if a pattern matches a stretch and also one that starts no earlier and ends no later, it matches from the later start to the farther end |
| Glob.CaseCharClassMatches | src/executor.c:7028-7074 | the class scan finds where the class ends, and fails exactly when it is unclosed or lacks the character |
| Glob.ShellPatternMatches | src/executor.c:7076-7140 | the backtracking loop of `case` decides the relation with classes |
| Glob.MatchersAgreeIff | src/executor.c:7076-7140 | the matchers of `case` and of the expander decide the same relation on all strings if and only if the pattern opens no bracket |
| Glob.MatchersDiffer | src/expand.c:442-474 | for every pattern that opens a bracket there is a string on which they differ |
| Glob.BracketIsLonger | src/executor.c:7028-7074 | a bracket expression takes one character, and at least two when it is read literally |
| GlobPatterns.ExpanderMatchesIff | src/expand.c:332-374 | whatever the pattern, the expander's relation is that of its elements: any text for `*`, any character for `?`, the character itself for all others, a backslash taken off |
| GlobPatterns.CaseMatchesIff | src/executor.c:7028-7140 | the same for `case` with bracket expressions, which take a character if and only if one of their characters and ranges holds it, or none when negated; a pattern with a bracket that is not closed matches nothing |
| GlobPatterns.BracketRead | src/executor.c:7028-7074 | what one bracket expression takes, and where the pattern goes on |
| ParameterExpansion.ApplyPatternSubst | src/expand.c:378-435 | `${v/p/r}` and `${v//p/r}` replace leftmost-longest matches, the first or all without overlap; an empty pattern in `${v/p/r}` matches at the front |
| ParameterExpansion.GlobalLoopEndsIff | src/expand.c:399-432 | the loop of `${v//p/r}` gets past the end of the value if and only if the pattern is not empty |
| ParameterExpansion.MatchConsumes | src/expand.c:399-418 | before the end a match of a non-empty pattern consumes at least one character |
| ParameterExpansion.ReplacedLeftmost | src/expand.c:378-435 | the text before the leftmost match stays, and that match is the first one replaced |
| ParameterExpansion.SubstitutionCuts | src/expand.c:399-432 | the whole result: the text between leftmost-longest matches that do not overlap, one or all of them, each cut out and the replacement put in |
| ParameterExpansion.ApplySuffixTrim | src/expand.c:524-557 | exactly the smallest or largest suffix that the relation accepts is removed, or nothing if none is accepted |
| ParameterExpansion.ApplyPrefixTrim | src/expand.c:560-603 | the same for prefixes |
| ArithLaws.EvaluatePrinted | src/expand.c:1345-1863 | for every expression tree, evaluating its text with only the parentheses it needs consumes all of it and gives its one meaning, names cut to 127 bytes: the operators of C on the values of all operands, or the first error from the left; it is the tree's own meaning when the names fit |
| ArithLaws.EvaluateWritten | src/expand.c:1345-1863 | the same for every written expression: any white space, redundant parentheses, decimal, octal and hexadecimal numerals of any size, `$` before names, nested `$((...))` |
| ArithGrammar.EvaluatesIff | src/expand.c:1345-1863 | a text evaluates to a value if and only if it is a written expression with white space behind it whose meaning is that value; everything else is an error |
| ArithGrammar.ScanCloses | src/expand.c:1297-1343 | the text of a nested expansion ends at the first pair of closing parentheses that closes no expansion inside |
| ArithLaws.MeaningMeans | src/expand.c:1345-1832 | every expression has exactly one meaning |
| ArithMeaning.OperatorsMean | src/expand.c:1444-1796 | each binary operator gives exactly what C says, and fails exactly when it says nothing: v + b == a for `-`, the quotient rounded toward zero and its remainder, relations and logic as 1 or 0, bits one by one, shifts by powers of two, powers by their recurrence |
| ArithMeaning.UnaryMeans | src/expand.c:1460-1470 | so does each unary operator |
| ArithNumerals.NumeralRead | src/expand.c:1425-1440 | a numeral of C, decimal, octal behind `0` and hexadecimal behind `0x`, is read as the number it denotes |
| ArithNumerals.TextIsWorth | src/expand.c:1390-1423 | a variable is worth the numeral in its text, with a sign and white space around it and saturated at 64 bits, and 0 exactly when there is none |
| Numerals.SpacesAndDigits | src/expand.c:1287-1292 | white space and digits are those of the C locale, one by one |
| Numerals.Letters | src/expand.c:1390-1417 | so are the letters and the characters of names |
| ArithLaws.NameIsReadIff | src/expand.c:1390-1417 | a variable is read under its own name, whatever variables there are, if and only if the name has at most 127 bytes |
| ArithLaws.Reads | src/expand.c:1345-1832 | each grammar level reads exactly an expression that fits it, whatever stops it behind |
| ArithLaws.EvaluatesLazilyIff | src/expand.c:1748-1828 | where the short-circuit value (of the tree with names cut) exists, evaluating the text gives it if and only if every operand that it skips has a value |
| ArithLaws.StrictIsLazyIff | src/expand.c:1748-1828 | a strict value is the short-circuit value, and there is one exactly when nothing skipped fails |
| ArithRange.EvaluateInRange | src/expand.c:1834-1863 | a value that evaluation returns fits 64 bits |
| ArithRange.BitwiseNeverFails | src/expand.c:1565-1746 | of 64-bit operands the bitwise operators and a right shift below 64 always have a value, so no error is raised for them |
| Bits.BitwiseAnd | src/expand.c:1670-1695 | the model's `&` works bit by bit |
| Bits.BitwiseOr | src/expand.c:1721-1746 | so does the bitwise or |
| Bits.BitwiseXor | src/expand.c:1697-1719 | so does the exclusive or |
| Bits.NotBit | src/expand.c:1460-1470 | so does the complement |
| Bits.BitwiseFits | src/expand.c:1670-1746 | the bitwise operators stay within the width of their operands |
| ArithEvaluator.ArithCtx.ParseNested | src/expand.c:1297-1343 | the scan finds where a nested expansion closes, or raises the error of an unterminated one |
| ArithEvaluator.ArithCtx.ArithPrimary | src/expand.c:1345-1442 | the context reaches the value and the position that the grammar says |
| ArithEvaluator.ArithCtx.ArithUnary | src/expand.c:1460-1470 | the same for unary operators |
| ArithEvaluator.ArithCtx.ArithPower | src/expand.c:1472-1492 | the same for the right-associative power operator |
| ArithEvaluator.ArithCtx.ArithLevel | src/expand.c:1494-1796 | the same for the ten left-associative levels, each a loop |
| ArithEvaluator.ArithCtx.ArithExpr | src/expand.c:1798-1832 | the same for the conditional, all of whose operands are evaluated |
| ArithEvaluator.EvaluateArith | src/expand.c:1834-1863 | the whole text gives the value of the model or its error, and the mutual recursion ends |
| JsonLaws.JsonRoundTrip | src/object.c:1103-1254 | for every value whose printing reports success, parsing the text gives the value back with its key order if and only if no scalar was cut off and the value is readable (nesting at most the parser's limit, strings that fit) |
| JsonLaws.CutScalar | src/object.c:1103-1254 | a scalar whose text was cut off is not read back |
| JsonLaws.AsParsedIsSame | src/object.c:1645-1713 | what comes back is the value itself when it holds no dictionary |
| JsonLaws.NestedReadsBackIff | src/object.c:1645-1713 | n lists around null print, and are read back if and only if n is at most 128 |
| JsonGrammar.ParsesIff | src/object.c:1256-1713 | a text parses to a value if and only if it is a JSON text of that value by the grammar of RFC 8259: blanks, tabs, line feeds and carriage returns anywhere between tokens, every escape, numerals without superfluous zeros, keys whose last value counts in the place of the first, nesting and lengths within the limits |
| JsonStrings.StringReads | src/object.c:1284-1395 | a string of plain characters, short escapes, `\u` escapes and surrogate pairs stands for their bytes |
| JsonStrings.Utf8Encodes | src/object.c:1444-1510 | code points are encoded as RFC 3629 says, and in no other way |
| JsonPrinting.TextIsPrinted | src/object.c:1103-1254 | the text printed for a value is the one without white space and with the shortest escapes, and no other |
| JsonPrinting.PrintsIff | src/object.c:1103-1254 | printing succeeds exactly when the text fits, or for a number, a truth value or null in any case |
| JsonRuntime.AppendJsonEscapedString | src/object.c:496-565 | the buffer holds the quoted and escaped string, or the call fails exactly when it does not fit |
| JsonRuntime.ValueToJson | src/object.c:1103-1254 | the text or the failure that the printing function says, through nested lists and maps |
| JsonRuntime.JsonCursor.ParseString | src/object.c:1284-1395 | the cursor and the text read are those of the string grammar, escapes and surrogate pairs included |
| JsonRuntime.JsonCursor.ParseValueInternal | src/object.c:1645-1713 | the cursor and the value are those of the value grammar, with the depth limit |
| JsonRuntime.JsonCursor.ArrayHere | src/object.c:1512-1567 | the array loop reads exactly the items of the grammar |
| JsonRuntime.JsonCursor.ObjectHere | src/object.c:1569-1643 | the object loop reads exactly the entries, later duplicates replacing earlier ones in place |
| JsonRuntime.ParseJsonText | src/object.c:2524-2554 | the whole text is one value and white space, or the parse fails |
| Values.PutLookup | src/object.c:2206-2267 | after a set, a key that fits reads as the new value and every other key as before |
| ValueMeaning.PutIsFiled | src/object.c:2206-2251 | setting a key replaces the value of its first entry in place, or adds an entry at the end with the key's first 127 bytes, and does nothing else |
| Values.MapObject.GetItem | src/object.c:2253-2267 | the loop finds the first entry with the key |
| Values.MapObject.Set | src/object.c:2206-2251 | the entry is replaced in place or added at the end under the key cut to its field; an empty key is refused |
| ValuePath.GetAfterSet | src/object.c:704-845 | after a successful set, get at the same path finds the new value |
| ValuePath.SetOfGet | src/object.c:704-845 | setting what get found changes nothing |
| ValuePath.SetTwice | src/object.c:704-845 | a second set at the same path erases the first |
| ValuePath.GetElsewhere | src/object.c:704-845 | a path that diverges at another key or index reads as before, also through maps created on the way |
| ValueMeaning.GetIsLeads | src/object.c:2556-2654 | get finds a value if and only if the path leads to it: a segment selects the first entry with that key, or of a list the item whose number it is in decimal, counted modulo 2^64 |
| ValueMeaning.SetIsBecomes | src/object.c:704-845 | set gives a value if and only if the path turns the old one into it: the entry or item on the way is replaced and nothing else, missing containers are made, dictionaries below dictionaries and maps elsewhere |
| ValueMeaning.IndexSelects | src/object.c:593-611 | an index is a decimal numeral modulo 2^64 |
| ValuePath.ParsePathIndex | src/object.c:593-611 | the index is the numeral's value modulo 2^64, and only digits are accepted |
| ValuePathText.PathRoundTrip | src/object.c:613-693 | every writable path of up to 128 segments is read back from its text |
| ValuePathGrammar.ParsesPathIff | src/object.c:613-693 | a text parses to given segments if and only if it lists them: white space, then one to 128 segments of 1 to 127 bytes, in brackets or plain, with any dots around them |
| ValuePathText.ParseValuePathSegments | src/object.c:613-693 | the cursor loop gives the segments of the grammar or fails with it |
| ValuePathText.ValueGetPath | src/object.c:2556-2654 | the loop finds what the recursive get finds |
| ValuePathText.SetPathThenGet | src/object.c:2656-2678 | get after set, for path texts |
| ValuePathText.SetPathWhatWasFound | src/object.c:2656-2678 | set of get, for path texts |
| ValuePathText.SetPathTwice | src/object.c:2656-2678 | set after set, for path texts |
| ValuePathText.SetPathElsewhere | src/object.c:2656-2678 | other paths are untouched, for path texts |
| ControlLaws.ExecRefines | src/executor.c:6862-7645 | from a shell without a pending signal every command does exactly what the structured semantics with labelled loops says: world, status, output, where it leaves for, and `loop_depth` raised by the loops left while still counted; the other counters come back |
| ControlLaws.ListRefines | src/executor.c:6885-6935 | and-or lists run as one left-associated chain whose status decides about the next entry, until the output is too large |
| ControlLists.AndOrRuns | src/executor.c:6843-6935 | of two commands with `&&` or its counterpart between them: the second runs exactly if the first ended with status 0, or with another one, and no signal stopped the list; otherwise shell, status and output are those of the first |
| ControlLists.StretchIsSkipped | src/executor.c:6899-6902 | in any list, a stretch of entries that run only on failure is skipped after status 0, and one of entries behind `&&` after any other, and status, output and shell stay as they were |
| ControlLists.OthersRun | src/executor.c:6843-6935 | every other entry runs, guarded against `errexit` exactly when the next entry depends on its status, and its status decides about the next |
| ControlLists.ListPrintsLines | src/executor.c:183-207 | a list of commands prints their non-empty outputs in order, one per line, exactly if that is less than 8192 bytes |
| ControlLaws.TestRefines | src/executor.c:6965-6990 | a condition is its truth as a value, or else the status of the line, run after the value was tried |
| ControlLaws.ResolveReacts | src/executor.c:6862-6883 | counting levels down loop by loop and comparing labels come to the same |
| ControlLaws.MissLift | src/executor.c:7309-7314 | where the output of a body is too much, the levels left uncounted are a label one loop further out |
| ControlLaws.CountersRestoredIff | src/executor.c:7269-7645 | `in_condition` and `errexit_suppressed` return to their entry values, `loop_depth` to its own plus the loops left on too much output of a condition or an unprepared item: all three return if and only if there was none |
| ControlLaws.TidyRestores | src/executor.c:7269-7645 | commands whose loops have conditions that never print and items that can always be prepared restore all counters |
| ControlLaws.NoSignalEscapes | src/executor.c:7269-7645 | a command whose break and continue counts stay within the loops around them leaves no such signal pending, except for at most as many levels as jumps out of bodies with too much output |
| ControlLaws.LeakyLoop | src/executor.c:7291-7294 | `while print; do :; done` with any text of which two do not fit the buffer ends with `loop_depth` one higher than before |
| ControlLaws.MissedBreak | src/executor.c:7309-7314 | `while print; do print; break; done` with any such text leaves the loop with one level of the `break` still pending |
| ControlContexts.LoopCountIsExact | src/executor.c:6862-6883 | in any nest of `while`, `until` and `for` loops, lists and branches, in whatever round: `break n` ends the n-th loop around it with status 0, `continue n` goes on with its next round, and with fewer than n loops the signal leaves the whole command with the levels left; nothing in between is run and errexit does not matter |
| ControlContexts.Escapes | src/executor.c:6862-6935 | a jump that counts more loops than are around it leaves the whole command for the label it names, with the scene and output of the moment it was reached |
| ControlContexts.LoopEnds | src/executor.c:7316-7330 | what a loop of either kind makes of a jump that leaves every loop inside it |
| ControlContexts.NthLoop | src/executor.c:6872-6882 | for every count up to the number of loops around there is the loop it names |
| ControlLaws.OutcomeIsOne | src/executor.c:7269-7645 | the outcome of a run does not depend on the bound on loop rounds, on either side |
| ControlLaws.EndsAlike | src/executor.c:7269-7645 | the executor ends exactly when the structured semantics does |
| ControlRuntime.AppendSegment | src/executor.c:183-207 | the segment goes behind the output on a line of its own, or the call fails exactly when the buffer cannot hold it |
| ControlRuntime.ShellObject.EvaluateConditionStatus | src/executor.c:6965-6990 | the value of the condition if it has one, else the status of the line |
| ControlRuntime.ShellObject.ExecuteIf | src/executor.c:7217-7267 | the condition and the branch, each with its output, as the model says |
| ControlRuntime.ShellObject.ExecuteCommandList | src/executor.c:6885-6935 | the loop over the entries computes the list semantics |
| ControlRuntime.ShellObject.ExecuteLoop | src/executor.c:7269-7407 | the `while` and `until` loops compute the loop semantics, with every exit and what it does to `loop_depth` |
| ControlRuntime.ShellObject.ExecuteFor | src/executor.c:7524-7645 | the `for` loop computes its semantics, with the exits for items that cannot be prepared or assigned |
| RedirectLaws.SuccessIsSequential | src/executor.c:5547-5699 | success leaves exactly that effect even when no copy could be made |
| RedirectTransactions.RedirectionsAreTransaction | src/executor.c:5547-5699 | for any list, closes included, with room for one copy of each named descriptor, and with more free descriptors below each one that is closed on entry or by the list than there are named ones: success leaves the sequential effect of the redirections and no other descriptor, and failure at any step leaves the entry table |
| RedirectTransactions.OpenOnesAreTransaction | src/executor.c:5547-5699 | in particular for lists without a close whose descriptors are all open on entry |
| RedirectTransactions.RedirectionsSucceedIff | src/executor.c:5547-5699 | where besides there are two more descriptors, for a pipe, the call succeeds if and only if the list names at most eight descriptors and each redirection works where the ones before it have led: its file opens, its here-document is written, its source is open, its descriptor is below the limit |
| RedirectTransactions.TooManyNamesFail | src/executor.c:5485-5503 | more than eight descriptors are refused, whatever the table |
| RedirectTransactions.LowestIsUnnamed | src/executor.c:5497-5503 | at every step the lowest free descriptor is none of the named ones |
| RedirectLaws.FailureRestoresButLost | src/executor.c:5508-5527 | failure leaves the entry table without the descriptors that could not be copied |
| RedirectLaws.FailureRestoresIff | src/executor.c:5485-5527 | failure restores the table if and only if at least as many descriptors were free on entry as the redirections up to the failing one name, counting no more than there are backup slots |
| RedirectLaws.OpenIsTransactionIff | src/executor.c:5578-5587 | for one file redirection and any table: a transaction if and only if the descriptor is not open in a full table and is not the one that opening the file hands out |
| RedirectLaws.FullTableLosesDescriptor | src/executor.c:5497-5527 | opening a file at a descriptor of a full table fails and closes that descriptor |
| RedirectLaws.CloseThenFailure | src/executor.c:5639-5641 | what a close followed by a failure leaves, in any table: the entry table if and only if two descriptors below the closed one are free, else a table without the closed one or with its file moved to the other |
| RedirectRuntime.Redirector.EnsureBackup | src/executor.c:5485-5506 | a descriptor is backed up once; the call fails exactly when all slots are taken |
| RedirectRuntime.Redirector.RollBackAll | src/executor.c:5508-5527 | the loop restores slot by slot as the model says |
| RedirectRuntime.Redirector.ReleaseAll | src/executor.c:5529-5545 | the loop closes every copy |
| RedirectRuntime.Redirector.PerformOne | src/executor.c:5571-5693 | each case of the switch has the effect and the failures of the model |
| RedirectRuntime.Redirector.HereDocument | src/executor.c:5643-5688 | the pipe ends are closed on every path |
| RedirectRuntime.Redirector.ApplyPersistently | src/executor.c:5547-5699 | the whole call computes `ExecRedirections` |
| BinaryExpr.PassesRefineGrammar | src/executor.c:6751-6834 | for any partial operation and any terms and operators the two passes succeed exactly when the left-associative grammar with `*` and `/` above `+` and `-` does, with the same result |
| BinaryExpr.FirstPassIsProducts | src/executor.c:6792-6809 | the first pass leaves the products and the operators between them |
| BinaryExprRuntime.RunFirstPass | src/executor.c:6792-6809 | the loop with its array shifts computes the first pass |
| BinaryExprRuntime.RunSecondPass | src/executor.c:6811-6821 | the loop computes the second pass |
| BinaryExprRuntime.EvaluateBinary | src/executor.c:6751-6834 | the in-place evaluator gives the value of the grammar |
| GroupBy.GroupByIsPartitionIff | src/executor.c:4096-4229 | the result is the stable partition by key if and only if every key is there and has 1 to 127 bytes |
| GroupBy.GroupingFailsIff | src/executor.c:4145-4216 | grouping fails exactly when some item has no key or an empty one |
| GroupBy.KeysInOrder | src/executor.c:4145-4216 | groups come in the order of their first items |
| GroupBy.SizesAddUp | src/executor.c:4145-4216 | the sizes of the groups add up to the number of items |
| GroupBy.LongKeySplitsGroup | src/object.c:2240-2248 | two items with one key that does not fit end up in two groups under the same cut key |
| GroupBy.KeysOf | src/object.c:2231-2238 | the keys of the groups are distinct and are exactly the keys of the items |
| GroupBy.FileUnder | src/executor.c:4185-4215 | an item joins the end of its group, which keeps its place, or starts a new group at the end |
| GroupBy.GroupItems | src/executor.c:4096-4229 | the loop computes the grouping or fails with it |
| Base64.DecodeUndoesEncode | src/executor.c:4346-4503 | for every byte string that passes the size check, decoding the encoding gives it back if and only if it has no zero byte; the C strings that reach the encoder have none |
| Base64.EncodeUndoesDecodeIff | src/executor.c:4396-4503 | of the texts that decode, encoding the decoded string gives back exactly those of the encoder's shape and size whose bytes hold no zero |
| Base64.EncodedShape | src/executor.c:4379-4388 | the encoding has four characters for three bytes, padding only at the end and no bits left over |
| Base64Standard.EncodeIsStandard | src/executor.c:4346-4394 | the encoder gives a text if and only if it is the Base64 text of RFC 4648, section 4: three bytes as 24 bits, cut into four digits, most significant first, zeros and padding for missing bytes; or nothing, exactly if that text does not fit |
| Base64Standard.DecodeIsStandard | src/executor.c:4396-4503 | the decoder gives the bytes of the groups of four, up to the first zero, and what it makes of padding in the middle is stated; it fails exactly when a character is neither digit nor padding where that may stand, or there is no room |
| Base64Standard.TablesAreAlphabet | src/executor.c:4343-4428 | both tables are the alphabet of RFC 4648, character by character |
| Base64.EncodeStage | src/executor.c:4346-4394 | the loop encodes, and refuses exactly what does not fit |
| Base64.DecodeStage | src/executor.c:4396-4503 | the loop decodes, and refuses a bad length, a bad character or too long an output |
| Arena.AlignUpRounds | src/arena.c:18-26 | the mask rounds up to the smallest multiple of the alignment not below the value |
| Arena.AllocKeeps | src/arena.c:97-165 | an allocation leaves earlier blocks alone and puts the new one behind them |
| ArenaPlacement.AllocPlaces | src/arena.c:97-165 | an allocation has exactly this outcome: the block is zeroed at the first multiple of 32 not in use in the first chunk, from the current one on, with room behind it, and that chunk becomes the current one; if no chunk has room, at the bottom of a new chunk behind all; if there is no memory, there is no block and the last chunk is current; nothing else changes |
| ArenaPlacement.BytesAre | src/arena.c:28-41 | a request is for the product of its numbers if that is not zero and has 64 bits, and otherwise fails |
| ArenaRuns.ReachableBlocksAreSafe | src/arena.c:97-211 | in every state reached by allocations, writes and nested frames, live blocks are in bounds, at multiples of the alignment and share no byte, and chunks behind the current one are empty; memory is obtained only for requests that it holds |
| Arena.NewChunkHoldsIff | src/arena.c:43-162 | the memory obtained for a request passes the test for room and holds the block if and only if header, size and alignment do not wrap around; where size and alignment wrap, no chunk ever passes the test; where only the header makes them wrap, the chunk passes it with less memory than a header |
| ArenaRuns.AllocIsFreshAndZero | src/arena.c:97-165 | a new block is zero when handed out, and every live block keeps its place and contents |
| ArenaRuns.RunKeepsBlock | src/arena.c:97-211 | a live block keeps its place and contents over every run until its owner writes it |
| ArenaRuns.FrameRestores | src/arena.c:167-211 | a frame around any well-nested run gives back the active shell, the open frames and the shell's live blocks, and empties the arena down to its mark, or altogether if it began without a chunk |
| ArenaRuntime.ScratchArena.AllocZero | src/arena.c:97-165 | the walk over the chunks and the clearing compute the model's allocation; it ends |
| ArenaRuntime.ScratchArena.WalkChunks | src/arena.c:122-164 | the first chunk with room from the current one on, or a new one behind the last |
| ArenaRuntime.ScratchArena.Reset | src/arena.c:84-95 | all chunks are empty and the first is current |
| ArenaRuntime.ScratchArena.RollbackTo | src/arena.c:183-211 | the arena is rolled back to the mark |
| ArenaRuntime.ActiveScratch.FrameBegin | src/arena.c:167-181 | the target becomes the active shell, and the frame records the previous one and a mark to which rolling back changes nothing as yet |
| ArenaRuntime.ActiveScratch.FrameEnd | src/arena.c:183-211 | the mark and the previous active shell are restored; a frame that is not active is left alone |
| PathNorm.NormaliseIsIdempotent | src/platform.c:151-255 | normalising twice is normalising once |
| PathNorm.NormaliseIsNormal | src/platform.c:151-255 | no empty or dot segment is left, and `..` only as a leading run of a relative path |
| PathNormMeaning.NormaliseIs | src/platform.c:126-255 | normalising gives a text if and only if it is that of the spot to which the path leads, segment by segment between slashes and backslashes: names down, `..` one up but not above the root, with at most 64 segments on the way; it fails exactly when there are more |
| PathNormMeaning.ResolveIs | src/platform.c:282-306 | resolving against a directory in normal form does the same from the root for a path that starts with a slash, and from the directory for every other one; paths that fit are not cut |
| PathNorm.ResolveComposes | src/platform.c:282-306 | resolving b against the resolution of a is resolving a/b, and the one fails exactly when the other does |
| PathNorm.NormaliseKeepsDestinationIff | src/platform.c:141-225 | from whatever place, normalising a path (with slashes for separators) keeps where it leads if and only if the names that it adds have at most 127 bytes |
| PathNorm.NormalisedDestination | src/platform.c:141-225 | the normal form leads where the path does, with every added name cut to 127 bytes |
| PathNorm.NormalFormIsCanonical | src/platform.c:151-255 | two absolute paths have the same normal form if and only if their destinations are equal once cut |
| PathNorm.SameFormIffSamePlace | src/platform.c:151-255 | absolute paths without backslashes whose names fit have the same normal form if and only if they lead to the same place |
| PathNorm.NormaliseShrinks | src/platform.c:228-252 | a normalised path is no longer than the path, so the output buffer suffices |
| PathNormRuntime.PathStack.ReadSegments | src/platform.c:192-226 | the character loop leaves the stack of the model or fails with it |
| PathNormRuntime.NormalizeSeparators | src/platform.c:126-139 | both separators become slashes, of as much as the buffer holds |
| PathNormRuntime.NormalizePath | src/platform.c:151-255 | the loops compute `Normalise` of as much of the path as the buffer holds, and the result fits |
| PathNormRuntime.ResolvePath | src/platform.c:282-306 | the call computes `Resolve` for paths that fit the buffers, and `ResolveCut` for all |

## Left out

- Forking, waiting, terminals, jobs, files, plugins, the line editor, prompts and start-up: operating system plumbing and user interface.
- Most of the parser: lists and loops are taken as the commands they parse to.
- Simple commands, variable lookup, substitutions, pathname expansion and the opening of files are parameters of the model.
- Background entries, functions, `case`, `ERR` traps, memory exhaustion, and `for` sources that are not lists; a condition read as a value changes data only.
- ControlLaws.ExecRefines: runs are bounded by a number of loop rounds, the same on both sides; `OutcomeIsOne` and `EndsAlike` take the bound away. The buffer of the outermost call has the size of the inner ones.
- ControlContexts.LoopCountIsExact: for signals in lists, branches and bodies, and when the buffers hold the output on the way out; signals in conditions and too much output are covered by `ExecRefines` only.
- ControlLaws.TidyRestores: one direction; the exact condition is on the run (`CountersRestoredIff`).
- JSON numerals other than integers below 10^15 in size, which end in an outcome of their own, and matrices, objects and other kinds of values.
- JsonLaws.JsonRoundTrip: only for integers below 10^15 in size; dictionaries come back as maps, as in the source, so the value meant is the one with maps in their place.
- JsonRuntime.ValueToJson: the same numbers.
- ParameterExpansion.ApplyPatternSubst: an empty pattern with `${v//p/r}` is shut out, because the source then never ends (`GlobalLoopEndsIff`); the output is taken to be large enough.
- ArithLaws.EvaluateWritten: results outside 64 bits, which C leaves open, are an error of the model.
- ArithGrammar.EvaluatesIff: which error a text that is no expression ends with is in the model only.
- ArenaRuntime.ScratchArena.AllocZero: not for memory obtained although header, size and alignment wrap around, which does not hold the block (`Arena.NewChunkHoldsIff`).
- ArenaRuns.ReachableBlocksAreSafe: the same condition on requests for which memory is obtained.
- Arena blocks are known by chunk and offset; `arksh_scratch_active_contains`, which compares addresses, and destroying an arena are not modelled.
- LexerGrammar.LexLineIff: of a line that does not lex, which error it ends with is in the model only.
- WordMeaning.ExpandTokenIs: the same of words; what a substitution stands for and where it ends is a parameter.
- RedirectTransactions.RedirectionsAreTransaction: one direction; for a single file and for a close before a failure the exact conditions are given, for other lists they are not.
- RedirectTransactions.RedirectionsSucceedIff: only with that much room; without it, what fails first depends on which descriptors are free.
- RedirectLaws.SuccessIsSequential: only for descriptors open on entry and without closes.
- RedirectLaws.FailureRestoresButLost: the same scope.
- BinaryExpr.PassesRefineGrammar: the operation is a function, so the order in which extension methods with side effects are called is not compared.
- GroupBy: the key block or property is a function of the item.
- PathNorm.ResolveComposes: for paths that fit the 1024-byte buffers; the text of longer ones is cut before it is normalised. Windows paths are not modelled.
- Comparison of characters above 127, which is signed in the source.
- Sorting, floating-point results, promotion of numeric kinds, permission formatting and most message texts: easy or a matter of rounding.
