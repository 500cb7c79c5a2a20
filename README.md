# usu decoding, modelled in Dafny

usu is a small configuration language: maps written `{:key value …}`, lists
written `[a b …]`, scalars that are quoted or unquoted strings, numbers,
booleans and `null`, `#` line comments and `#( … )#` block comments, and a
`>` marker that folds the lines of a text into one. Decoding a document takes
two passes. The lexer turns the text into a flat list of tagged tokens. The
parser then reads that list front to back by recursive descent and builds a
tree of dicts, lists and scalars.

This project models both passes and their composition:

- `errors.dfy` (module `Errors`) holds the failures. These are the
  `UsuDecodeError` cases, the `ValueError` that `int()` or `float()` raises
  on a malformed number, and the `IndexError` that escapes the Python code
  when a cursor runs past the end of the text or of the token list. A
  failing step hands its error on unchanged (Dafny's `:-`), as an uncaught
  exception does.
- `lexer.dfy` (module `Lexer`) holds the tokens and every lexer routine.
  - Each routine that loops in the source is a method with a `while` loop.
  - Each such method is proved equal to a specification function.
  - Lemmas state what those functions guarantee: where a scan stops, what
    ends a value, and what a token may hold. One lemma shows that everything
    `lex` emits is a well-formed stream that never starts with a key.
- `parser.dfy` (module `Parser`) holds the parser.
  - The specification functions work on token suffixes.
  - The methods advance a cursor over an immutable token sequence.
  - Lemmas prove three things: every call consumes tokens, a map never
    overwrites a key, and the remainder starts just past the matching close
    token.
  - A round trip against a reference writer (`Emit`) shows that `parse`
    reads back every value the writer can express.
- `loads.dfy` (module `Loads`) holds `loads`: lexing, then parsing the tokens
  as a document root.
- `documents.dfy` (module `Documents`) decodes documents from the test suite
  from their text, through both passes: `{:key value}`, `[1 2 3 4 5]` and
  `{:key value :key value}`.

Python's shared, mutated token list is modelled as an immutable sequence.
Every Python function hands the remaining list back, and its caller always
continues with what it got back, so nothing observable is lost.

Python's `textwrap.dedent` is a parameter `dedent: string -> string` of
every member that uses it. Its source is not part of this model. Every
property here holds whatever function is passed.

## Model

| member | source | states |
|---|---|---|
| `Lexer.CharClassesCompose` | src/usu/_lexer.py:14-19 | the written-out character classes are the unions the source builds: USU_WS is a blank, a tab and USU_NEWLINE; the breakers are USU_SYNTAX with `:` and `#`; a number ends on USU_WS, `]` or `}`; a key on USU_WS or `}`; and inside a list an unquoted value ends on the breakers and USU_NEWLINE, plus USU_WS when inline or folded (lines 102-107) |
| `Lexer.LStrip` | src/usu/_lexer.py:118 | `lstrip` never lengthens its text |
| `Lexer.LStripSpec` | src/usu/_lexer.py:118 | `lstrip` removes exactly the leading run of the given characters: the result is a suffix of the input, it does not start with one of them, and every removed character is one |
| `Lexer.RStrip` | src/usu/_lexer.py:118 | `rstrip` never lengthens its text |
| `Lexer.RStripSpec` | src/usu/_lexer.py:118 | `rstrip` removes exactly the trailing run of the given characters: the result is a prefix, it does not end with one of them, and every removed character is one |
| `Lexer.StripSpec` | src/usu/_lexer.py:120 | `strip` leaves a text that neither starts nor ends with a stripped character and holds only characters of its input |
| `Lexer.ReplaceChar` | src/usu/_lexer.py:120 | replacing one character by another keeps the length |
| `Lexer.ReplaceCharSpec` | src/usu/_lexer.py:120 | every occurrence of the old character becomes the new one and every other character is kept in place |
| `Lexer.SkipEnd` | src/usu/_lexer.py:49-55 | `skip_chars` never moves backwards, and from a position inside the text never moves past its end |
| `Lexer.SkipEndSpec` | src/usu/_lexer.py:49-55 | every character skipped is in `chars`, and the position it stops at, if inside the text, holds a character not in `chars` |
| `Lexer.SkipChars` | src/usu/_lexer.py:49-55 | the loop of `skip_chars`, with the `IndexError` at the end of the text as the second exit, returns the position `SkipEnd` specifies |
| `Lexer.StopAt` | src/usu/_lexer.py:109-113 | a `for c in src[pos:]` scan that breaks on a set of characters stops inside the text or at its end |
| `Lexer.StopAtSpec` | src/usu/_lexer.py:109-113 | the scan passes over no stop character and, unless it reaches the end of the text, stops on one |
| `Lexer.Slice` | src/usu/_lexer.py:61 | the slice `src[i:j]` never fails: it is empty from the end of the text on, the exact piece when both ends are inside, and at most two characters long for `src[pos : pos + 2]` |
| `Lexer.BlockScanNeverEnds` | src/usu/_lexer.py:61-62 | as written, once no `)#` follows, the guard of the block-comment loop holds at every later position, past the end of the text included |
| `Lexer.UnterminatedBlockCommentHangs` | src/usu/_lexer.py:60-62 | for the document `#(` the block-comment loop as written never ends |
| `Lexer.BlockEnd` | src/usu/_lexer.py:60-62 | the corrected block-comment scan stops inside the text or at its end |
| `Lexer.BlockEndSpec` | src/usu/_lexer.py:60-62 | the corrected scan passes over no `)#` and stops on the first one, or at the end of the text when none follows |
| `Lexer.CommentEnd` | src/usu/_lexer.py:58-67 | `skip_comment` never moves backwards and never past the end of the text |
| `Lexer.CommentEndSpec` | src/usu/_lexer.py:58-67 | a `#` that is the last character leaves the cursor where it is; otherwise the comment ends on a line end or at the end of the text; a `#` comment stops on the first line end after the `#`; a `#(` comment first runs to its first `)#` (or the end of the text when there is none) and then stops on the first line end from there |
| `Lexer.SkipComment` | src/usu/_lexer.py:58-67 | the two loops of `skip_comment`, with the block loop stopping at the end of the text, return the position `CommentEnd` specifies |
| `Lexer.LexStrBoolNull` | src/usu/_lexer.py:70-78 | a string token holds exactly the given text, and only `True`, `true`, `False`, `false` and `null` become another kind |
| `Lexer.LexStrBoolNullSpec` | src/usu/_lexer.py:70-78 | `True`/`true` give BOOL true, `False`/`false` give BOOL false, `null` gives NULL, and every other text gives a STR token holding that same text, each an if-and-only-if |
| `Lexer.QuotedBody` | src/usu/_lexer.py:84-98 | a scanned literal ends on a quote character of its own kind, inside the text and not before its start (which quote that is, and the text read with a backslash before any character, is stated by `EscapedBody`; the trailing backslash by `EscapedTrailingBackslash`) |
| `Lexer.QuotedToken` | src/usu/_lexer.py:81-98 | `lex_quoted_str` returns the position of a quote of the opening kind after the opening one, and a STR token holding a string (its text is stated by `QuotedRoundTrip`, its two errors by `QuotedMissingClose` and `QuotedTrailingBackslash`) |
| `Lexer.LexQuotedStr` | src/usu/_lexer.py:81-98 | the character loop of `lex_quoted_str` returns what `QuotedToken` specifies, its two errors included |
| `Lexer.QuotedPlainText` | src/usu/_lexer.py:89-98 | between the quotes, text with no backslash and no closing quote is taken exactly as written, other quote characters included |
| `Lexer.QuotedUnterminated` | src/usu/_lexer.py:85-88 | with no quote character of the literal's kind anywhere after its start the literal fails, with either the missing-quote decode error or the index error, and with no backslash left the failure is the missing-quote decode error |
| `Lexer.Escape` | src/usu/_lexer.py:89-97 | the reference writers for quoted text (a backslash before every backslash, every quote of the literal's kind and every character of a chosen set, so that `\n` may stand for `n`) at least keep and at most double the length, and a character is written with a backslash exactly when it is the quote, a backslash or in the set |
| `Lexer.ShiftBody` | src/usu/_lexer.py:84-98 | the scan of a literal body never looks before its start: after any text in front of it, it reads the same text, or fails with the same error, and its end moves by the length of what was put in front |
| `Lexer.EscapedCons` | src/usu/_lexer.py:89-97 | a body that starts with the escaped form of a character reads that character and goes on right after it: two places on after a backslash, one place on otherwise |
| `Lexer.EscapedBody` | src/usu/_lexer.py:84-98 | for every text and every set of characters written with a backslash, the escaped text followed by the quote reads back as exactly that text and ends on that quote, whatever follows: a backslash makes any next character literal content |
| `Lexer.EscapedUnterminated` | src/usu/_lexer.py:84-98 | for every text and every set of characters written with a backslash, the escaped text with no closing quote after it is the missing-quote error, never the index error |
| `Lexer.QuotedRoundTrip` | src/usu/_lexer.py:81-98 | `lex_quoted_str` reads back every text written between two quotes of any of the three kinds, whichever further characters carry a backslash: the token holds the text (leading newlines removed, then dedented) and the position is the closing quote |
| `Lexer.QuotedMissingClose` | src/usu/_lexer.py:81-98 | a literal whose escaped text runs to the end of the input is the missing-quote error; an escaped final quote, as in `"ab\"`, does not close it |
| `Lexer.EscapedTrailingBackslash` | src/usu/_lexer.py:94-96 | for every escaped text, a lone backslash after it at the end of the input is the index error |
| `Lexer.QuotedTrailingBackslash` | src/usu/_lexer.py:81-96 | a literal whose input ends on a lone backslash after escaped text is the `IndexError` of `c = src[pos]`, not the missing-quote decode error |
| `Lexer.EscapedQuote` | src/usu/_lexer.py:94-97 | a backslash makes the next character literal content: `"a\"b"` is the text `a"b` and ends on the last quote |
| `Lexer.EscapedLetter` | src/usu/_lexer.py:94-97 | a backslash before an ordinary letter is no named escape: `"a\nb"` is the text `anb` and ends on the last quote |
| `Lexer.CleanTextSpec` | src/usu/_lexer.py:118-120 | an unquoted value never starts with whitespace, and under FOLD it holds no line end and does not end with whitespace |
| `Lexer.UnquotedStop` | src/usu/_lexer.py:103-113 | the scan of an unquoted value stops inside the text or at its end |
| `Lexer.UnquotedSpec` | src/usu/_lexer.py:101-121 | `lex_unquoted_str` returns a position no earlier than where it started and no later than the end of the text |
| `Lexer.UnquotedSpecStops` | src/usu/_lexer.py:109-116 | no end character is consumed into the text; the scan stops at the end of the text, on its first end character when that is whitespace, or on the character just before its first end character when that is one of `{ } [ ] : #`, so that the main loop reads it again |
| `Lexer.LexUnquotedStr` | src/usu/_lexer.py:101-121 | the character loop of `lex_unquoted_str` returns the position and text `UnquotedSpec` specifies |
| `Lexer.ParseInt` | src/usu/_lexer.py:137 | `int()` fails only with the malformed-number error for that text, and a text without a leading `-` reads as a non-negative integer |
| `Lexer.IntTextParses` | src/usu/_lexer.py:137 | `int()` reads back the decimal text of every integer, and that text holds no point and nothing that ends a number |
| `Lexer.NumberTokenSpec` | src/usu/_lexer.py:134-137 | a number token is FLOAT exactly when its text has a point, a FLOAT keeps its text and an INT holds what `int()` reads; a text neither accepts is the malformed-number error |
| `Lexer.NumberSpec` | src/usu/_lexer.py:124-139 | `lex_number` returns a position inside the text or at its end |
| `Lexer.NumberSpecStops` | src/usu/_lexer.py:124-139 | the number is read up to its first whitespace, `]` or `}`, or to the end of the text; `lex_number` returns the position of its last character (one before that end character, or the end of the text) with the token of the text read, and fails exactly when that text is not a number, with its error |
| `Lexer.LexNumber` | src/usu/_lexer.py:124-139 | the character loop of `lex_number` returns what `NumberSpec` specifies: the number runs up to whitespace, `]` or `}`, and the position is its last character, or the end of the text when nothing ends it |
| `Lexer.IntRoundTrip` | src/usu/_lexer.py:124-139 | every integer written in decimal and followed by a space lexes back to an INT token holding it, and the position is its last digit |
| `Lexer.ValueItem` | src/usu/_lexer.py:152-163 | one value read by `lex_value` ends no earlier than it starts and adds at most one token |
| `Lexer.ValueLoop` | src/usu/_lexer.py:144-166 | the `lex_value` loop returns the position of the last character it consumed (or the end of the text when the last value runs to it), which is never before the one it started on when a value starts there |
| `Lexer.ValueThen` | src/usu/_lexer.py:154-164 | a round that reads a value ends no earlier than the value starts |
| `Lexer.ValueLoopStep` | src/usu/_lexer.py:144-164 | a round that reads a value continues the loop one past the value's last character with its tokens appended |
| `Lexer.ValueLoopFail` | src/usu/_lexer.py:154-161 | a value that fails to lex makes the whole `lex_value` call fail |
| `Lexer.ValueLoopStop` | src/usu/_lexer.py:145-165 | at the end of the text or at a `{ } [ ] : #` the loop stops and returns the position before it, with the tokens unchanged |
| `Lexer.LexItem` | src/usu/_lexer.py:154-163 | the three branches of the loop body (quoted, number, unquoted) return what `ValueItem` specifies; an unquoted value that cleans up to nothing adds no token |
| `Lexer.ValueRound` | src/usu/_lexer.py:145-164 | one round of the `lex_value` loop either ends the loop with its result, or reads a value and leaves the rest of the loop equal to the whole |
| `Lexer.LexValue` | src/usu/_lexer.py:142-166 | `lex_value` returns what `ValueLoop` specifies, with "inside a list" decided by the last two tokens |
| `Lexer.StepFlags` | src/usu/_lexer.py:182-189 | INLINE stays set unless a line end is read; FOLD is set by `>` and cleared by a delimiter or `:` |
| `Lexer.UpdateFlags` | src/usu/_lexer.py:182-189 | the three flag updates at the top of the `lex` loop give the flags `StepFlags` specifies |
| `Lexer.KeyTokens` | src/usu/_lexer.py:204-216 | the only failure of the key branch is the index error, and the key ends strictly after its colon, inside the text |
| `Lexer.KeyTokensSpec` | src/usu/_lexer.py:204-216 | a key fails exactly when no whitespace or `}` follows the colon; otherwise it ends on the first whitespace or `}` after the colon; a key ended by whitespace is KEY(name) with the text in between as its name; a key ended by `}` is KEY(None) followed by SYNTAX `}` |
| `Lexer.LexKey` | src/usu/_lexer.py:204-216 | the name loop of the key branch returns what `KeyTokens` specifies |
| `Lexer.LexNext` | src/usu/_lexer.py:176-224 | every successful round of the `lex` loop moves the cursor forward |
| `Lexer.Finish` | src/usu/_lexer.py:226-231 | an empty stream is the index error; a stream that starts with a key comes back wrapped in SYNTAX `{` and `}` with its tokens unchanged in between; any other stream comes back as it is; the result never starts with a key |
| `Lexer.LexSpec` | src/usu/_lexer.py:169-231 | a successful `lex` returns a non-empty stream that does not start with a key |
| `Lexer.LexRound` | src/usu/_lexer.py:176-224 | the body of the `lex` loop returns the cursor, flags and tokens `LexNext` specifies |
| `Lexer.LexValueRound` | src/usu/_lexer.py:221-222 | the value branch of the `lex` loop returns what `LexNext` specifies |
| `Lexer.Lex` | src/usu/_lexer.py:169-231 | `lex` returns what `LexSpec` specifies |
| `Lexer.CommentEmitsNothing` | src/usu/_lexer.py:218-224 | a `#` comment emits no token, and the loop goes on one past where the comment ends |
| `Lexer.DelimiterTokens` | src/usu/_lexer.py:195-202 | each delimiter emits its SYNTAX token and clears FOLD; `{` and `[` set INLINE and skip the spaces and tabs after them; `}` and `]` move on by one character |
| `Lexer.ValueItemGood` | src/usu/_lexer.py:152-163 | the tokens of one value are well formed and none is a key |
| `Lexer.ValueLoopGood` | src/usu/_lexer.py:142-166 | `lex_value` keeps a well-formed stream well formed |
| `Lexer.ValueItemThenGood` | src/usu/_lexer.py:154-164 | a round of `lex_value` that reads a value keeps the stream well formed |
| `Lexer.LexNextGood` | src/usu/_lexer.py:176-224 | one round of `lex` keeps the stream well formed: delimiters hold one of the four delimiters, key names hold no whitespace or `}`, and a nameless key is followed by `}` |
| `Lexer.LexLoopGood` | src/usu/_lexer.py:176-224 | the whole `lex` loop keeps the stream well formed |
| `Lexer.LexGood` | src/usu/_lexer.py:169-231 | whatever `lex` returns is a well-formed stream that does not start with a key |
| `Parser.DistinctKeysAppend` | src/usu/_parser.py:31-36 | inserting a key the dict does not hold keeps its keys distinct |
| `Parser.Parse` | src/usu/_parser.py:63-83 | every successful `parse` consumes at least one token |
| `Parser.ParseMap` | src/usu/_parser.py:12-18 | every successful `parse_map` consumes at least one token |
| `Parser.MapEntries` | src/usu/_parser.py:20-40 | every successful run of the `parse_map` loop consumes at least one token |
| `Parser.ParseList` | src/usu/_parser.py:43-48 | every successful `parse_list` consumes at least one token |
| `Parser.ListItems` | src/usu/_parser.py:50-58 | every successful run of the `parse_list` loop consumes at least one token |
| `Parser.ParseAt` | src/usu/_parser.py:63-83 | `parse` over a cursor agrees with `Parse`: the same error, or the same value with the cursor where the remainder starts, always further on |
| `Parser.ParseMapAt` | src/usu/_parser.py:12-40 | `parse_map` over a cursor, inserting into a dict in its loop, agrees with `ParseMap` |
| `Parser.ParseListAt` | src/usu/_parser.py:43-58 | `parse_list` over a cursor, appending to a list in its loop, agrees with `ParseList` |
| `Parser.ParseRemainder` | src/usu/_parser.py:63-83 | `parse` returns a suffix of the tokens it was given |
| `Parser.ParseMapCloses` | src/usu/_parser.py:12-40 | `parse_map` builds a map with distinct keys and returns the tokens just past the `}` that closed it |
| `Parser.MapEntriesOk` | src/usu/_parser.py:20-40 | a successful round of the `parse_map` loop has read a key that was not in the dict yet and a value for it, and either closes the map or goes on with that entry added |
| `Parser.MapEntriesCloses` | src/usu/_parser.py:20-40 | the `parse_map` loop keeps every entry already in the dict, in place, adds at least one, keeps the keys distinct, and returns the tokens just past its `}` |
| `Parser.ParseListCloses` | src/usu/_parser.py:43-58 | `parse_list` builds a list and returns the tokens just past the `]` that closed it |
| `Parser.ListItemsCloses` | src/usu/_parser.py:50-58 | the `parse_list` loop keeps the items already parsed, in order, appends at least one, and returns the tokens just past its `]` |
| `Parser.RoundTrip` | src/usu/_parser.py:63-83 | `parse` reads back every value the reference writer can express and consumes exactly its tokens |
| `Parser.ListRoundTrip` | src/usu/_parser.py:43-58 | `parse` reads back every written list, in item order |
| `Parser.MapRoundTrip` | src/usu/_parser.py:12-40 | `parse` reads back every written map, in entry order |
| `Parser.ListItemsStep` | src/usu/_parser.py:50-58 | after an item, `]` closes the list, a key is the key-in-list error, and anything else goes on with the item appended |
| `Parser.ItemsRoundTrip` | src/usu/_parser.py:50-58 | the `parse_list` loop reads back written items and appends them in order |
| `Parser.MapEntriesStep` | src/usu/_parser.py:20-40 | after a new key and its value, `}` closes the map with the entry added, and anything else goes on with it |
| `Parser.MapEntriesRefusals` | src/usu/_parser.py:21-34 | a non-key where a key belongs is the expected-key error; a key right after the first key is the missing-value error; a key already in the dict is the duplicate-key error and is never overwritten |
| `Parser.EmptyMap` | src/usu/_parser.py:15-18 | `}` at the front of `parse_map` gives the empty map and drops the `}`, but only when a second token exists |
| `Parser.EmptyList` | src/usu/_parser.py:46-48 | `]` at the front of `parse_list` gives the empty list and drops the `]` |
| `Parser.EntriesRoundTrip` | src/usu/_parser.py:20-40 | the `parse_map` loop reads back written entries with distinct keys and adds them in order |
| `Parser.DocumentRoundTrip` | src/usu/_parser.py:63-83 | a written non-empty map or any written list passes the root check and is read back with no token left over |
| `Parser.RootShape` | src/usu/_parser.py:71-73 | a document root must be a token whose value is `{` or `[`, and parses to a map, a list, or that token's own string |
| `Parser.ParseFront` | src/usu/_parser.py:64-76 | a `}` in front is the unexpected-close error; a lone token is the index error; a scalar token is taken as the value with exactly one token consumed |
| `Parser.DuplicateKeyRejected` | src/usu/_parser.py:31-34 | the token stream of `{:key value :key value}` is the duplicate-key error |
| `Parser.KeyInListRejected` | src/usu/_parser.py:57-58 | the token stream of `[entry1 entry2 :a-key]` is the key-in-list error |
| `Parser.MissingValueRejected` | src/usu/_parser.py:26-27 | the token stream of `{:a :b 1}` is the missing-value error |
| `Parser.MissingValueOnlyForFirstKey` | src/usu/_parser.py:15-27 | the token stream of `{:a 1 :b :c 2}` is not reported as a missing value, because the check only looks at the token after the first key; it fails on the `}` instead |
| `Parser.EmptyMapNeedsLookahead` | src/usu/_parser.py:15-18 | the token stream of `{}` alone is the index error, while that of `{:empty-map {}}` parses to a map holding an empty map |
| `Loads.Loads` | src/usu/main.py:9-11 | `loads` lexes the text and parses the tokens as a document root, with the same errors |
| `Loads.LoadsShape` | src/usu/main.py:9-11 | a decoded document is a map or a list, except that a quoted `{` or `[` in front is taken as the whole document, a string |
| `Documents.LexBasicMap` | src/usu/_lexer.py:169-231 | the text `{:key value}` lexes to `{`, the key `key`, the string `value` and `}` |
| `Documents.LoadsBasicMap` | tests/test_loads.py:4-5 | `loads("{:key value}")` is the map from `key` to `value` |
| `Documents.LexBasicList` | src/usu/_lexer.py:169-231 | the text `[1 2 3 4 5]` lexes to `[`, the integers 1 to 5 and `]`, all five numbers read by one call of `lex_value` |
| `Documents.LoadsBasicList` | tests/test_loads.py:8-9 | `loads("[1 2 3 4 5]")` is the list of the integers 1 to 5 |
| `Documents.LexDuplicateKeys` | src/usu/_lexer.py:100-121 | the text `{:key value :key value}` lexes to both key-value pairs between `{` and `}`; the first value runs on to the second `:` and its trailing blank is trimmed |
| `Documents.LoadsDuplicateKeys` | tests/test_failure.py:5-7 | `loads("{:key value :key value}")` is the duplicate-key decode error |

## Left out

- `textwrap.dedent` is a parameter. Every property holds for any function passed for it.
- `float()` is not evaluated. A FLOAT token keeps its text. `FloatText` states which texts `float()` accepts once a point is present.
- `int()` and `float()` accept some input the model refuses: surrounding whitespace other than space, tab, `\r` and `\n` (vertical tab, form feed, Unicode spaces), and non-ASCII Unicode digits.
- The `ValueError` from `int()` and `float()` is the error `MalformedNumber`. It carries the text but not Python's message.
- Error messages are left out. Each error is a distinct constructor.
- `loads` does not look at tokens left after the document root, and neither does the model.
- Recursion depth: `parse`, `parse_map` and `parse_list` recurse once per level of nesting (`src/usu/_parser.py:29`, `:51`, `:79-81`). Past CPython's default recursion limit of 1000 frames the source raises `RecursionError`. The model parses any depth.
- `int()` digit limit: CPython 3.11, and the security releases of 3.8 to 3.10, refuse to convert a decimal string of more than 4300 digits and raise `ValueError`. `ParseInt` accepts any length.
- The documents in `documents.dfy` are decoded with the identity for `textwrap.dedent`, which is what it does to a one-line text with no leading whitespace. The multi-line test documents are checked at the token level only (`Parser.KeyInListRejected` and the other concrete parser lemmas), because their dedent is not part of this model.
- `src/usu/_lexer.py:226-227` is dead code: the result of its `skip_chars` call is never used. Only its `IndexError` on an empty token list is kept, in `Finish`.
- `src/usu/_parser.py:60` is unreachable: the loop before it only leaves by `return` or `raise`.
- `Lexer.LexStrBoolNull`: its own contract only says that a STR token holds the text and that the other kinds come from the five words. The exact mapping is stated in the lemma `LexStrBoolNullSpec`.
- `Lexer.NumberSpec`, `Lexer.UnquotedSpec`, `Lexer.ValueItem`, `Lexer.ValueLoop`, `Lexer.KeyTokens` and `Lexer.LexNext` state only bounds in their own contracts. What they compute is stated by their lemmas: `NumberSpecStops` with `NumberTokenSpec`, `UnquotedSpecStops` with `CleanTextSpec`, `ValueLoopStep`/`ValueLoopStop`/`ValueLoopFail`, `KeyTokensSpec`, `CommentEmitsNothing`/`DelimiterTokens`, and the `…Good` lemmas.
- `Parser.Parse`, `Parser.ParseMap`, `Parser.MapEntries`, `Parser.ParseList` and `Parser.ListItems` state only that tokens are consumed. Suffix, close token, distinct keys and item order are stated by the `…Closes` lemmas.
- `lex_value` and `lex` append to one shared token list in place. The model passes the list along as a value. No caller keeps another reference to it, so the aliasing is not observable.
- The `lex_value` and `lex` loop bodies are split into methods (`ValueRound`, `LexItem`, `LexRound`, `LexValueRound`, `UpdateFlags`, `LexKey`) with the same branches, in the same order.

## Findings

| source | as written | input that shows it | evidently intended | confidence | as-written member | corrected member |
|---|---|---|---|---|---|---|
| src/usu/_lexer.py:61-62 | the block-comment loop compares the slice `src[pos : pos + 2]` with `)#`; a slice never raises `IndexError`, so with no `)#` ahead the loop runs past the end of the text forever | the document `#(` (any `#(` comment without a closing `)#`) | the scan stops at the end of the text, like the line-comment loop that shares its `try`/`except IndexError` (src/usu/_lexer.py:59-66), and the comment runs to the end of the document | not executed | `Lexer.UnterminatedBlockCommentHangs` | `Lexer.BlockEndSpec` |
