# macroed in Dafny

A model of the core of macroed, a small macro-expansion engine for text. The engine has two
parts. A **parser** (core/parser.js) reads a document line by line. It recognises block macros
(`||name(params)` or `||proc:name(params)`, followed by lines indented deeper than the opener)
and inline macros (`{{name(params)}}` or `{{name(params):content}}`). It splits a parameter list
into a name-to-value dictionary and builds a tree of `proc` nodes (runs of text) and `macro`
nodes. The **expander** (core/macroed.js) keeps a registry of processors ("contexts") and of
macros, and walks the tree to produce text:

- a text node goes through its processor, and then each inline placeholder is replaced by the
  expansion of its macro;
- a macro node gives its template, with every `%s` replaced by the expanded children or by the
  inline content;
- an unknown processor or macro gives back the source text.

Modules, one per concern:

- `Wrappers`: `Option`, standing for JavaScript's `null` / `undefined`.
- `Strings`: the JavaScript string built-ins the core uses: `split`, `join`, global `replace`,
  `substring`, leading spaces, and decimal numerals for placeholder keys.
- `Ast`: parameter dictionaries (insertion-ordered keys, scalar or list values) and the node tree.
- `ParamParser`: `splitParams`, the `R_PARAM` recogniser, `__unescape`, `__isEmpty` and
  `parseParams`. `SplitParams` is the character loop of `splitParams`, and `ParseParams` the loop
  over the split pieces. Each is proved equal to a specification function, and the lemmas are stated about those functions.
- `InlineScanner`: `markOut`, the global `R_INLINE_MACRO` replace with its replacer callback.
  `MarkOut` is a method whose loop is proved against the segment list `SegmentsFrom`.
- `BlockParser`: `parse`. The parser's variables and its nested helpers (`pushLines`,
  `popStack`, `closeBlock`, `openBlock`, `addLine`) are the class `LineParser`. Each method is
  proved to move the state as a pure step function does, and `Parse` is proved equal to
  `ParseText`.
- `Engine`: the class `Macroed`, which holds the registries and provides `registerMacro`,
  `registerContext`, `expandNode`, `expandNodeSet`, `expandString`, `__applyProc`,
  `__expandMacro` and `__inline`.

The three regular expressions are written out as recognisers over character positions.
`R_BLOCK_MACRO`, `R_INLINE_MACRO` and `R_PARAM` each have exactly one way to match: every group
takes a maximal run, or its end is fixed by the next delimiter. So the recognisers need no
backtracking, and they return the groups the regular expressions capture. Two details:

- In `R_PARAM` the quoted value runs to the last double quote of the piece, and only spaces may
  follow it.
- The value `""` is stored as `undefined`, as `!param[2]` makes it.

Placeholder ids come from a counter. `ids` is threaded through `markOut`, `parse` and
`expandString`, and the key of a placeholder is the decimal numeral of the counter. The EOL
separator is a parameter of the parser and of the engine.

## Model

| member | source | states |
|---|---|---|
| ParamParser.SplitParams | core/parser.js:339-402 | the character loop computes exactly `SplitByCommas(s)`, the split of the scan |
| ParamParser.SplitByCommas | core/parser.js:339-402 | the pieces `splitParams` returns, when it returns any, joined with commas give back the input |
| ParamParser.EscapedIffOddBackslashes | core/parser.js:353-365 | after a scan, the escape flag is set exactly when the input ends in an odd run of backslashes |
| ParamParser.InQuoteIffOddQuotes | core/parser.js:352-373 | after a scan, the quote flag is set exactly when the input holds an odd number of quotes that no odd run of backslashes escapes |
| ParamParser.SplitsAtScan | core/parser.js:376-389 | a comma splits, by that count of backslashes and quotes before it, exactly when the loop reaches it with both flags clear |
| ParamParser.ScanJoin | core/parser.js:376-389 | the finished pieces and the open buffer, joined with commas, give back the input |
| ParamParser.ScanCommas | core/parser.js:376-389 | every piece ends at a comma that is neither escaped nor inside quotes |
| ParamParser.ScanCount | core/parser.js:376-389 | there is one finished piece per splitting comma |
| ParamParser.SplitByCommasSpec | core/parser.js:339-402 | `null` exactly for a trailing odd run of backslashes or an odd number of unescaped quotes; otherwise the pieces join back to the input, there is one more piece than splitting commas, and each inner piece ends at one |
| ParamParser.SplitQuotedComma | core/parser.js:368-389 | `a,"b,c"` splits into `a` and `"b,c"`: a comma inside quotes does not split |
| ParamParser.SplitEscapedComma | core/parser.js:353-389 | `a\,b` stays one piece: an escaped comma does not split |
| ParamParser.SplitEscapedBackslash | core/parser.js:353-389 | `a\\,b` splits after the escaped backslash |
| ParamParser.SplitUnclosedQuote | core/parser.js:394-397 | an unclosed quote gives `null` |
| ParamParser.SplitTrailingBackslash | core/parser.js:394-397 | a trailing lone backslash gives `null` |
| ParamParser.SplitPlain | core/parser.js:339-402 | text without backslashes, quotes or commas is one piece |
| ParamParser.MatchParam | core/parser.js:18 | a match has a name that starts with a letter and continues with word characters; it has at most one of a quoted value (every quote inside it escaped) and a bare value (no spaces or quotes) |
| ParamParser.MatchParamSound | core/parser.js:18 | every piece `R_PARAM` accepts is spaces, the matched name, optionally `=` between spaces and the matched quoted or bare value, then spaces: the groups are what the piece holds |
| ParamParser.MatchParamNoName | core/parser.js:18 | a piece that is blank, or whose first character other than a space is not a letter, is refused |
| ParamParser.MatchQuotedAt | core/parser.js:18 | spaces, a name, `=` between spaces, a quoted body and trailing spaces match with that name and quoted body |
| ParamParser.MatchBareAt | core/parser.js:18 | spaces, a name, `=` between spaces, a bare value and trailing spaces match with that name and bare value |
| ParamParser.MatchRenderedQuoted | core/parser.js:18 | an entry written as `name = "body"`, with any spacing, is read back as that name and body |
| ParamParser.MatchRenderedBare | core/parser.js:18 | an entry written as `name = value`, with any spacing, is read back as that name and value |
| ParamParser.MatchRenderedFlag | core/parser.js:18 | a bare name, with any spacing, is read back as the name with no value |
| ParamParser.MatchRendered | core/parser.js:18 | every written form of an entry is read back as the name and value it was written with |
| ParamParser.Unescape | core/parser.js:471-474 | dropping the backslash of each escape pair leaves at least half the text and never lengthens it |
| ParamParser.UnescapePlain | core/parser.js:471-474 | text without backslashes is left as it is |
| ParamParser.UnescapeEscape | core/parser.js:471-474 | unescaping undoes the writer's escaping of quotes and backslashes |
| ParamParser.EscapeIsQuotedBody | core/parser.js:18 | an escaped value is a body the quoted branch of `R_PARAM` accepts |
| ParamParser.IsEmptyConcat | core/parser.js:443-446 | the empty text is blank, and a text is blank exactly when both of its halves are |
| ParamParser.SpacesAreEmpty | core/parser.js:443-446 | a run of spaces is blank |
| ParamParser.AllEntries | core/parser.js:295-301 | when every piece matches, there is one entry per piece |
| ParamParser.AllEntriesSome | core/parser.js:295-301 | when each piece stands for a given entry, the entry list is exactly those entries |
| ParamParser.FirstSeenMembers | core/parser.js:311-324 | the dictionary keys are the given names, each once |
| ParamParser.ValuesOfEmpty | core/parser.js:311-324 | a name has stored values exactly when it was given |
| ParamParser.AddEntryParts | core/parser.js:311-324 | one loop step: a new name is stored as a scalar and appended to the keys; a repeated name keeps the keys and has its stored value updated (the dictionary it builds is stated by `AddAllBuild`) |
| ParamParser.BuildSnoc | core/parser.js:311-324 | adding one more entry to the dictionary of a list gives the dictionary of the longer list |
| ParamParser.AddAllBuild | core/parser.js:295-325 | adding the entries in order, one at a time, gives the dictionary they denote (keys in first-seen order; a value, or the list of values, under each) |
| ParamParser.BuildWellFormed | core/parser.js:311-324 | the dictionary has distinct keys and holds a value for exactly those keys, which are the names given |
| ParamParser.ParamsOf | core/parser.js:275-328 | a dictionary `parseParams` returns has distinct keys, each an `R_PARAM` name, and a value for exactly those keys |
| ParamParser.ParseParams | core/parser.js:275-328 | the method returns `ParamsOf(s)`: `{}` for white space, `null` for a failed split or a bad piece, otherwise the dictionary of the entries |
| ParamParser.ParamsNullIff | core/parser.js:283-301 | `null` exactly when the list is not blank and either does not split or has a piece `R_PARAM` refuses |
| ParamParser.ParamsBadPiece | core/parser.js:295-301 | one piece that `R_PARAM` refuses makes the whole list `null` |
| ParamParser.ParamsBadName | core/parser.js:295-301 | any piece that is blank, or whose first character other than a space is not a letter, makes the whole list `null` |
| ParamParser.ParamsDigitName | core/parser.js:295-301 | `1=5` gives `null` |
| ParamParser.ParamsSpaceInValue | core/parser.js:295-301 | `a=5 5` is refused by `R_PARAM` and gives `null` |
| ParamParser.ParamsTrailingComma | core/parser.js:283-301 | `a=5,` splits into `a=5` and an empty piece, and gives `null` |
| ParamParser.ParamsOfParts | core/parser.js:283-325 | a non-blank list whose split pieces all match gives the dictionary of their entries (the written round trip is `ParamsOfRendered`) |
| ParamParser.QuotedEmptyIsUndefined | core/parser.js:303-309 | `name=""` stores `undefined` |
| ParamParser.PieceEntryRendered | core/parser.js:296-309 | an entry written in any form and with any spacing stands for its name and the value its form stores: `undefined` for a bare name or `""`, and otherwise the quoted or the bare value with its escapes removed (both kinds of value go through `__unescape`) |
| ParamParser.PieceEntrySound | core/parser.js:296-309 | every piece that stands for an entry is written in some form and spacing, and the entry's value is the value that form stores |
| ParamParser.ParamsOfSingle | core/parser.js:283-325 | a non-blank list that is one piece standing for one entry gives the dictionary with that one key and its value |
| ParamParser.ParamsOfOneRendered | core/parser.js:283-325 | a non-blank list that splits into one written entry, in any form and spacing, gives the dictionary with that name as its only key, holding the value the form stores |
| ParamParser.ParamsOfPlainRendered | core/parser.js:283-325 | the same for a bare name or an unquoted value without backslashes or commas: no side condition on the split is needed |
| ParamParser.ThreeBuild | core/parser.js:311-324 | a name given three times is one key holding the list of its three values, in input order |
| ParamParser.ParamsFlagFixture | core/parser.js:303-325 | `a` gives `{a: undefined}` |
| ParamParser.ParamsBareFixture | core/parser.js:303-325 | `a=5` gives `{a: '5'}` |
| ParamParser.ParamsSpacedFixture | core/parser.js:18 | ` a = 5 ` gives `{a: '5'}`: spaces around the name, `=` and the value are skipped |
| ParamParser.SplitQuotedEscape | core/parser.js:353-389 | ` a = "\5" ` is one piece: the quote is closed and the backslash escapes only the `5` |
| ParamParser.QuotedEscapeEntry | core/parser.js:303-309 | the piece ` a = "\5" ` stands for `a` with the value `5` |
| ParamParser.ParamsQuotedFixture | core/parser.js:303-309 | ` a = "\5" ` gives `{a: '5'}`: a quoted value is unescaped |
| ParamParser.SplitRepeated | core/parser.js:376-389 | `a=5 , a=6, a=7` splits into its three pieces, spaces kept |
| ParamParser.RepeatedEntries | core/parser.js:296-309 | those three pieces stand for `a=5`, `a=6` and `a=7` |
| ParamParser.ParamsRepeatedFixture | core/parser.js:311-324 | `a=5 , a=6, a=7` gives `{a: ['5', '6', '7']}`: a repeated name collects its values in order |
| ParamParser.MatchRenderedEntry | core/parser.js:18 | an entry written by the writer is read back as that entry |
| ParamParser.SplitRendered | core/parser.js:339-402 | written entries joined by commas split back into the written pieces |
| ParamParser.RenderedEntries | core/parser.js:295-309 | the pieces of written entries stand for exactly those entries |
| ParamParser.ParamsOfRendered | core/parser.js:275-328 | parsing a written parameter list gives the dictionary of its entries (round trip) |
| InlineScanner.MatchInlineAt | core/parser.js:16 | a match spans at least `{{n()}}` and ends inside the text |
| InlineScanner.MatchInlineSound | core/parser.js:16 | every match is a written `{{name (params) :content}}` or `{{name (params)}}` whose parts are the match's groups, with a `[\w-]` name, parameters without parentheses and content without braces |
| InlineScanner.MatchHeadSound | core/parser.js:16 | what is read as `{{name (params)` is written that way, with a `[\w-]` name and parameters without parentheses |
| InlineScanner.MatchTailSound | core/parser.js:16 | what is read after the parameters is spaces, `:` and content without braces, or nothing, and then `}}` |
| InlineScanner.MatchHeadAt | core/parser.js:16 | `{{`, a name, spaces and `(params)` are read as that name and those parameters |
| InlineScanner.MatchCloseAt | core/parser.js:16 | `}}` right after the parameters ends the match with no content |
| InlineScanner.MatchContentAt | core/parser.js:16 | spaces, `:`, content without braces and `}}` end the match with that content |
| InlineScanner.MatchJoinAt | core/parser.js:16 | a head match and a tail match make one inline match |
| InlineScanner.MatchRenderedInline | core/parser.js:16 | a written inline call, with or without content and with any spacing, is read back as its name, parameters and content, spanning the whole text |
| InlineScanner.MatchBraces | core/parser.js:16 | a match starts with `{{` and ends with `}}` |
| InlineScanner.NoBracesNoMatch | core/parser.js:16 | text without `{{` has no inline match anywhere |
| InlineScanner.NextSegment | core/parser.js:59-91 | every step of the scan moves forward |
| InlineScanner.SegmentsFrom | core/parser.js:59-91 | the scan from an index has at most one segment per remaining character |
| InlineScanner.StepKeep | core/parser.js:86-90 | where no call starts, the character is kept and nothing is recorded |
| InlineScanner.StepRejected | core/parser.js:66-71 | a call whose parameters do not parse is left in the text as written |
| InlineScanner.StepAccepted | core/parser.js:63-84 | a call whose parameters parse is replaced by a fresh placeholder, and the table records its source, name, parameters and content (`''` when there is none) under that key |
| InlineScanner.Replacer | core/parser.js:63-84 | the replacer callback returns the replacement text and table entry of one step of the scan, and the next id |
| InlineScanner.MarkOut | core/parser.js:59-91 | the content and inline table are those of the segment scan; one id is drawn per recorded call |
| InlineScanner.SourceRestored | core/parser.js:59-91 | the sources of the segments put back together give the input text |
| InlineScanner.FreshKeysAt | core/parser.js:411-414 | the k-th fresh key is the numeral of the k-th id |
| InlineScanner.KeysAreFresh | core/parser.js:73-75 | the table keys are the consecutive ids starting at the counter |
| InlineScanner.KeysDistinct | core/parser.js:411-414 | no two entries of an inline table share a key |
| InlineScanner.EntriesAreMatches | core/parser.js:75-81 | every table entry is an inline macro node whose source is a braced call |
| InlineScanner.NoMatchUnchanged | core/parser.js:86-90 | text with no inline call stays as it is, with an empty table |
| InlineScanner.MarkOutSingle | core/parser.js:59-91 | a lone written call whose parameters parse becomes one placeholder and one table entry |
| InlineScanner.MarkOutRejected | core/parser.js:66-71 | a lone written call whose parameters do not parse stays as written, with an empty table |
| Strings.LeadingSpaces | core/parser.js:185 | the count of leading spaces stops at a character that is not a space |
| Strings.LeadingSpacesRun | core/parser.js:185 | every character before that count is a space |
| Strings.Substring | core/parser.js:168-170 | `substring(k)`: a negative start counts as 0, and a start past the end gives `''` |
| Strings.JoinSplit | core/parser.js:457-460 | joining the pieces of a split with the separator gives the text back |
| Strings.JoinAppend | core/macroed.js:112-118 | joining two non-empty lists puts one separator between their joins |
| Strings.ReplaceAbsent | core/macroed.js:215-218 | replacing a pattern that does not occur changes nothing |
| Strings.ReplaceBySelf | core/macroed.js:241-244 | replacing a key by itself changes nothing |
| Strings.Decimal | core/parser.js:411-414 | a placeholder key is a non-empty string of digits |
| Strings.DecimalRoundTrip | core/parser.js:411-414 | the numeral of an id reads back as that id |
| Strings.DecimalDistinct | core/parser.js:411-414 | distinct ids give distinct keys |
| Strings.DecimalInjective | core/parser.js:411-414 | equal keys come from equal ids |
| BlockParser.AddLineText | core/parser.js:424-432 | `__addLine`'s two cases: an empty buffer gives the line, otherwise the buffer, EOL and the line (that lines merge into their EOL join is `MergeJoin`) |
| BlockParser.SplitByLines | core/parser.js:457-460 | the lines joined with EOL give the text back |
| BlockParser.MatchBlock | core/parser.js:12 | a match has a `[\w-]` macro name, a `[\w-]` processor name when there is one, and parameter text without parentheses |
| BlockParser.MatchBlockSound | core/parser.js:12 | every line `R_BLOCK_MACRO` accepts is a written opener (spaces, `\|\|`, optionally `proc :`, `name (params)`, spaces) whose processor, name and parameter text are the groups |
| BlockParser.MatchRenderedOpener | core/parser.js:12 | a written opener, with any spaces around `:`, before `(` and at the end of the line, is recognised with its processor, name and parameter text, and its indentation is its leading spaces |
| BlockParser.RenderedOpens | core/parser.js:225-241 | a written opener opens a block exactly when its parameters parse |
| BlockParser.Init | core/parser.js:103-117 | the parse starts with no pending text, no items and no frames |
| BlockParser.TextNode | core/parser.js:148-153 | a text node is a 'proc' node for the current processor whose source is the text |
| BlockParser.Flushed | core/parser.js:141-156 | an empty buffer changes nothing; otherwise one 'proc' node is appended, the buffer is cleared and one id is drawn per inline call; indentation, processor and stack are kept |
| BlockParser.Popped | core/parser.js:132-139 | restoring a frame keeps the invariant and removes one frame |
| BlockParser.Closed | core/parser.js:158-161 | closing a block keeps the invariant and removes one frame |
| BlockParser.Opened | core/parser.js:243-258 | opening a block keeps the invariant and adds one frame |
| BlockParser.WithLine | core/parser.js:168-170 | `addLine`: the line, cut at the block indentation, is appended to the pending text (what a run of lines becomes is `TextRun`) |
| BlockParser.Dedent | core/parser.js:202-222 | closing blocks for a dedented line keeps the invariant, draws no ids back and never adds frames |
| BlockParser.CloseN | core/parser.js:202-222 | closing `n` blocks one at a time keeps the invariant and removes `n` frames |
| BlockParser.DedentCloses | core/parser.js:202-222 | the dedent loop closes, innermost first, exactly the blocks indented deeper than the line: it stops at the first block no deeper than the line, or, right after closing a block whose opener is indented less than the line, adds the line and leaves the pass |
| BlockParser.FixIndent | core/parser.js:188-200 | fixing a new block's indentation keeps the invariant |
| BlockParser.Step | core/parser.js:173-259 | one line keeps the invariant: indentation 0 at the top level and in the bottom frame, so closing a block always finds a frame |
| BlockParser.StepCases | core/parser.js:173-259 | a non-empty line either leaves the dedent loop as text of the enclosing block, or is added as text, or opens a block (used by `StepText`, `StepOpen` and `StepOpenFirst`) |
| BlockParser.Place | core/parser.js:224-258 | after the dedent loop, a line keeps the invariant whether it opens a block or is added as text |
| BlockParser.Run | core/parser.js:173-259 | the loop over all lines keeps the invariant |
| BlockParser.CloseAll | core/parser.js:249-255 | blocks still open at the end of the input are closed into their parents: the top-level list keeps its items and ends with the outermost open block's macro node |
| BlockParser.Finish | core/parser.js:261-263 | the last pending text is pushed and draws ids from the counter; with no open block and nothing pending the top-level items are returned as they are |
| BlockParser.ParseText | core/parser.js:102-264 | the next fresh id after a parse is never below the first |
| BlockParser.ParseTextPlain | core/parser.js:102-264 | a non-empty document whose lines are neither blank nor openers parses into one 'default' node holding the whole document |
| BlockParser.LineParser.constructor | core/parser.js:103-117 | the parser variables start at the initial state |
| BlockParser.LineParser.PushLines | core/parser.js:141-156 | `pushLines` moves the state as `Flushed` does |
| BlockParser.LineParser.PopStack | core/parser.js:132-139 | `popStack` moves the state as `Popped` does |
| BlockParser.LineParser.CloseBlock | core/parser.js:158-161 | `closeBlock` moves the state as `Closed` does |
| BlockParser.LineParser.OpenBlock | core/parser.js:163-166 | `openBlock`, and the opener branch after it, move the state as `Opened` does |
| BlockParser.LineParser.AddLine | core/parser.js:168-170 | `addLine` moves the state as `WithLine` does |
| BlockParser.LineParser.ParseLine | core/parser.js:173-259 | one pass of the `overLines` loop moves the state as `Step` does |
| BlockParser.Parse | core/parser.js:102-264 | `parse` returns the nodes and next id of `ParseText` |
| BlockParser.RunAppend | core/parser.js:173-259 | reading lines in two parts is reading them all |
| BlockParser.StepText | core/parser.js:225-232 | a text line at or below the block indentation (indented at least as deep) is appended, cut at that indentation |
| BlockParser.TextRun | core/parser.js:173-259 | a run of text lines only grows the pending text |
| BlockParser.MergeBlank | core/parser.js:176-182 | blank lines at the start of a block add no text |
| BlockParser.MergeAfter | core/parser.js:424-432 | non-empty top-level lines after some text append EOL and each line |
| BlockParser.MergeJoin | core/parser.js:424-432 | non-empty top-level lines become the lines joined by EOL |
| BlockParser.TopLevelText | core/parser.js:173-263 | top-level text lines give no node when their text is empty, and otherwise one 'default' node of their text |
| BlockParser.FinishTop | core/parser.js:261-263 | at the top level with no items, the end of the parse gives the node of the pending text, or none |
| BlockParser.TextLinesMerge | core/parser.js:102-264 | non-blank lines that open no block parse into one 'default' node of the lines joined by EOL |
| BlockParser.BlankLinesNoNode | core/parser.js:176-182 | blank lines parse into no nodes and draw no ids |
| BlockParser.StepOpen | core/parser.js:243-258 | an opener in a block whose indentation is fixed, at least as deep as that block, starts a block, with the source cut at its indentation |
| BlockParser.StepOpenFirst | core/parser.js:188-200 | an opener that is the first line of a new block, deeper than that block's opener, fixes the block's indentation and opens a block inside it |
| BlockParser.StepFirstChild | core/parser.js:188-200 | the first line deeper than the opener fixes the block indentation and starts its text |
| BlockParser.RunFixed | core/parser.js:188-200 | a new block whose indentation is not yet fixed reads on as if its first non-empty line had fixed it |
| BlockParser.OpenedThen | core/parser.js:188-258 | an opener followed by a deeper line opens a block whose indentation is that line's |
| BlockParser.OpenedChildren | core/parser.js:188-258 | the lines under an opener become its pending text, cut at the block indentation; the frame saves the enclosing block and its processor, and the opener's processor is current |
| BlockParser.NestedBlock | core/parser.js:188-258 | an opener as the first line of a block, with text under it, closed by a line at its own indentation: the outer block holds the inner macro node with its one text node, and the line is text of the outer block |
| BlockParser.FirstChildText | core/parser.js:188-200 | a block whose first line is not blank has text |
| BlockParser.StepClosing | core/parser.js:202-222 | a line no deeper than the parent closes the block and is then placed in the enclosing block: an opener opens a sibling, any other line is text |
| BlockParser.ClosedText | core/parser.js:158-161 | closing a block of text lines keeps the invariant and the frames below, and leaves nothing pending |
| BlockParser.ClosedBy | core/parser.js:202-258 | a line no deeper than the opener closes the block: the macro node holds one node of the block's text, the enclosing variables come back, and the line is placed there, as text or as the opener of the next sibling |
| BlockParser.ChildrenClosed | core/parser.js:158-161 | the block of an opener and its text lines closes into the enclosing block with its one text node |
| BlockParser.EmptyBlock | core/parser.js:188-258 | an opener closed by the next line gives a macro node with no items, and the line is placed in the enclosing block, as text or as the next sibling's opener |
| BlockParser.BetweenDedent | core/parser.js:204-218 | a line indented strictly between a block and its parent closes that one block and is cut at the parent's indentation |
| BlockParser.ParseBlock | core/parser.js:102-264 | a top-level opener with its indented lines parses into one macro node holding the text node, for the opener's processor or 'default' |
| Engine.Macroed.constructor | core/macroed.js:24-61 | a new engine has no macros and only the 'default' processor, the identity |
| Engine.Macroed.RegisterMacro | core/macroed.js:144-148 | the macro is stored under its name, replacing any earlier one, with `generate` giving `''` when none is given; the processors are unchanged |
| Engine.Macroed.RegisterContext | core/macroed.js:159-164 | the processor is stored under its name, with `process` the identity when none is given; the macros are unchanged |
| Engine.Macroed.ExpandString | core/macroed.js:129-133 | the result is the expansion of the parsed top-level nodes; the registries are unchanged and the id counter moves past the ids the parse drew |
| Engine.Macroed.ExpandNode | core/macroed.js:93-101 | a text node of an unknown processor gives its source whatever its inline table; one of a registered processor with no inline table gives `process(content)`; a macro node of an unknown macro with no children gives its source |
| Engine.Macroed.ExpandNodeSet | core/macroed.js:112-118 | no nodes give `''`, and one node gives its own expansion |
| Engine.Macroed.ExpandNodeSetJoin | core/macroed.js:112-118 | the expansions of two non-empty lists put together are joined by one EOL |
| Engine.Macroed.ApplyProc | core/macroed.js:175-187 | a registered processor's result on the content is returned when the inline table is empty |
| Engine.Macroed.InlineAllSnoc | core/macroed.js:182 | the inline table is folded in entry by entry, in table order |
| Engine.Macroed.InlineAbsent | core/macroed.js:241-244 | an entry whose key does not occur in the result leaves it unchanged |
| Engine.Macroed.ProcInlineEntry | core/macroed.js:175-187 | one more table entry replaces every occurrence of its key by the expansion of its node |
| Engine.Macroed.UnknownMacroIsSource | core/macroed.js:198-211 | an unknown macro expands to its source, followed by EOL and its expanded children when it has any |
| Engine.Macroed.TemplateWithoutSlot | core/macroed.js:213-218 | a template without `%s` is the result, whatever the macro's body |
| Engine.Macroed.TemplateFilled | core/macroed.js:220-227 | every `%s` of a template is replaced by the expanded children of a block macro or by the content of an inline macro (for a parsed block, see `ParsedBlockExpansion`) |
| Engine.Macroed.PlainTextRoundTrip | core/macroed.js:129-133 | with the default processor, non-blank text with no block opener and no `{{` parses and expands back to itself |
| Engine.Macroed.ParsedBlockExpansion | core/macroed.js:198-228 | a parsed block expands to its source with EOL and the child when the macro is unknown, to its template when that has no `%s`, and otherwise to the template filled with the child's expansion |

## Left out

- The component classes (`Component`, `Context`, `Macro`, `inherit`, `createComponent`) are
  not modelled. A processor is its `process` function and a macro its `generate` function,
  given as function values. The `params` that `createComponent` merges into a component are
  not modelled; nor are `process` or `generate` reading them.
- The constructors' merging of option objects (`_.extend`) is not modelled. The EOL separator is
  a parameter and is not read from `os.EOL`.
- `unique-id` is modelled by a counter: the key of a placeholder is the decimal numeral of the
  next id. This keeps keys distinct within a parse. It does not keep a key from occurring
  inside other text, and what `unique-id` returns is not part of this model. Since the inline
  table is folded in table order with a literal replace-all, the model then substitutes in
  three places where the original would only if its keys collided the same way:
  - a digit in a processor's output is replaced by the expansion of the entry with that key;
  - a key is replaced inside the expansion an earlier entry put in. Take a macro `m` whose
    `generate` is `'+' + params.plus`, and the text `{{m(plus=1)}} {{m(plus=2)}}` parsed with
    the counter at 0. It is marked out as `0 1`. Then `0` becomes `+1`, and both `1`s become
    `+2`, so the model gives `++2 +2` where `+1 +2` is meant;
  - a key is replaced inside a longer key: when one text node holds the keys `0`, `1` and `10`,
    the slot `10` is rewritten by the entries `0` and `1`, into the expansion of `1` followed by
    that of `0`.
- Engine.Macroed.Inline: the key is used as a literal pattern. `new RegExp(key, 'g')` is the
  same for digit keys. The special `$` patterns of a JavaScript replacement string (`$&`, `$1`,
  `$$`) are not interpreted. The same holds for filling `%s` in `__expandMacro`.
- JavaScript strings are sequences of UTF-16 code units. Here they are sequences of `char`.
  `\s` and `\w` are modelled by the character classes `IsJsSpace` and `IsWordChar`.
- Keys such as `__proto__` or inherited `Object.prototype` members are not modelled: a dictionary
  and the registries are plain maps. A name given to `_.has` or `instanceof Context` counts as
  registered exactly when it was registered.
- The object `markOut` returns also carries a `source` field. It is the text node's `source` here.
- BlockParser: the child `items` arrays that JavaScript links into their parent nodes and fills
  in place are replaced by frames that rebuild the parent list when a block closes. Nothing else
  is added to a parent list while a child is open, so the trees agree. Aliasing between the
  nodes is not modelled.
- ParamParser.ValueOf and StoredValue have no `ensures` of their own. The value stored for each
  form is stated by `PieceEntryRendered` and `PieceEntrySound`.
- Engine.Macroed.ExpandMacro, InlineAll and Inline have no `ensures` of their own. What they
  compute is stated by `UnknownMacroIsSource`, `TemplateWithoutSlot`, `TemplateFilled`,
  `InlineAllSnoc`, `InlineAbsent` and `ProcInlineEntry`.
- BlockParser.ParseText: its own contract only bounds the id counter. What a parse gives is
  stated for text-only input (`ParseTextPlain`, `TextLinesMerge`, `BlankLinesNoNode`), for one
  block (`ParseBlock`), and line by line for nesting (`NestedBlock`, `ClosedBy`, `EmptyBlock`,
  `DedentCloses`). There is no single statement for documents of any shape.
