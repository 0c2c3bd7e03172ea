# Verified models of the codecs, rewriters and the thread pool

This project models the parts of the repository in which loops have to undo, refine or share
something, and proves what they are for. Every loop that changes things step by step is a method
with invariants, proved against a function on values; the laws are lemmas about these functions,
and the ensures clauses of the methods connect the two.

- **Git binary deltas** (`delta.c`): the rolling hash over polynomials with the real tables, the
  index with its culling, the greedy encoder with its pending insert, backward extension and
  carried-over matches, and the decoder. Encoding and decoding gives the target back.
  `Bytes`, `RollingHash`, `RabinHash`, `RabinTables`, `DeltaFormat`, `DeltaCommands`, `DeltaIndex`,
  `DeltaPlaces`, `DeltaLengths`, `DeltaEncoder`, `DeltaDecoder`, `GitDelta`.
- **JSON** (`cJSON.c`): grammar and text, the parser on a buffer with its two passes over a
  string, the printer on a buffer that grows or not, the minifier in place, and the child lists.
  `JsonString`, `JsonEscapes`, `JsonText`, `JsonGrammar`, `JsonRoundTrip`, `JsonIntegers`,
  `JsonParseBuffer`, `JsonPrintBuffer`, `JsonMinify`, `JsonComments`, `JsonMinifyMeaning`, `JsonList`.
- **Blame** (`blame_git.c`, `blame.c`): the scoreboard as a partition of lines with a meaning, the
  linked entries, the reference counts of the origins, and the whole run from the first entry to the
  hunks that are reported, which is a function of the history. `BlameBoard`, `BlameParents`,
  `BlameHistory`, `BlameLosses`, `BlameOrigins`, `BlameEntries`, `BlameScoreboard`, `BlameRun`.
- **Thread pool** (`threadpool.c`): a state machine of the steps between which other threads can
  get in, what holds over every run, when workers park, leave and are made, and how every job can be
  finished. `ThreadPool`, `ThreadPoolSteps`, `ThreadPoolRuns`, `ThreadPoolSize`, `ThreadPoolProgress`.
- **SHA-1** (`sha1.c`): the streaming code against FIPS 180-4. `Sha1Standard`, `Sha1Example`,
  `Sha1Stream`.
- **Patches** (`apply.c`): `PatchApply`. **Configuration values** (`config_file.c`,
  `config_parse.c`): `ConfigValue`, `ConfigReading`. **Line endings** (`crlf.c`, `buf_text.c`):
  `LineEndings`, `LineEndingRules`.
  **Signed commits** (`commit.c`): `SignedCommit`. **Base 85, base 64 and quoting** (`buffer.c`):
  `GitBuffer`, `Base85`, `Base64`, `Quoting`, `QuotingRules`, with known answers in `KnownAnswers`.
  `Options` and `CStrings` are shared.

`dafny verify dfyconfig.toml` checks all of it.

Where the code does not do what its documentation or its counterpart promises, the code is
modelled as it is and the exact condition is proved:

- The culling loop of the delta index does not keep the bound of its comment
  (`DeltaIndex.CullingBound`, with an input in `DeltaIndex.LongBucket`).
- The size of the delta buffer is computed on 32 bits and wraps when the position comes to the end of
  the last size of the growth sequence (`DeltaEncoder.Grow`, `DeltaEncoder.GrownSizeFits`). C then
  makes the buffer smaller and goes on writing; the model ends with the result `Wrapped`. Without a
  limit this happens if and only if the furthest position `Peak`, a function of the index and the target,
  is 1570824137 or more (`DeltaEncoder.CreateFromIndex`): for a base of at most 16 bytes, if and only if
  the target has 1558552067 bytes or more (`GitDelta.DiffAndApply`); inputs are in
  `GitDelta.MatchesAndWraps`.
- A delta is refused as larger than the limit also when it is not: if and only if `Peak`, and not `End`, is
  behind the limit (`DeltaEncoder.CreateFromIndex`, with an input in `GitDelta.RefusedThoughShort`).
- `git_blame__get_origin` takes a reference for each entry that names the origin already, and
  `find_origin` one for each rename but the last, and nobody gives them back. The origins are all freed
  in the end if and only if `AfterRounds`, the rounds of the history as a function of the lines and of
  what is found in the parents, loses no count (`BlameRun.BlameInternal`). It loses none where each
  commit has one parent at most and no rename is dropped (`BlameLosses.OneParentLosesNothing`), and it
  loses one in a history of four commits with a merge (`BlameRun.MergeKeepsAnOrigin`).
- With no place in the pool no job is ever called (`ThreadPoolProgress.NeverStuck`).
- A hunk with an empty new side, not at the start of a file, is looked for one line too early
  (`PatchApply.EmptyNewSideIsRefused`, `PatchApply.HunksApply`).
- A configuration value that is not quoted loses carriage returns, vertical tabs and form feeds at
  its ends (`ConfigValue.RoundTrip`, with an input in `ConfigValue.CarriageReturnIsLost`).
- A signed commit loses the start of a header field of which the name starts like the signature's
  (`SignedCommit.OtherFieldIsCut`).
- Decoding base 64 gives a zero byte for each padding character (`Base64.WholeGroupsComeBack`).
- A path of a patch that ends in a space is not quoted, and comes back without it
  (`Quoting.PathComesBack`, with an input in `Quoting.SpaceIsLost`).
- A blob with CR-LF pairs, and under GUESS also one without them, does not always come back from the
  working tree, and with safecrlf FAIL it can be refused (`LineEndings.CleanUndoesSmudge`).
- A block comment that begins with a slash is taken to end there by the minifier (`JsonComments.ShortComment`).
- Malformed `\u` escapes put the two passes over a JSON string out of step; the output still fits
  (`JsonParseBuffer.SkipsOutOfStep`, `JsonParseBuffer.UnescapeBody`).

## Model

| member | source | states |
|---|---|---|
| `RabinHash.StepIsTimes` | deps/libgit2-0.27.2/src/delta.c:203-205 | shifting a hash by a byte and xoring with the table entry of its top bits is multiplication by x^8 modulo the polynomial plus the byte, for every 32-bit value and byte |
| `RabinHash.DropOldest` | deps/libgit2-0.27.2/src/delta.c:330-330 | xoring with `U` of the oldest byte takes just that byte out of the hash of a window of sixteen |
| `RabinHash.HashIsSmall` | deps/libgit2-0.27.2/src/delta.c:203-205 | a hash is below 2^31, so that its top eight bits index the table |
| `RabinHash.TakeIn` | deps/libgit2-0.27.2/src/delta.c:203-205 | one step of the loop over a block: the result is the hash with one byte more, and below 2^31 |
| `RabinHash.Roll` | deps/libgit2-0.27.2/src/delta.c:330-331 | the rolling step gives the hash, computed from scratch, of the window moved on by one byte |
| `RabinTables.GitTablesAreValid` | deps/libgit2-0.27.2/src/delta.c:16-106 | each of the 512 constants of `T` and `U` is the multiple of the polynomial that the rolling hash needs |
| `RollingHash.Polynomials.FoldDrop` | deps/libgit2-0.27.2/src/delta.c:330-331 | in every structure with the laws of polynomials over bits, taking the leading term out of the fold of a sequence leaves the fold of its tail |
| `RollingHash.Polynomials.EntryIsScale` | deps/libgit2-0.27.2/src/delta.c:16-106 | a table in which every entry is twice the entry of half its index, plus one for odd indices, holds all the multiples |
| `DeltaIndex.BlockHash` | deps/libgit2-0.27.2/src/delta.c:203-205 | the hash of a block equals the fold of its sixteen bytes and is never the start value of the loop |
| `DeltaIndex.Fill` | deps/libgit2-0.27.2/src/delta.c:198-218 | from the last block to the first: each bucket has just the blocks with its hash bits, in the order of the source, without those that repeat the hash of the block in front of them; and every entry holds the hash of the sixteen bytes that end at it |
| `DeltaIndex.BlockIndexed` | deps/libgit2-0.27.2/src/delta.c:203-217 | what one more block in front does to every bucket |
| `DeltaIndex.BlockIsIndexed` | deps/libgit2-0.27.2/src/delta.c:198-218 | no block is left out: it has its entry, or the first of a run of blocks with its hash has one for all of them |
| `DeltaIndex.BucketOfAscends` | deps/libgit2-0.27.2/src/delta.c:198-245 | the entries of a bucket point to ascending places, after culling as well |
| `DeltaIndex.Index.Cull` | deps/libgit2-0.27.2/src/delta.c:233-245 | culling keeps the entries faithful, gives the thinned chain for one bucket and leaves the other buckets alone |
| `DeltaIndex.Index.CullAll` | deps/libgit2-0.27.2/src/delta.c:232-245 | every bucket is thinned, and every entry stays faithful |
| `DeltaIndex.Keep` | deps/libgit2-0.27.2/src/delta.c:236-244 | the loop over one long bucket keeps just the entries of the thinned chain |
| `DeltaIndex.ThinAt` | deps/libgit2-0.27.2/src/delta.c:237-244 | the thinned chain has every skip-th entry of the chain, in order |
| `DeltaIndex.CullingBound` | deps/libgit2-0.27.2/src/delta.c:220-245 | the bound in the comment is not kept: a culled bucket has at most `HASH_LIMIT` entries if and only if it had fewer than twice as many, and then it has one |
| `DeltaIndex.LongBucket` | deps/libgit2-0.27.2/src/delta.c:220-245 | a source of 4097 bytes of which more than `HASH_LIMIT` blocks stay in one bucket after culling, whatever the mask |
| `DeltaIndex.IndexInit` | deps/libgit2-0.27.2/src/delta.c:145-250 | there is an index if and only if the base is not empty; each bucket is the culled list of its blocks in the order of the source; all entries point into the base and are hashed right |
| `DeltaFormat.ReadSizeBytes` | deps/libgit2-0.27.2/src/delta.c:296-310 | a size below 2^32 written seven bits at a time is read back as that size, with the rest of the bytes left |
| `DeltaFormat.ReadOperandBytes` | deps/libgit2-0.27.2/src/delta.c:393-405 | the operands that are not zero and their flags are read back as all the operands, for any operands |
| `DeltaFormat.ReadCopyBytes` | deps/libgit2-0.27.2/src/delta.c:569-585 | a copy command as the encoder writes it copies just that part of the base, with 64 KB written without size bytes and offsets of four bytes included |
| `DeltaFormat.ReadInsertBytes` | deps/libgit2-0.27.2/src/delta.c:588-599 | an insert command inserts just its bytes |
| `DeltaFormat.RunAppend` | deps/libgit2-0.27.2/src/delta.c:564-609 | running two deltas one after the other gives what each gives, for any deltas that are accepted |
| `DeltaDecoder.ReadHeader` | deps/libgit2-0.27.2/src/delta.c:458-480 | the loop reads the size that the bytes mean, or finds that they end or are too wide, and leaves the position behind them |
| `DeltaDecoder.CopyOperands` | deps/libgit2-0.27.2/src/delta.c:571-579 | the operands are read in their order, each if its bit is set |
| `DeltaDecoder.NextCommand` | deps/libgit2-0.27.2/src/delta.c:564-604 | one command is decoded as the format says: copy with its bounds checks, insert, or the reserved command |
| `DeltaDecoder.RunCommands` | deps/libgit2-0.27.2/src/delta.c:564-609 | the loop over the commands gives what the delta means: the same result or the same refusal |
| `DeltaDecoder.ApplyDelta` | deps/libgit2-0.27.2/src/delta.c:527-619 | `git_delta_apply` gives the meaning of every delta on every base: the result, the refusal, or the outcome that C does not define |
| `DeltaEncoder.DeltaIsApplied` | deps/libgit2-0.27.2/src/delta.c:270-449 | a header and commands that write the target are a delta that gives the target |
| `DeltaEncoder.MatchLength` | deps/libgit2-0.27.2/src/delta.c:343-344 | the comparison stops at the first byte that differs or at the limit, and what is before it is equal |
| `DeltaEncoder.FindMatch` | deps/libgit2-0.27.2/src/delta.c:332-352 | the loop through a bucket gives the match that the search function says; what it reports is equal in base and target and never shorter than what was known, whatever the index holds; in an index that is in order it is the longest match of its bucket, unless one of 4096 bytes is found |
| `DeltaEncoder.PutLiteral` | deps/libgit2-0.27.2/src/delta.c:356-359 | a byte is put behind a place for the count, which is kept for up to 127 bytes |
| `DeltaEncoder.CloseInsert` | deps/libgit2-0.27.2/src/delta.c:382-383 | the count that is filled in at its place makes the pending bytes one insert command |
| `DeltaEncoder.ExtendBack` | deps/libgit2-0.27.2/src/delta.c:369-381 | extending a match backwards takes bytes off the pending insert, and off the buffer its place as well when it is empty, and the match stays a match |
| `DeltaEncoder.PutCopy` | deps/libgit2-0.27.2/src/delta.c:386-407 | the copy command has the flags and operands of its offset and size |
| `DeltaEncoder.PutMatch` | deps/libgit2-0.27.2/src/delta.c:386-411 | at most 64 KB are copied; the rest of the match is carried over and is still a match |
| `DeltaEncoder.Grow` | deps/libgit2-0.27.2/src/delta.c:422-434 | the buffer keeps what it holds and has room for one more command; the limit is passed if and only if there is one below the last size and the position is behind it; the size wraps if and only if there is none and the position has reached the last size of the growth sequence less the room for a command |
| `DeltaEncoder.GrownSizeFits` | deps/libgit2-0.27.2/src/delta.c:422-434 | starting from 8192, growing by half on 32 bits goes through 31 sizes up to 1570824171, of which the next wraps; up to there each next size has room for one more command behind the position |
| `DeltaEncoder.Pass` | deps/libgit2-0.27.2/src/delta.c:327-420 | one pass of the loop goes on to the place that the function of the index and the target says, writes at most seven bytes, and the hash is that of the last sixteen bytes whenever the next pass uses it |
| `DeltaEncoder.CreateFromIndex` | deps/libgit2-0.27.2/src/delta.c:270-449 | for every index that points into its base, also a culled one, and every limit: a delta that is returned gives the target and has the length at which the encoder ends; it is refused if and only if the furthest position that the encoder comes to, a function of index and target alone, is behind the limit; and the size wraps if and only if that position reaches the last size, which needs a target of 981765080 bytes |
| `DeltaPlaces.AgreeIsLongest` | deps/libgit2-0.27.2/src/delta.c:343-344 | the number of bytes that agree is that of the longest match between two places |
| `DeltaPlaces.BackMatches` | deps/libgit2-0.27.2/src/delta.c:369-381 | a match that is extended backwards is a match |
| `DeltaPlaces.BestIsLongest` | deps/libgit2-0.27.2/src/delta.c:332-352 | in a chain that is in order the search finds the longest match, or one of 4096 bytes, although it stops at the first entry with too little of the base behind it |
| `DeltaPlaces.LaterAreShorter` | deps/libgit2-0.27.2/src/delta.c:339-342 | entries behind one with too little of the base behind it have no longer match |
| `DeltaPlaces.EndIsBelowPeak` | deps/libgit2-0.27.2/src/delta.c:327-435 | the encoder does not end behind its furthest position |
| `DeltaLengths.FoundIsLongest` | deps/libgit2-0.27.2/src/delta.c:327-352 | at each place the match is the longest of the bucket, unless one of 4096 bytes was found or carried over |
| `DeltaLengths.SameFile` | deps/libgit2-0.27.2/src/delta.c:270-449 | a file against itself becomes the header and copies of 64 KB each, with less than four bytes inserted at its end; up to 19 bytes are inserted: this is the exact length, and the encoder never comes further |
| `DeltaLengths.SelfIsShort` | deps/libgit2-0.27.2/src/delta.c:386-407 | that is at most three bytes behind the header for a file of 20 bytes to 64 KB, and seven for each 64 KB beyond |
| `DeltaLengths.PrefixIsShort` | deps/libgit2-0.27.2/src/delta.c:270-449 | for a target that starts with the first n bytes of the base, 20 or more, the encoder comes no further than the header, 30 bytes, seven for each 64 KB of the n, and eight for each five of the rest |
| `DeltaLengths.ApartIsInserted` | deps/libgit2-0.27.2/src/delta.c:356-367 | for a target that has no four bytes of the base, or an index without entries, it ends at the header, the literals and one count for each 127 of them |
| `DeltaLengths.OneMoreLiteral` | deps/libgit2-0.27.2/src/delta.c:356-367 | one literal more keeps that count |
| `DeltaLengths.NewIsWritten` | deps/libgit2-0.27.2/src/delta.c:356-367 | what follows the last match is written byte by byte, so that the encoder ends no earlier |
| `DeltaLengths.ZerosAreApart` | deps/libgit2-0.27.2/src/delta.c:422-434 | zeros behind a base that has none are not found in it |
| `DeltaLengths.IndexHasFirst` | deps/libgit2-0.27.2/src/delta.c:198-245 | the first block of a base is at the front of its bucket, after culling as well |
| `DeltaLengths.EndsBeforePeak` | deps/libgit2-0.27.2/src/delta.c:369-381 | a base of 33 bytes and a target of 48 for which the encoder, taking fifteen literals back, ends at least twelve bytes before its furthest position |
| `DeltaCommands.DeltaMeans` | deps/libgit2-0.27.2/src/delta.c:527-619 | for every list of commands, with any operand bytes given or left out, and every pair of sizes: the delta gives what its commands give if it is for a base of this size, no command reaches over the base and together they give as much as the header says; otherwise it is refused |
| `DeltaCommands.OpIsRead` | deps/libgit2-0.27.2/src/delta.c:564-604 | a command is read as itself, a copy from its four offset and three size bytes, and refused if and only if it reaches over the base or the result |
| `DeltaCommands.NoCommand` | deps/libgit2-0.27.2/src/delta.c:588-604 | the reserved command and an insert that is cut off are refused |
| `DeltaCommands.SizeBytesAre` | deps/libgit2-0.27.2/src/delta.c:293-310 | a size is written in digits of seven bits, the lowest first, with the top bit on all but the last |
| `GitDelta.Diff` | deps/libgit2-0.27.2/src/delta.h:62-86 | index, encoder and the real tables together: nothing for an empty side, and otherwise, with the index of the base, the delta of the length at which the encoder ends, unless its furthest position is behind the limit or, without one, reaches the last size |
| `GitDelta.DiffLength` | deps/libgit2-0.27.2/src/delta.c:270-449 | what that means: the exact length and the exact limit for a target that is the base and for one that has nothing of it; no refusal when the limit is that of a common start; and no delta when more than the limit follows the last match |
| `GitDelta.DiffOfSame` | deps/libgit2-0.27.2/src/delta.c:438-445 | with no limit, or one that is at least the length of the copies, a file against itself always has a delta, of that length |
| `GitDelta.RefusedThoughShort` | deps/libgit2-0.27.2/src/delta.c:422-445 | with a limit that the whole delta is within a target is refused, because the encoder had passed the limit on the way |
| `GitDelta.TooLong` | deps/libgit2-0.27.2/src/delta.c:422-434 | for a base of at most 16 bytes the literals reach the end of the last size if and only if the target has 1558552067 bytes or more |
| `GitDelta.MatchesAndWraps` | deps/libgit2-0.27.2/src/delta.c:422-434 | a target for each base without zero bytes that starts with the whole base, so that a match is there to be found, and for which the size wraps |
| `GitDelta.DiffAndApply` | deps/libgit2-0.27.2/src/delta.c:527-619 | encoding without a limit and decoding gives the target back, for every base up to 2^31 bytes and every target of 32-bit length, unless the size of the buffer wraps, which needs 981765080 bytes and is exact for a base of at most 16 |
| `JsonString.QuotedIsParsed` | src/json/cJSON.c:676-802 | a string that is printed is parsed as itself, with any text behind it |
| `JsonString.UnescapeEscaped` | src/json/cJSON.c:724-777 | the loop that takes escapes away undoes the one that makes them, for every string without NUL |
| `JsonString.ClosingEscaped` | src/json/cJSON.c:693-711 | the closing quote of a printed string is found behind its last character, however many quotes and backslashes it has |
| `JsonString.Utf8IsDecoded` | src/json/cJSON.c:618-667 | the bytes written for a code point up to 0x10FFFF are well-formed UTF-8, with the right tails and the least length, that decodes to it, if and only if it is no surrogate |
| `JsonString.LiteralIsUtf8` | src/json/cJSON.c:571-611 | whatever an escape or a pair of escapes is replaced by is well-formed UTF-8 |
| `JsonString.PairIsUnique` | src/json/cJSON.c:580-611 | every code point above 0xFFFF has just one pair of surrogates that is read as it |
| `JsonEscapes.EscapeIsCodePoint` | src/json/cJSON.c:555-673 | four hexadecimal digits, in either case, of a code point that is no surrogate, and the eight of a surrogate pair stand for that code point in UTF-8 |
| `JsonEscapes.UnitIsRead` | src/json/cJSON.c:722-780 | each way of RFC 8259 to write a character, as it is, by a letter, by four digits or by eight, is read as that character |
| `JsonEscapes.SpelledIsParsed` | src/json/cJSON.c:676-802 | a string in any spelling is parsed as the string, up to a NUL in it, with any text behind it |
| `JsonEscapes.ReadIsUnit` | src/json/cJSON.c:722-780 | whatever an escape is taken for was written so, but for bad hexadecimal digits and a backslash in front of the closing quote |
| `JsonEscapes.EscapeIsShortest` | src/json/cJSON.c:805-930 | a character is printed in the shortest spelling that RFC 8259 allows |
| `JsonEscapes.EscapeIsSpelled` | src/json/cJSON.c:805-930 | which is one of its spellings, with lower case digits |
| `JsonEscapes.PrintedArray` | src/json/cJSON.c:1413-1472 | the layout of an array with two items, formatted or not |
| `JsonEscapes.PrintedObject` | src/json/cJSON.c:1584-1695 | the layout of an object with a member, formatted or not |
| `JsonGrammar.ValueWritten` | src/json/cJSON.c:1190-1242 | every value in any layout and spelling, with any text behind it, is parsed as what it means if its brackets are nested at most as deep as allowed, and refused otherwise |
| `JsonGrammar.WrittenIsParsed` | src/json/cJSON.c:978-1055 | every text of the grammar is parsed as the value that is written, with white space around it and a byte order mark in front |
| `JsonGrammar.ParsedIsWritten` | src/json/cJSON.c:978-1055 | whatever is parsed is a text of the grammar, of that value |
| `JsonGrammar.ParsesIff` | src/json/cJSON.c:978-1055 | the parser accepts just the texts of the grammar, nested at most 1000 deep, and gives the value that is written |
| `JsonComments.OnlyCommentsGo` | src/json/cJSON.c:2607-2675 | from a text of blanks, line and block comments, string literals and other characters the minifier takes out the blanks and the comments, and nothing else |
| `JsonComments.ShortComment` | src/json/cJSON.c:2625-2633 | a block comment that begins with a slash ends at once |
| `JsonRoundTrip.ValueBack` | src/json/cJSON.c:1190-1242 | printed text of a value, with any text behind it, is parsed as the value when the depth allows it, and refused otherwise |
| `JsonRoundTrip.ItemsBack` | src/json/cJSON.c:1319-1410 | the items of a printed array come back in their order |
| `JsonRoundTrip.MembersBack` | src/json/cJSON.c:1475-1581 | the members of a printed object come back with their names and in their order, formatted or not |
| `JsonRoundTrip.PrintedIsParsed` | src/json/cJSON.c:978-1055 | parsing what was printed, formatted or not, gives the same tree if it is nested at most 1000 deep, and fails otherwise |
| `JsonIntegers.IntegerIsReadable` | src/json/cJSON.c:452-515 | an integer of magnitude below 10^15 is printed in 1 to 25 characters that are scanned back as it |
| `JsonIntegers.IntegerTreesComeBack` | src/json/cJSON.c:244-318 | the round trip for trees whose numbers are integers of magnitude below 10^15 |
| `JsonParseBuffer.SkipsOutOfStep` | src/json/cJSON.c:693-714 | counting the skipped characters from one place on in a string, inside an escape or not, gives as many as from the place before or one less |
| `JsonParseBuffer.NextFits` | src/json/cJSON.c:713-777 | one step of the second pass, malformed `\u` escapes included, never writes more than the first pass left room for |
| `JsonParseBuffer.FindClosing` | src/json/cJSON.c:693-711 | the first pass finds the closing quote, or the end, and counts the backslashes |
| `JsonParseBuffer.ParseHex4` | src/json/cJSON.c:518-551 | four hexadecimal digits give their value, anything else zero |
| `JsonParseBuffer.WriteUtf8` | src/json/cJSON.c:650-667 | the bytes are written from the last to the first and are the UTF-8 of the code point |
| `JsonParseBuffer.Utf16ToUtf8` | src/json/cJSON.c:555-673 | an escape or a pair of escapes is replaced by its UTF-8, or refused, as the format says |
| `JsonParseBuffer.UnescapeBody` | src/json/cJSON.c:722-780 | for every input the second pass writes the unescaped string within the allocation made from the first pass |
| `JsonParseBuffer.ParseBuffer.ParseString` | src/json/cJSON.c:676-802 | the method parses what the grammar says at the offset, and moves the offset behind it |
| `JsonParseBuffer.ParseBuffer.ParseNumber` | src/json/cJSON.c:244-318 | at most 63 characters of a number are copied, scanned, and skipped as far as the scan went |
| `JsonParseBuffer.ParseBuffer.ParseValue` | src/json/cJSON.c:1190-1242 | for every buffer the parser gives the value of the grammar or fails with it, never reads past the end, and puts the depth back |
| `JsonParseBuffer.ParseBuffer.ParseArray` | src/json/cJSON.c:1319-1410 | the items up to the closing bracket, with the nesting limit |
| `JsonParseBuffer.ParseBuffer.ParseObject` | src/json/cJSON.c:1475-1581 | the members up to the closing brace, with the nesting limit |
| `JsonParseBuffer.ParseWithOpts` | src/json/cJSON.c:978-1055 | the whole parser on offsets gives, for every text, what the grammar on texts gives |
| `JsonPrintBuffer.PrintBuffer.Ensure` | src/json/cJSON.c:351-436 | space is granted if and only if the capacity allows it; growing keeps the text; nothing but the buffer changes |
| `JsonPrintBuffer.PrintBuffer.UpdateOffset` | src/json/cJSON.c:439-449 | the offset lands on the terminator of the text just written |
| `JsonPrintBuffer.PrintBuffer.PrintString` | src/json/cJSON.c:805-930 | the quoted, escaped string is appended within the granted space, or there is no room for it |
| `JsonPrintBuffer.PrintBuffer.PrintNumber` | src/json/cJSON.c:452-515 | the text of the number is appended, or is too long for the local buffer, or there is no room |
| `JsonPrintBuffer.PrintBuffer.PrintValue` | src/json/cJSON.c:1245-1316 | in any buffer printing succeeds if and only if the text with two more bytes fits and each number is short enough, and then the buffer holds just the text |
| `JsonPrintBuffer.PrintBuffer.PrintArray` | src/json/cJSON.c:1413-1472 | the same for arrays |
| `JsonPrintBuffer.PrintBuffer.PrintObject` | src/json/cJSON.c:1584-1695 | the same for objects, formatted or not |
| `JsonPrintBuffer.Print` | src/json/cJSON.c:1065-1138 | a fresh buffer that grows gives the text |
| `JsonPrintBuffer.PrintBuffered` | src/json/cJSON.c:1140-1168 | any prebuffer gives the same text |
| `JsonPrintBuffer.PrintPreallocated` | src/json/cJSON.c:1170-1187 | a buffer of the caller gives the same text if it fits with two more bytes, and fails otherwise |
| `JsonPrintBuffer.TextHasNoNul` | src/json/cJSON.c:1245-1316 | printed text has no NUL, so that it is a C string of its own length |
| `JsonMinify.CopyLiteral` | src/json/cJSON.c:2652-2664 | a string literal is copied as it is, with its escaped quotes |
| `JsonMinify.MinifyOne` | src/json/cJSON.c:2607-2675 | one pass of the loop: the write index stays behind the read index, and what is written is the minified text so far |
| `JsonMinify.Minify` | src/json/cJSON.c:2607-2675 | in place, the array starts with the minified text and is not changed behind it |
| `JsonMinifyMeaning.MinifyKeepsMeaning` | src/json/cJSON.c:2607-2675 | every text that the parser accepts to its end is minified to a text that parses to the same tree |
| `JsonMinifyMeaning.MinifiedPrint` | src/json/cJSON.c:2607-2675 | minifying the formatted print of a tree gives its unformatted print |
| `JsonList.GetArraySize` | src/json/cJSON.c:1698-1719 | the number of children |
| `JsonList.GetArrayItem` | src/json/cJSON.c:1721-1748 | the child at an index, or none when it is out of range |
| `JsonList.AddItemToArray` | src/json/cJSON.c:1822-1849 | the children with one more at the end; of the parent only its child field changes, and of the other nodes only the links of the children and the item |
| `JsonList.InsertItemInArray` | src/json/cJSON.c:2119-2146 | the children with one inserted at the index, or at the end, within the same frame |
| `JsonList.DetachItemViaPointer` | src/json/cJSON.c:2049-2077 | the children without the item, which has no neighbours left, within the same frame |
| `JsonList.DetachItemFromArray` | src/json/cJSON.c:2079-2087 | the child at an index is taken out and returned, within the same frame |
| `JsonList.ReplaceItemViaPointer` | src/json/cJSON.c:2148-2181 | the children with one replaced, in first, middle and last place, within the same frame |
| `JsonList.AddSubtree` | src/json/cJSON.c:1822-1849 | in a tree, adding an item keeps the list that the parent itself is in and the children of the item |
| `JsonList.ReplaceSubtree` | src/json/cJSON.c:2148-2181 | in a tree, replacing an item keeps the list that the parent itself is in and the children of both items |
| `BlameBoard.SplitMoves` | deps/libgit2-0.27.2/src/blame_git.c:134-171 | the up to three parts of an entry cover its lines, and each line is blamed on the parent just when it is in the range that is passed |
| `BlameBoard.ChunkMoves` | deps/libgit2-0.27.2/src/blame_git.c:296-315 | `blame_chunk` as a whole: the same lines are covered, and each line moves by the rule for one line |
| `BlameBoard.PassMoves` | deps/libgit2-0.27.2/src/blame_git.c:317-406 | after all hunks, the last call with `tlno` behind `last_in_target` included, a line is blamed on the parent line it came from or on what it was blamed on |
| `BlameBoard.SourceIsEqual` | deps/libgit2-0.27.2/src/blame_git.c:317-329 | a line outside of the hunks is equal to the parent line it is traced to |
| `BlameBoard.PassMeans` | deps/libgit2-0.27.2/src/blame_git.c:384-406 | passing blame along the hunks of a diff keeps the entries a partition in which each line reads the same at its suspect |
| `BlameBoard.WholeMeans` | deps/libgit2-0.27.2/src/blame_git.c:482-500 | so does giving everything to a parent whose file is the same |
| `BlameBoard.OwnedMeans` | deps/libgit2-0.27.2/src/blame_git.c:624-658 | so does taking responsibility |
| `BlameBoard.RunMeans` | deps/libgit2-0.27.2/src/blame_git.c:624-658 | over every run of these steps the entries cover the lines of the start and each line reads the same at its suspect |
| `BlameOrigins.Incref` | deps/libgit2-0.27.2/src/blame_git.c:19-24 | one user more is one reference more, and all counts stay exact |
| `BlameOrigins.Joined` | deps/libgit2-0.27.2/src/blame_git.c:38-62 | a new origin with the count of one variable keeps all counts exact |
| `BlameOrigins.Decref` | deps/libgit2-0.27.2/src/blame_git.c:26-35 | one user less: an origin with more than one reference stays, one without is freed, one after the other along `previous`, and all counts stay exact |
| `BlameOrigins.Precede` | deps/libgit2-0.27.2/src/blame_git.c:572-575 | an origin gets its previous origin, which gains a reference, and all counts stay exact |
| `BlameOrigins.Exchange` | deps/libgit2-0.27.2/src/blame_git.c:207-215 | taking the new reference before the old one is dropped never frees an origin in use |
| `BlameParents.PassedNothing` | deps/libgit2-0.27.2/src/blame_git.c:99-118 | a board on which nothing is left that the origin is suspected for is not changed by passing to any parents |
| `BlameParents.KeptAreParents` | deps/libgit2-0.27.2/src/blame_git.c:555-564 | only what was found in a parent is kept |
| `BlameParents.KeptFor` | deps/libgit2-0.27.2/src/blame_git.c:555-564 | for each parent in which the file was found one with the same blob is kept |
| `BlameParents.KeptDiffer` | deps/libgit2-0.27.2/src/blame_git.c:555-564 | no two that are kept have the same blob |
| `BlameParents.SameBlobOrNone` | deps/libgit2-0.27.2/src/blame_git.c:539-546 | everything is given to a parent if and only if one has the same blob |
| `BlameScoreboard.Scoreboard.AddBlameEntry` | deps/libgit2-0.27.2/src/blame_git.c:177-197 | the entry goes in at its place in the order, both links of its neighbours are right, and its origin is counted |
| `BlameScoreboard.Scoreboard.DupEntry` | deps/libgit2-0.27.2/src/blame_git.c:204-216 | the contents are replaced, the links and the place are kept, and both origins are counted right |
| `BlameScoreboard.Scoreboard.SplitOverlap` | deps/libgit2-0.27.2/src/blame_git.c:134-171 | the three parts computed with pointers are those of the list of pieces |
| `BlameScoreboard.Scoreboard.SplitBlame` | deps/libgit2-0.27.2/src/blame_git.c:222-258 | all four cases of a split put the parts in the place of the entry |
| `BlameScoreboard.Scoreboard.BlameOverlap` | deps/libgit2-0.27.2/src/blame_git.c:275-289 | an entry is replaced by its parts, and every reference that the split took is given back |
| `BlameScoreboard.Scoreboard.BlameChunk` | deps/libgit2-0.27.2/src/blame_git.c:296-315 | the list becomes the one the specification gives, stays sorted and linked both ways; the reference count of every origin that is left changes by just the change in the number of entries that name it and of origins that it is the previous one of, and no entry names a freed one |
| `BlameScoreboard.Scoreboard.PassWholeBlame` | deps/libgit2-0.27.2/src/blame_git.c:482-500 | the suspect of each entry is exchanged, with the same exact change of the counts |
| `BlameScoreboard.Scoreboard.TakeResponsibility` | deps/libgit2-0.27.2/src/blame_git.c:643-651 | the entries of the suspect are guilty, and no others change |
| `BlameScoreboard.Scoreboard.FindLastInTarget` | deps/libgit2-0.27.2/src/blame_git.c:99-118 | the end of the last line that the target is suspected for, if there is one |
| `BlameScoreboard.Scoreboard.PassBlameToParent` | deps/libgit2-0.27.2/src/blame_git.c:384-406 | the loop over the hunks and the last call give the specified board |
| `BlameScoreboard.Scoreboard.MakeOrigin` | deps/libgit2-0.27.2/src/blame_git.c:38-62 | the new origin has one reference and is held by the caller alone |
| `BlameScoreboard.Scoreboard.GetOrigin` | deps/libgit2-0.27.2/src/blame_git.c:65-79 | a new origin always, and one reference more, which nobody gives back, for each entry with the same commit object and path |
| `BlameScoreboard.Scoreboard.FindOrigin` | deps/libgit2-0.27.2/src/blame_git.c:415-476 | the origin found by its old path or by renames is new; the counts taken beside it are as many as entries match, or as renames were dropped |
| `BlameScoreboard.Scoreboard.Collect` | deps/libgit2-0.27.2/src/blame_git.c:528-565 | the first loop: the first parent with the same blob, or the parents without those whose blob an earlier one has; the origins of these, of the whole one and of the lost counts are all that has come into the account: the others are freed again, and none that was there before is |
| `BlameScoreboard.Scoreboard.SetPrevious` | deps/libgit2-0.27.2/src/blame_git.c:572-575 | only the first parent becomes the previous origin |
| `BlameScoreboard.Scoreboard.PassToParents` | deps/libgit2-0.27.2/src/blame_git.c:568-583 | the second loop gives the board of passing to each parent in turn, although it stops when nothing is left, and the first of them is the previous origin if there was none |
| `BlameScoreboard.Scoreboard.PassBlame` | deps/libgit2-0.27.2/src/blame_git.c:502-596 | everything goes to the first parent with the same blob, or the blame is passed to each different parent in turn; the entries stay a partition that means the same, all counts stay exact, and every reference taken is given back but for the lost ones of `git_blame__get_origin` and `find_origin`, of which the number is given |
| `BlameScoreboard.Scoreboard.FindSuspect` | deps/libgit2-0.27.2/src/blame_git.c:630-635 | the suspect of the first entry that is not guilty, or none when all are |
| `BlameScoreboard.Scoreboard.Round` | deps/libgit2-0.27.2/src/blame_git.c:637-652 | one round gives the board of passing and taking responsibility, keeps the partition and its meaning, loses just as many counts as its searches do, and leaves nothing that the suspect is still to be asked for |
| `BlameScoreboard.Scoreboard.Report` | deps/libgit2-0.27.2/src/blame.c:343-351 | each entry becomes its hunk and gives its share in its origin back |
| `BlameHistory.StageMeans` | deps/libgit2-0.27.2/src/blame_git.c:624-652 | after any number of rounds over any history the entries cover the lines of the start and each line reads the same at its suspect |
| `BlameHistory.PassedIsHanded` | deps/libgit2-0.27.2/src/blame_git.c:568-583 | passing to parents of earlier generations leaves each line with its suspect or hands it to an earlier generation |
| `BlameHistory.RoundLowers` | deps/libgit2-0.27.2/src/blame_git.c:637-652 | a round brings no line further from its end, and every line of the suspect nearer |
| `BlameHistory.EndsIn` | deps/libgit2-0.27.2/src/blame_git.c:624-655 | after as many rounds as the lines are generations away from their end every entry is guilty |
| `BlameHistory.Settled` | deps/libgit2-0.27.2/src/blame_git.c:624-636 | and then no number of further rounds changes anything |
| `BlameHistory.StaysInHunks` | deps/libgit2-0.27.2/src/blame_git.c:317-406 | a line of the suspect that is handed to none of the parents is in a hunk of each of them |
| `BlameHistory.GuiltyBrings` | deps/libgit2-0.27.2/src/blame_git.c:637-652 | who becomes guilty of a line in a round is its suspect and brought it: no parent has the same blob, and for each parent in which the file was found there is one with its blob against which the line is in a hunk |
| `BlameHistory.GuiltyStays` | deps/libgit2-0.27.2/src/blame_git.c:482-500 | a guilty line stays with its suspect, unless a later round gives all of that suspect to a parent with the same file |
| `BlameHistory.GuiltyBrought` | deps/libgit2-0.27.2/src/blame_git.c:624-652 | over a whole run: each line that somebody is guilty of was brought in some round by the suspect it had then, and stays with it, unless that suspect is looked at again and then gives its file away |
| `BlameHistory.TheGuiltyBrought` | deps/libgit2-0.27.2/src/blame_git.c:624-652 | and so, where looking at a suspect again finds the same, whoever is guilty of a line in the end brought it |
| `BlameLosses.OneParentLosesNothing` | deps/libgit2-0.27.2/src/blame_git.c:65-79 | where each commit is looked at with at most one parent, and no rename is dropped, no round of any run loses a count |
| `BlameLosses.MergeIsTruthful` | deps/libgit2-0.27.2/src/blame_git.c:415-476 | a history of four commits with one merge: the hunks are diffs of its files, files with one blob are equal, and `git_blame__get_origin` is only asked where the file did not change |
| `BlameLosses.MergeLoses` | deps/libgit2-0.27.2/src/blame_git.c:65-79 | the run over that history ends after five rounds, and has lost one count |
| `BlameRun.LikeGit` | deps/libgit2-0.27.2/src/blame_git.c:624-655 | the loop makes the rounds of the history, from the first entry that is not guilty each time, and ends after at most as many as the lines are generations away from their end; then every entry is guilty, the entries cover the lines of the start, each line reads the same, and the counts lost are those of the rounds |
| `BlameRun.YoungestIsOwned` | deps/libgit2-0.27.2/src/blame_git.c:19-35 | origins that own each other along `previous` do not keep each other, since previous origins are of earlier generations |
| `BlameRun.BlameInternal` | deps/libgit2-0.27.2/src/blame.c:314-354 | for every history the first hunk starts at the first line asked for, or at 1, the last ends at the last one, or at the end of the file, and they tile what is between; they are those of the entries after the rounds of the history, all of them guilty, and each line reads as in the file of its hunk; and in the end all origins are freed if and only if these rounds, a function of the lines and of what is found in the parents, lose no count |
| `BlameRun.BlameOfRoot` | deps/libgit2-0.27.2/src/blame.c:324-333 | for lines 0 < min <= max of a file in a commit without parents: one hunk of just these lines, and no origin is left |
| `BlameRun.MergeKeepsAnOrigin` | deps/libgit2-0.27.2/src/blame.c:314-354 | over the history with the merge the three lines are reported right, and an origin is left that nobody frees |
| `ThreadPoolRuns.RunInv` | src/threadpool/threadpool.c:80-153 | the invariant holds in every state of every run, with any number of threads and spurious wakeups |
| `ThreadPoolRuns.ExactlyOnce` | src/threadpool/threadpool.c:80-153 | only submitted jobs are called, each at most once and with its own parameter, and a job has been called if and only if it is running or finished |
| `ThreadPoolRuns.JobsAreKept` | src/threadpool/threadpool.c:80-153 | at any time a submitted job is with its submitter, in one slot, on one worker, or finished; no two share a slot; and the slot holds its function and parameter |
| `ThreadPoolRuns.NoJobIsOverwritten` | src/threadpool/threadpool.c:90-93 | a submitter that is about to write finds the slot empty and has its lock |
| `ThreadPoolRuns.StackIsSafe` | src/threadpool/threadpool.c:84-98 | the header is at least -1 and below the size, no slot is on the stack twice, and no freed slot is on it |
| `ThreadPoolRuns.NoLostWakeup` | src/threadpool/threadpool.c:92-96 | a worker that is asleep with a job in its slot has its submitter still before the signal |
| `ThreadPoolRuns.StepInv` | src/threadpool/threadpool.c:80-153 | every step of every thread keeps the invariant |
| `ThreadPoolRuns.StartExists` | src/threadpool/threadpool.c:48-74 | there is a start, and so a run, for each size of the pool |
| `ThreadPoolSteps.SubPopInv` | src/threadpool/threadpool.c:98-98 | popping keeps the invariant while the worker may already be running the job |
| `ThreadPoolSteps.SubSetFnInv` | src/threadpool/threadpool.c:92-92 | so does writing the function before the parameter |
| `ThreadPoolSteps.PushInv` | src/threadpool/threadpool.c:130-131 | so does parking, on a stack that is not full |
| `ThreadPoolSteps.WorkFreeInv` | src/threadpool/threadpool.c:148-150 | so does freeing a slot |
| `ThreadPoolSteps.InitInv` | src/threadpool/threadpool.c:59-72 | the start satisfies the invariant |
| `ThreadPoolSize.ParksOrLeaves` | src/threadpool/threadpool.c:128-152 | over every run: a worker that comes to its test leaves if and only if as many are parked as the pool is to keep, and otherwise parks on top |
| `ThreadPoolSize.LeftWhenFull` | src/threadpool/threadpool.c:128-152 | whenever a worker has left, so many others were parked at its test |
| `ThreadPoolSize.TestFinds` | src/threadpool/threadpool.c:84-87 | a submitter makes a worker if and only if it finds nobody parked |
| `ThreadPoolSize.MadeWhenEmpty` | src/threadpool/threadpool.c:84-87 | whenever a worker was made after the start, nobody was parked when its submitter looked |
| `ThreadPoolSize.AllPark` | src/threadpool/threadpool.c:128-152 | in a run in which nothing is submitted no worker leaves, and those that have passed their test are all parked |
| `ThreadPoolProgress.FirstJob` | src/threadpool/threadpool.c:80-153 | from the start of a pool with a place a job that is submitted can be finished |
| `ThreadPoolProgress.NeverStuck` | src/threadpool/threadpool.c:80-153 | from every state of every run, and for every job submitted, there is a finite number of steps of the program, without new submissions and spurious wakeups, after which the job is finished, if and only if the pool has a place |
| `ThreadPoolProgress.CanFinish` | src/threadpool/threadpool.c:80-153 | the schedule, with a rank of the job that falls with each of its steps |
| `ThreadPoolProgress.SubmitterFrees` | src/threadpool/threadpool.c:82-99 | whoever has the lock of the stack can go on until it is free, waiting for a slot at most while its worker finds no job |
| `ThreadPoolProgress.NoPlaceStays` | src/threadpool/threadpool.c:84-88 | with no place on the stack no submitter ever passes its test |
| `Sha1Stream.CodeIsStandard` | src/sha1/sha1.c:129-160 | the OR forms of the code are Ch and Maj of section 4.1.1 of FIPS 180-4 |
| `Sha1Stream.FillSchedule` | src/sha1/sha1.c:110-121 | the 80 words are the message schedule of section 6.1.2 |
| `Sha1Stream.AllRounds` | src/sha1/sha1.c:123-171 | the four loops are the 80 rounds of section 6.1.2 |
| `Sha1Stream.Context.Process` | src/sha1/sha1.c:103-180 | one block changes the digest as section 6.1.2 says |
| `Sha1Stream.Context.Update` | src/sha1/sha1.c:79-99 | bytes are added to the message, whatever is in the block; full blocks are processed |
| `Sha1Stream.Context.PadBlock` | src/sha1/sha1.c:196-212 | both branches of the padding leave a block with room for the length only, behind a one bit and the fewest zeros |
| `Sha1Stream.Context.Pad` | src/sha1/sha1.c:192-225 | the digest is that of the padded message of section 5.1.1, for messages below 2^61 bytes |
| `Sha1Stream.Context.Final` | src/sha1/sha1.c:55-65 | the digest is SHA-1 of all bytes given to `update` |
| `Sha1Stream.Once` | src/sha1/sha1.c:69-76 | init, update and final give SHA-1 of the message |
| `Sha1Stream.InParts` | src/sha1/sha1.c:79-99 | so does every way of cutting the message into calls |
| `Sha1Example.AbcDigest` | src/sha1/sha1.c:103-180 | the digest of the three octets of abc is that of the example of FIPS 180-4 |
| `Sha1Example.ScheduleAt` | src/sha1/sha1.c:110-121 | every word of the schedule is what section 6.1.2 says by the words before it |
| `Sha1Standard.KIsRoot` | src/sha1/sha1.c:104-105 | the constants are the integer parts of 2^30 times the square roots of 2, 3, 5 and 10 |
| `Sha1Standard.StartOctets` | src/sha1/sha1.c:46-50 | the hash value of section 5.3.1, octet by octet |
| `Sha1Standard.BlocksInTurn` | src/sha1/sha1.c:103-180 | each block starts from the hash value of those before it |
| `Sha1Standard.PadIsSmallest` | src/sha1/sha1.c:192-225 | the number of zeros is the smallest that fills a block |
| `Sha1Standard.BigIsValue` | src/sha1/sha1.c:214-222 | eight octets, the highest first, stand for the length |
| `Sha1Standard.DigestIsWords` | src/sha1/sha1.c:55-65 | the twenty octets of a digest are those of its five words, the highest first |
| `PatchApply.HunkApplies` | deps/libgit2-0.27.2/src/apply.c:163-209 | one hunk of a patch that describes old to new: applied at its place the image is a longer start of new and a shorter end of old; it is refused exactly when it is not found |
| `PatchApply.HunksApply` | deps/libgit2-0.27.2/src/apply.c:211-238 | all hunks give the new lines if each is found, and are refused otherwise; nothing else comes out |
| `PatchApply.PatchApplies` | deps/libgit2-0.27.2/src/apply.c:211-238 | the same for texts |
| `PatchApply.EmptyNewSideIsRefused` | deps/libgit2-0.27.2/src/apply.c:114-130 | a patch that is right but has a hunk with an empty new side, not at the start, is refused |
| `PatchApply.AppliedIf` | deps/libgit2-0.27.2/src/apply.c:163-209 | for every image and hunk, right or not: it applies if and only if the image has the old side where it is looked for, in front of its first line or at the end, and then the new side is there |
| `PatchApply.HunkUndone` | deps/libgit2-0.27.2/src/apply.c:163-209 | the reversed hunk undoes what a hunk did |
| `PatchApply.ReversedSides` | deps/libgit2-0.27.2/src/apply.c:163-209 | additions and deletions exchanged exchange the two sides |
| `PatchApply.SidesOfLine` | deps/libgit2-0.27.2/src/apply.c:163-209 | context is on both sides, deletions and additions on one, other lines on none |
| `PatchApply.OneTooEarly` | deps/libgit2-0.27.2/src/apply.c:114-130 | lines are also found one line too early exactly when all of them equal the line in front of them |
| `PatchApply.LinesJoin` | deps/libgit2-0.27.2/src/apply.c:44-73 | the lines of a text joined are the text |
| `PatchApply.LinesAreLines` | deps/libgit2-0.27.2/src/apply.c:44-73 | each line ends at its newline and has no other; only the last may have none |
| `PatchApply.SplitLines` | deps/libgit2-0.27.2/src/apply.c:44-73 | the loop over the text gives its lines |
| `PatchApply.PatchImage.MatchHunk` | deps/libgit2-0.27.2/src/apply.c:84-112 | the lines are compared at a place, up to the end of the image |
| `PatchApply.PatchImage.FindHunk` | deps/libgit2-0.27.2/src/apply.c:114-130 | the hunk is found at its place, or not at all |
| `PatchApply.PatchImage.UpdateHunk` | deps/libgit2-0.27.2/src/apply.c:132-161 | just the lines of the preimage are replaced by those of the postimage, when there are more, fewer or as many |
| `PatchApply.PatchImage.ApplyHunk` | deps/libgit2-0.27.2/src/apply.c:163-209 | a hunk is applied or the image is left as it is |
| `PatchApply.ApplyHunks` | deps/libgit2-0.27.2/src/apply.c:211-238 | the text that comes out, or the failure, is the specified one for every text and all hunks |
| `ConfigReading.CutAtComment` | deps/libgit2-0.27.2/src/config_parse.c:26-55 | a line is cut at its first comment character outside of quotes with an even number of backslashes before it, and the quotes in front of it are counted |
| `ConfigReading.CommentIsCut` | deps/libgit2-0.27.2/src/config_parse.c:26-55 | behind plain text a comment is cut off and the text is trimmed |
| `ConfigReading.NameIsRead` | deps/libgit2-0.27.2/src/config_parse.c:370-402 | a name, white space and then an equals sign, the end, or something that is refused |
| `ConfigReading.NoName` | deps/libgit2-0.27.2/src/config_parse.c:370-402 | a line that does not start with a name is refused |
| `ConfigReading.ValueIsMeant` | deps/libgit2-0.27.2/src/config_parse.c:270-314 | a value of quotes, escapes and other characters is read unit by unit |
| `ConfigReading.ValueEnds` | deps/libgit2-0.27.2/src/config_parse.c:270-314 | it goes on in the next line if it ends in a backslash, and is refused if it has another escape |
| `ConfigReading.CommentedLine` | deps/libgit2-0.27.2/src/config_parse.c:404-456 | a variable with white space around its sign and a comment behind its value is read as name and value |
| `ConfigValue.ValueIsRead` | deps/libgit2-0.27.2/src/config_file.c:1233-1250 | a value that is written is read as itself when it was quoted, and without the carriage returns, vertical tabs and form feeds at its ends otherwise; never as malformed or continued |
| `ConfigValue.RoundTrip` | deps/libgit2-0.27.2/src/config_file.c:882-913 | the value comes back if and only if it is quoted or does not start or end with one of these three characters |
| `ConfigValue.CarriageReturnIsLost` | deps/libgit2-0.27.2/src/config_file.c:1233-1250 | a value that is one carriage return is read as empty |
| `ConfigValue.LineIsVariable` | deps/libgit2-0.27.2/src/config_file.c:1218-1250 | the written line is never taken for a section, a comment or a blank line |
| `ConfigValue.EscapeValue` | deps/libgit2-0.27.2/src/config_file.c:882-913 | the loop gives the escaped value |
| `ConfigValue.QuotesForValue` | deps/libgit2-0.27.2/src/config_file.c:1187-1203 | quotes are used for a value that is empty, has a space at an end or has a comment character |
| `ConfigValue.WriteData.WriteValue` | deps/libgit2-0.27.2/src/config_file.c:1218-1250 | the line is appended, and a value that is written once is not written again |
| `ConfigValue.SetAndRead` | deps/libgit2-0.27.2/src/config_file.c:1233-1250 | the two halves together |
| `ConfigValue.LineIsNotCut` | deps/libgit2-0.27.2/src/config_parse.c:26-55 | no part of a written line is taken for a comment, whatever the value holds |
| `ConfigValue.ValueIsUnescaped` | deps/libgit2-0.27.2/src/config_parse.c:270-314 | unescaping undoes escaping, with and without quotes |
| `ConfigValue.NameIsParsed` | deps/libgit2-0.27.2/src/config_parse.c:370-402 | the name ends before the equals sign and the value starts behind it |
| `ConfigValue.CutComments` | deps/libgit2-0.27.2/src/config_parse.c:26-55 | the loop stops at the comment, counts quotes and trims the end |
| `ConfigValue.NameAndValue` | deps/libgit2-0.27.2/src/config_parse.c:370-402 | the loop splits a line into name and value, or refuses the name |
| `ConfigValue.UnescapeLine` | deps/libgit2-0.27.2/src/config_parse.c:270-314 | the loop gives the unescaped value, a continuation, or a bad escape |
| `ConfigValue.ReadVariable` | deps/libgit2-0.27.2/src/config_parse.c:404-455 | a line is read as the specification says |
| `LineEndings.CleanUndoesSmudge` | deps/libgit2-0.27.2/src/crlf.c:122-185 | for all attributes, with or without a carriage return in the index: when clean refuses what was checked out, and, when it does not, when it gives the blob back, both exactly |
| `LineEndings.NoPairsComeBack` | deps/libgit2-0.27.2/src/crlf.c:122-185 | so a blob without CR-LF pairs comes back under AUTO, TEXT and CRLF, unless safecrlf is FAIL |
| `LineEndings.SameHeuristic` | deps/libgit2-0.27.2/src/crlf.c:226-270 | the binary heuristic gives the same answer for the blob and for what is checked out, for all attributes |
| `LineEndings.SmudgeTwice` | deps/libgit2-0.27.2/src/crlf.c:226-270 | checking out what was checked out changes nothing, for all attributes |
| `LineEndings.ApplyToOdb` | deps/libgit2-0.27.2/src/crlf.c:122-185 | the branches in their order give the specified result |
| `LineEndings.ApplyToWorkdir` | deps/libgit2-0.27.2/src/crlf.c:226-270 | the branches in their order give the specified result |
| `LineEndings.CheckoutAndCommit` | deps/libgit2-0.27.2/src/crlf.c:122-270 | both directions one after the other, for all attributes, with the same exact conditions |
| `LineEndingRules.EndingIs` | deps/libgit2-0.27.2/src/crlf.c:187-224 | which attributes and settings make the working tree have CR-LF |
| `LineEndingRules.WorkedIs` | deps/libgit2-0.27.2/src/crlf.c:226-270 | for every blob: each newline gets its carriage return if the ending is CR-LF, unless the file is binary or has a bare carriage return, or under GUESS has a pair; otherwise nothing changes |
| `LineEndingRules.CleanedIs` | deps/libgit2-0.27.2/src/crlf.c:122-185 | for every file: when it is refused, and when each pair loses its carriage return or nothing changes |
| `LineEndingRules.CountsAre` | deps/libgit2-0.27.2/src/buf_text.c:268-315 | each character is counted once: NULs, carriage returns, newlines, pairs, unprintable characters and the others |
| `LineEndingRules.BinaryIs` | deps/libgit2-0.27.2/src/buf_text.c:268-315 | a text is binary if it has a NUL or more than one unprintable character for each 128 others that are no line ends; a last character 26 does not count |
| `LineEndings.LfAfterCrlf` | deps/libgit2-0.27.2/src/buf_text.c:64-153 | converting to LF after converting to CRLF is converting to LF |
| `LineEndings.CrlfTwice` | deps/libgit2-0.27.2/src/buf_text.c:111-153 | converting to CRLF twice is converting once |
| `LineEndings.ToLfShrinks` | deps/libgit2-0.27.2/src/buf_text.c:64-109 | converting to LF never makes a text longer, and leaves it alone if and only if it has no CR-LF pair |
| `LineEndings.StatsConverted` | deps/libgit2-0.27.2/src/buf_text.c:268-315 | every count after the conversion follows from the counts before it, a DOS end of file character included |
| `LineEndings.CrlfToLf` | deps/libgit2-0.27.2/src/buf_text.c:64-109 | the loop over chunks gives the text, within the space allocated once, with its NUL |
| `LineEndings.LfToCrlf` | deps/libgit2-0.27.2/src/buf_text.c:111-153 | the loop over lines gives the text, mixed line endings included |
| `LineEndings.GatherStats` | deps/libgit2-0.27.2/src/buf_text.c:268-315 | the counters and the verdict are those of the characters |
| `SignedCommit.FoldedIsRead` | deps/libgit2-0.27.2/src/commit.c:832-849 | reading a field with its continuation lines undoes writing it, for every value |
| `SignedCommit.ReadFieldValue` | deps/libgit2-0.27.2/src/commit.c:753-768 | the loop over the continuation lines gives the value and the position behind it, or finds that it does not end |
| `SignedCommit.ReadIsFolded` | deps/libgit2-0.27.2/src/commit.c:743-768 | and what is read is only what was written so |
| `SignedCommit.SignatureComesBack` | deps/libgit2-0.27.2/src/commit.c:705-796 | extraction gives the signature and the commit back if and only if the header, from its first line that starts with the field name on, is nothing but copies of this signature |
| `SignedCommit.UnsignedCommitComesBack` | deps/libgit2-0.27.2/src/commit.c:705-796 | so it does when no header line starts with the field name |
| `SignedCommit.OtherFieldIsCut` | deps/libgit2-0.27.2/src/commit.c:743-749 | it never does when the first such line is a field with a longer name: the name is cut |
| `SignedCommit.OtherFieldExists` | deps/libgit2-0.27.2/src/commit.c:743-749 | there is such a commit |
| `SignedCommit.ExtractedFits` | deps/libgit2-0.27.2/src/commit.c:733-776 | what is extracted is never longer than the text |
| `SignedCommit.SignatureIsFound` | deps/libgit2-0.27.2/src/commit.c:705-796 | a signature is found wherever it is among the lines, if none in front of it starts with the field name, and the other lines are what was signed |
| `SignedCommit.NothingIsFound` | deps/libgit2-0.27.2/src/commit.c:705-796 | where no line starts with the field name nothing is found |
| `SignedCommit.FormatHeaderField` | deps/libgit2-0.27.2/src/commit.c:832-849 | the loop writes the folded value |
| `SignedCommit.CreateWithSignature` | deps/libgit2-0.27.2/src/commit.c:851-891 | the signature goes in at the end of the header, and a commit without a blank line is refused |
| `SignedCommit.ExtractSignature` | deps/libgit2-0.27.2/src/commit.c:705-796 | the two loops give the specified result for every text |
| `SignedCommit.SignAndExtract` | deps/libgit2-0.27.2/src/commit.c:705-891 | both one after the other, with the exact condition for getting everything back |
| `GitBuffer.Buffer.Grow` | deps/libgit2-0.27.2/src/buffer.c:36-100 | the contents are kept and the new size is enough and a multiple of eight |
| `GitBuffer.Buffer.Put` | deps/libgit2-0.27.2/src/buffer.c:209-224 | the bytes are appended, with a NUL behind them |
| `Base85.DecodeUndoesEncode` | deps/libgit2-0.27.2/src/buffer.c:337-456 | decoding an encoded byte string, with its length, gives the string |
| `Base85.AcceptedTexts` | deps/libgit2-0.27.2/src/buffer.c:396-456 | a text is accepted if and only if its length fits and each block in use has five digits with a value of at most 2^32 - 1 |
| `Base85.EncodeUndoesDecode` | deps/libgit2-0.27.2/src/buffer.c:337-456 | for whole blocks, encoding what was decoded gives the text that was read |
| `Base85.AddLastDigit` | deps/libgit2-0.27.2/src/buffer.c:431-436 | the overflow test on 32 bits lets a value pass if and only if it is at most 2^32 - 1 |
| `Base85.EncodeBase85` | deps/libgit2-0.27.2/src/buffer.c:337-374 | the loops append the text within the space that was ensured |
| `Base85.ReadBlock` | deps/libgit2-0.27.2/src/buffer.c:415-436 | the loop over the digits gives the value of the block or fails |
| `Base85.WriteBytes` | deps/libgit2-0.27.2/src/buffer.c:438-443 | turning the word around gives its bytes, the highest first, as many as are asked for |
| `Base85.DecodeBase85` | deps/libgit2-0.27.2/src/buffer.c:396-456 | the bytes are appended, or the buffer is as before |
| `Base85.EncodeAndDecode` | deps/libgit2-0.27.2/src/buffer.c:337-456 | the two methods one after the other |
| `Base64.DecodeOfEncode` | deps/libgit2-0.27.2/src/buffer.c:235-332 | decoding gives the data with its padding decoded as zeros |
| `Base64.WholeGroupsComeBack` | deps/libgit2-0.27.2/src/buffer.c:235-332 | so that just the data comes back if and only if its length is a multiple of three |
| `Base64.AcceptedTexts` | deps/libgit2-0.27.2/src/buffer.c:297-332 | for every text: it is accepted if and only if its length is a multiple of four and each character is a digit or padding, wherever |
| `Base64.EncodeBase64` | deps/libgit2-0.27.2/src/buffer.c:235-275 | the loop and the rest append the text within the space that was ensured |
| `Base64.DecodeBase64` | deps/libgit2-0.27.2/src/buffer.c:297-332 | the bytes are appended, or the buffer is as before |
| `Quoting.QuoteRoundTrip` | deps/libgit2-0.27.2/src/buffer.c:891-1029 | what is quoted is unquoted to itself, for all bytes; and only what is quoted starts with a quote |
| `Quoting.ByteRoundTrip` | deps/libgit2-0.27.2/src/buffer.c:919-939 | a byte that is written raw, as a letter or in octal is read back, with anything behind it |
| `Quoting.QuoteIsInjective` | deps/libgit2-0.27.2/src/buffer.c:891-954 | no two byte strings are quoted alike |
| `Quoting.QuotedIsPrintable` | deps/libgit2-0.27.2/src/buffer.c:917-940 | a quoted text has only printable ASCII characters |
| `Quoting.QuoteBuffer` | deps/libgit2-0.27.2/src/buffer.c:891-954 | the buffer holds the quoted text |
| `Quoting.ReadStep` | deps/libgit2-0.27.2/src/buffer.c:968-1016 | one character of the quoted text, with its escape, or the refusal |
| `Quoting.UnquoteBuffer` | deps/libgit2-0.27.2/src/buffer.c:957-1029 | in place, with the write index behind the read index, the buffer holds the unquoted text, or it is refused |
| `Quoting.QuoteAndUnquote` | deps/libgit2-0.27.2/src/buffer.c:891-1029 | quoting and unquoting a buffer leaves it as it was |
| `KnownAnswers.Base64Digits0To15` | deps/libgit2-0.27.2/src/buffer.c:232-233 | the first digits of table 1 of RFC 4648; three lemmas like this have the others |
| `KnownAnswers.Base64Digits48To63` | deps/libgit2-0.27.2/src/buffer.c:232-233 | the last digits |
| `KnownAnswers.Foobar` | deps/libgit2-0.27.2/src/buffer.c:235-275 | the examples of RFC 4648 for six, five and four octets |
| `KnownAnswers.Base85Digits0To16` | deps/libgit2-0.27.2/src/buffer.c:334-335 | the first digits of base 85; four lemmas like this have the others |
| `KnownAnswers.Base85Digits68To84` | deps/libgit2-0.27.2/src/buffer.c:334-335 | the last digits |
| `KnownAnswers.OneWord` | deps/libgit2-0.27.2/src/buffer.c:337-374 | the highest byte and the highest digit come first |
| `KnownAnswers.Escapes` | deps/libgit2-0.27.2/src/buffer.c:919-939 | the letters of the characters 7 to 13 |
| `KnownAnswers.OctalDigits` | deps/libgit2-0.27.2/src/buffer.c:919-939 | other bytes that are not printable have three octal digits of their value, the highest first |
| `KnownAnswers.SignedExample` | deps/libgit2-0.27.2/src/commit.c:832-891 | a signature of two lines in a small commit, under the default field |
| `QuotingRules.BodyIsReadIf` | deps/libgit2-0.27.2/src/buffer.c:957-1029 | every text between quotes is a row of bytes, letters and octal escapes, and read as these, or goes on with a backslash that is no escape, and is refused |
| `QuotingRules.BodyIsMeant` | deps/libgit2-0.27.2/src/buffer.c:957-1029 | octal escapes for printable bytes and quotes without a backslash are read as well |
| `Quoting.SpaceIsLost` | deps/libgit2-0.27.2/src/patch_parse.c:55-75 | the path `a ` is written as it is and read as `a` |
| `Quoting.PathComesBack` | deps/libgit2-0.27.2/src/patch_parse.c:55-75 | the path of a patch is read back if and only if it was quoted or does not end in white space: a path that ends in a space is not quoted, and is trimmed |

## Left out

- Allocation failure, `size_t` overflow checks and freeing of memory: allocation succeeds. The one 32-bit size computation that matters, in the delta encoder, is modelled.
- Delta: a base of 2^31 bytes or more, where a shift of a signed integer is not defined; a size header or an offset that C does not define is the outcome `Undefined` of the decoder, of which nothing is claimed. The header readers `git_delta_read_header` and `git_delta_read_header_fromstream`.
- Delta: what C does after the size of the buffer has wrapped, writing behind the end of a smaller buffer.
- JSON: floating point. Numbers are a parameter with a print and a scan function; what is assumed of them is proved for integers of magnitude below 10^15. `valueint`, locales, raw items, references and the comparison of signed zeros are not part of this model.
- JSON: the parser is proved to give the right values, not the right nodes; the links between nodes are proved for the list operations. The position that is reported for an error is left out.
- JSON: `cJSON_Duplicate`, `cJSON_Compare` and the access by name, which would add easy members.
- JsonMinify.Minify: is about texts in which every string and comment ends, because the original reads past the end of others.
- Blame: the diff engine, the search for renames in trees, the order of commits, and the options that limit the parents. What is found in each parent, with its commit object, its blob and its hunks, is a parameter of every round, and what is assumed is that hunks are a diff of the two files, that files with the same blob are equal, and that a parent is of an earlier generation than its child. Failures of these searches, which end the run early, are left out. `coalesce` is never reached. Scores, `is_boundary` and the copying of path names are left out.
- Blame: an empty file, and lines asked for that the file does not have, of which the numbers are not checked by the original either.
- Blame: the memory of an origin that is freed; freed origins leave the set of live ones.
- Thread pool: creating and detaching threads, their attributes, and failure of the system calls. A job function that is null makes the worker wait again, and is not submitted here. Fairness: it is proved that every job can be finished from wherever the run is, not that the scheduler does it.
- SHA-1: the hexadecimal text and the hash of a file.
- SHA-1: the length is counted modulo 2^64 as in the code, and the claim for the standard is for messages below 2^61 bytes.
- Patches: binary patches, and modes and names of files. The search for a newline at the end of a text ends at the end of the text.
- Configuration: `config_set_multivar`, sections, includes, locking, regular expressions, and reading lines that are continued.
- Line endings: reading the attributes of a path, and the byte order mark, which only sets a field of the statistics. Whether the index has a carriage return is a parameter, as is the native line ending.
- Signed commits: the object database. Texts are C strings, up to their NUL.
- SignedCommit.SignatureComesBack: is for field names that are not empty, hold no newline and do not start with a space; with an empty name the extraction loop does not end, and the others are no header fields.
- Base 85: `acc` is a number below 2^32; turning it by eight bits is written with division, because no two bits meet in the OR. Shifting a byte of 128 or more into the sign bit of an int is taken as what compilers make of it.
- Base 64: bit operations on bytes are written with division and remainder.
- Quoting: the squashing of slashes in a path that is read from a patch. What an unquoted buffer holds after a refusal is not stated.
- Buffers that are borrowed, and the growing of a buffer in `git_buf_printf`.
- `checkout.c`, `attr.c`, `clone.c`, `branch.c`, `describe.c`, `diff_file.c`, `diff_driver.c`: file system, iterators and containers. `bitvec.h`, `commit_list.c`, `date.c` and `diff_stats.c` would add easy members.
- `src/http`, `src/ssh`, `src/MQ`, `src/git`, `src/utils`: sockets, processes and wrappers.
