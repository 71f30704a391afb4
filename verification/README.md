# Models of a Stata and Parquet reader's core

A Dafny model of the parts of the package that are hardest to get right, and
proofs of what they promise. `dafny verify dfyconfig.toml` checks it all.

Six things are modelled, each as the source does it: classes where the source
updates objects, methods with loops where it loops, functions where it
computes. A method is proved against a function or a predicate, and lemmas then
say what those mean.

1. **Inflating** (`BitStream`, `Huffman`, `Deflate`, `Inflate`, `Inflater`,
   `Encoder`). `Deflate` says what a DEFLATE stream is, independently of any
   decoder; `Inflater` is the decoder, with its bit buffer, counting sort and
   in-place tables. A stream inflates to a result if and only if it is blocks
   that stand for it, and every encoding of blocks inflates to what they stand for.
2. **Text columns** (`Utf`, `Spans`, `Probing`, `Dictionary`, `TextAccumulator`,
   `Levels`, `TextColumn`, `DtaText`). The module hands a column over as codes of a
   growing dictionary, which it may give up in mid-read; JavaScript makes rows of
   codes, of values seen before and of UTF-16 ends. What the column holds is always
   the plain rows; when it is a dictionary column, and which values it then shows,
   is settled by the calls made.
3. **Planning and retrying reads** (`Planner`, `Gather`, `Reading`, `RowsAt`).
   Calls tile columns times rows within a budget, by what the footer says they
   take; a work stack splits what is over budget. `Reading` runs the stack over every text column at once, each
   with its dictionary, against the budget they share: a read ends with all its
   rows in all its columns, or at a single cell that is too large.
4. **The strL index** (`Sorting`, `StrlIndex`, `StrlBytes`). Four arrays and
   packed bits, sorted together, agree with a map while their count fits 32
   bits; and the exported bytes.
5. **Caches and lifetimes** (`AsyncReads`, `ReadAhead`, `Recent`, `Lifetime`).
   Fetched ranges of a file under interleaved calls, read-ahead blocks, shared
   Python strings and their reference counts, and the wasm instance that is
   replaced after a trap or to give memory back.
6. **Calendar, JSON and packed text** (`Calendar`, `Json`, `JsonGrammar`,
   `JsonDocument`, `Packing`). A text parses exactly when it is spelled as RFC 8259
   says, or by one of a few more forms. `Packing` follows a text column from JavaScript strings to the rows
   the Parquet writer gets, with every refusal on the way.

Where a promise does not hold of the code, the code is kept, and the exact
condition under which it holds is proved: the values of a dictionary column of a
Parquet file in order of first appearance (`Levels.Disorderly`,
`Levels.OrderlyShown`, `Levels.OrderlyExactly`, `Levels.OrderlyByEntries`), a failed
fill of a read-ahead block
(`ReadAhead.HarmlessExactly`, `ReadAhead.ServedWrong`), a trap while a reader is
constructed (`Lifetime.Package.Construct`, `Lifetime.Package.CutOff`), 2^32
strLs out of order (`StrlIndex.Build`, `StrlIndex.AllLost`), and exported bytes
with odd reserved values (`StrlBytes.AcceptedExactly`). A read that traps ends
on an instance that is not its own; that this is harmless is proved too
(`Lifetime.Package.Read`).

Memory that may run short is a nondeterministic choice; a `roomy` parameter says
that it does not, so that a failure can be said to come of memory alone. `works`
says so of reads and fetches, and `alone` that no other call runs meanwhile.

## Model

| member | source | states |
|---|---|---|
| `Huffman.PlaceOrder` | js/src/inflate.ts:20-29 | counting sort lists the coded symbols by length and, within a length, by symbol (section 3.2.2 of RFC 1951) |
| `Huffman.CodeAtUnique` | js/src/inflate.ts:55-68 | no two symbols' codes can begin at the same bit, for any code lengths at all, oversubscribed ones included |
| `Huffman.LongerCodeIsAbove` | js/src/inflate.ts:60-66 | while a shorter code matches, no longer one does: trying lengths in order is right |
| `Huffman.CodeFits` | js/src/inflate.ts:60-66 | with a Kraft sum of at most 1 every canonical code fits its own length |
| `Inflater.BuildTable` | js/src/inflate.ts:20-29 | the table made is the one of the code lengths: counts per length, and symbols in canonical order |
| `Inflater.Decoder.Bits` | js/src/inflate.ts:44-54 | the next `n` bits, first bit lowest, and fewer than 8 bits kept, or the error of input that ends early |
| `Inflater.Decoder.Decode` | js/src/inflate.ts:55-68 | the symbol whose canonical code stands at the bit position, having consumed exactly that code |
| `Inflater.Decoder.CopyBack` | js/src/inflate.ts:85 | an overlapping match repeats the last `back` bytes, as LZ77 expands it (section 3.2.3 of RFC 1951) |
| `Inflater.Decoder.Token` | js/src/inflate.ts:71-86 | one symbol: a literal, a match or the end of block, each error where the code has it |
| `Inflater.Decoder.Codes` | js/src/inflate.ts:69-88 | a block's symbols to its end, leaving the position just past the end symbol |
| `Inflater.Decoder.ReadLengths` | js/src/inflate.ts:122-139 | run-length-coded code lengths fill exactly as many places as the header says (section 3.2.7 of RFC 1951) |
| `Inflater.Decoder.DynamicCodes` | js/src/inflate.ts:115-140 | both tables of a dynamic block are those of the lengths its header stands for |
| `Inflater.Decoder.StoredBlock` | js/src/inflate.ts:93-102 | a stored block starts at a whole byte and its bytes go out as they are (section 3.2.4 of RFC 1951) |
| `Inflater.Decoder.Run` | js/src/inflate.ts:89-145 | the blocks in order to the last, and an error unless they make exactly `size` bytes |
| `Inflater.InflateRaw` | js/src/inflate.ts:35-147 | the whole loop ends, stays inside its tables and output on every input, and gives what `Inflate.Inflated` says |
| `Inflate.SymbolIs` | js/src/inflate.ts:55-68 | decoding gives the symbol whose code is there and the place after it; with uniqueness, and only that one |
| `Inflate.CodesExact` | js/src/inflate.ts:69-88 | a block body decodes to (`o`, `e`) if and only if the bits up to `e` are tokens whose LZ77 expansion is `o` |
| `Inflate.CodeLengthsComplete` | js/src/inflate.ts:122-139 | every run-length coding of code lengths is read as what it stands for |
| `Inflate.CodeLengthsSound` | js/src/inflate.ts:122-139 | code lengths read are those of some run-length coding that is there |
| `Inflate.HeaderComplete` | js/src/inflate.ts:115-140 | every dynamic header is read as what it says |
| `Inflate.HeaderSound` | js/src/inflate.ts:115-140 | a header read is one that is there |
| `Inflate.InflatesExactly` | js/src/inflate.ts:35-147 | `out` is the result if and only if it has `size` bytes and is what some DEFLATE blocks, which the input is, stand for |
| `Deflate.OrderTable` | js/src/inflate.ts:12 | code length codes come in the order of section 3.2.7 of RFC 1951 |
| `Deflate.ExtraBits` | js/src/inflate.ts:8-10 | each length and distance symbol has the extra bits of section 3.2.5 of RFC 1951 |
| `Deflate.LengthTable` | js/src/inflate.ts:7 | each symbol's lengths begin where those of the symbol before end, from 3 to 258 |
| `Deflate.DistanceTable` | js/src/inflate.ts:9 | and so with distances, from 1 to 32,768 |
| `Deflate.LengthsExact` | js/src/inflate.ts:7-8 | the lengths there are: 3 to 258, each of one symbol and one extra number, but 258 of two |
| `Deflate.DistancesExact` | js/src/inflate.ts:9-10 | the distances there are: 1 to 32,768, each in exactly one way |
| `Deflate.CopyRepeats` | js/src/inflate.ts:85 | each byte a match adds equals the one `back` before it |
| `Encoder.SymbolRoundTrip` | js/src/inflate.ts:55-68 | a symbol's canonical code, put anywhere, decodes to it in exactly its length |
| `Encoder.TokensEncoded` | js/src/inflate.ts:69-88 | any tokens encoded with tables that are not oversubscribed are those tokens again when read (sections 3.1.1 and 3.2.5 of RFC 1951) |
| `Encoder.HeaderEncoded` | js/src/inflate.ts:115-140 | a dynamic header encoded reads back |
| `Encoder.FixedCoding` | js/src/inflate.ts:103-112 | the fixed codes satisfy Kraft's inequality, the literal code with nothing to spare (section 3.2.6 of RFC 1951) |
| `Encoder.FixedCodes` | js/src/inflate.ts:103-112 | each fixed code is the one section 3.2.6 of RFC 1951 lists |
| `Encoder.RoundTrip` | js/src/inflate.ts:35-147 | inflating what any stored, fixed and dynamic blocks are packed into gives back what they stand for |
| `Utf.LenIsText` | crates/dta-ffi/src/strings.rs:18-20 | the count over UTF-8 bytes is the length in UTF-16 units (section 3 of RFC 3629, section 2.1 of RFC 2781) |
| `Utf.Utf16LenJoin` | crates/dta-ffi/src/strings.rs:18-20 | the count adds up over concatenation |
| `Utf.AsciiExactly` | crates/dta-ffi/src/strings.rs:238-240 | byte length equals UTF-16 length exactly for ASCII |
| `Utf.TextJoin` | js/src/index.ts:499-500 | texts end to end decode to their texts end to end |
| `Spans.CutText` | js/src/index.ts:497-509 | one decode of the joined bytes, cut at the cumulative UTF-16 ends, gives every value's text |
| `Spans.EndsAgree` | crates/dta-ffi/src/strings.rs:236-240 | byte ends may stand for UTF-16 ends exactly when all is ASCII |
| `Dictionary.Same` | crates/dta-ffi/src/strings.rs:25-41 | comparing two words of short values decides equality |
| `Probing.PlaceOne` | crates/dta-ffi/src/strings.rs:110-112 | a code put at the first empty slot of its probes keeps every code findable |
| `Dictionary.NotThere` | crates/dta-ffi/src/strings.rs:97-114 | a value whose probes end at an empty slot is in no slot at all |
| `Dictionary.Dict.Rehash` | crates/dta-ffi/src/strings.rs:141-147 | reinserting with no probe cap ends, at an empty slot reached only through taken ones |
| `Dictionary.Dict.Grow` | crates/dta-ffi/src/strings.rs:133-150 | the table doubles and every value keeps its code; it fails only for memory, and then changes nothing |
| `Dictionary.Dict.Search` | crates/dta-ffi/src/strings.rs:94-123 | probes find the value's own code, an empty slot after slots of other values, or 128 such slots |
| `Dictionary.Dict.FindOrAdd` | crates/dta-ffi/src/strings.rs:90-125 | the dictionary is the list of distinct values in order of first appearance; None changes nothing and comes only of memory, 16 MiB of values, 2^31 - 1 of them or 128 probes; the table doubles, and only when it would be more than half full |
| `Dictionary.Dict.Add` | crates/dta-ffi/src/strings.rs:154-161 | as `FindOrAdd`, and once it gives None the dictionary is given up for good |
| `Dictionary.Dict.NoteRows` | crates/dta-ffi/src/strings.rs:165-171 | given up exactly once more than half of at least 65,536 rows are distinct |
| `Dictionary.Dict.TakeNew` | crates/dta-ffi/src/strings.rs:180-191 | the values not yet handed over and their cumulative UTF-16 ends; all are then handed over |
| `Dictionary.Dict.Code` | crates/dta-ffi/src/strings.rs:196-230 | every row's code is that of its value and the new values go with them, and after no row were most of at least 65,536 distinct; or the dictionary is given up, for a reason that holds |
| `TextAccumulator.TextAcc.PushPlain` | crates/dta-ffi/src/parquet_wasm.rs:903-919 | a row added as it is, or over budget exactly when its bytes would pass the limit |
| `TextAccumulator.TextAcc.GiveUp` | crates/dta-ffi/src/parquet_wasm.rs:922-934 | the coded rows so far become the same rows as they are, unless their text passes the limit |
| `TextAccumulator.TextAcc.Add` | crates/dta-ffi/src/parquet_wasm.rs:937-978 | whatever path a chunk takes (its own dictionary, row by row, given up in the middle, plain) its rows are added, or the text passes the limit |
| `TextAccumulator.RecodedRows` | crates/dta-ffi/src/parquet_wasm.rs:948-951 | a chunk's codes through the codes of its entries are its rows' codes |
| `TextColumn.Utf16EndsOf` | crates/dta-ffi/src/parquet_wasm.rs:1019-1032 | the UTF-16 ends of the values, or None exactly for ASCII |
| `TextColumn.ReadCall` | crates/dta-ffi/src/parquet_wasm.rs:1083-1187 | what a call hands over stands for its rows, with codes below the values handed over; over budget only when stopped or too large; plain for good once given up |
| `TextColumn.Column.PlaceCodes` | js/src/parquet.ts:701-718 | codes of the values seen put the rows' own texts, or their nulls, in the column |
| `TextColumn.Column.ToStrings` | js/src/parquet.ts:723-728 | a dictionary column given up shows the same rows as strings |
| `TextColumn.Column.PlacePlain` | js/src/parquet.ts:729-750 | plain rows, cut out of one decode or out of the bytes, join the column as they are |
| `TextColumn.PlainText` | js/src/parquet.ts:742-749 | the decoded text cut at the UTF-16 ends, or byte ends for ASCII, is each row's text |
| `TextColumn.Column.Place` | js/src/parquet.ts:689-751 | a call's rows join the column whichever form they come in, and `seen` is then the dictionary's values handed over |
| `TextColumn.Attempt` | js/src/parquet.ts:606-628 | one attempt: its rows join the column, or the module stopped it and neither the column nor `seen` changes |
| `TextColumn.ReadColumn` | js/src/parquet.ts:601-639 | however rows are cut into calls and chunks, wherever the dictionary gives up and whichever calls are tried again, the column holds the plain rows read; it is a dictionary column exactly when that was asked for, of text, and no call was plain, and its levels are then the values its calls had the dictionary take |
| `Levels.OrderlyShown` | js/src/index.ts:151-157 | when every chunk lists its values as its rows first have them, whichever calls are tried again, a whole read shows the rows' values, each once, in order of first appearance |
| `Levels.OrderlyByEntries` | crates/dta-ffi/src/parquet_wasm.rs:940-953 | a chunk with entries lists them so exactly when its rows' codes, each taken for the first entry with its value, first appear in the order of those entries, to the last |
| `Levels.OrderlyByCodes` | crates/dta-ffi/src/parquet_wasm.rs:940-953 | of distinct entries, exactly when the codes first appear as 0, 1, 2 and so on, to the last entry |
| `Levels.OrderlyExactly` | crates/dta-ffi/src/parquet_wasm.rs:940-953 | a read of one chunk shows its values in order of first appearance exactly then |
| `Levels.PlainOrderly` | crates/dta-ffi/src/parquet_wasm.rs:955-966 | a chunk without entries always lists them so |
| `Levels.Disorderly` | js/src/index.ts:151-157 | entries crossed, or not used, are shown crossed, or shown though no row has them: the documented order is not kept |
| `TextColumn.LevelsInOrder` | js/src/parquet.ts:588-718 | so the levels of a dictionary column read whole are then the rows' values in order of first appearance |
| `TextColumn.CanBeAnswered` | crates/dta-ffi/src/parquet_wasm.rs:1139-1152 | there are chunks for the rows of every call, whatever else the core answers |
| `DtaText.KeepText` | crates/dta-ffi/src/strings.rs:256-267 | the text rows alone, end to end, with every row's UTF-16 end among them |
| `DtaText.MakePlain` | crates/dta-ffi/src/strings.rs:236-269 | the plain form stands for the rows; it fails only for memory and only when it has something to allocate |
| `DtaText.PlainCut` | js/src/index.ts:497-519 | text rows come right out of the decoded text though binary rows are left out of it |
| `DtaText.StringColumn.PlacePlain` | js/src/index.ts:497-519 | text rows and binary rows both come back as they are |
| `DtaText.ReadStrings` | js/src/index.ts:437-481 | a read in calls of any sizes, coded or given up anywhere, holds the rows as they are; it is a dictionary column exactly when asked for and no call was plain, and its levels are then the rows' values, each once, as they first appear |
| `Planner.Plan` | js/src/parquet.ts:493-551 | the calls tile the columns times the rows, and each takes at most the budget by the footer's sizes or is one cell; all is one call when it fits, a call of all columns could not take the next group too, and none is empty unless a group is |
| `Planner.WholeGroups` | js/src/parquet.ts:493-502 | a call of whole groups takes the sum of what the footer says of them: 9 bytes a row of text and its size, 73 a row without one, 4 a row of levels, 9 of anything else |
| `Planner.AverageShare` | js/src/parquet.ts:495-500 | some of a group's rows take their share of that |
| `Planner.EstimateTakes` | js/src/parquet.ts:505-520 | the plan's own sums are what the footer so says |
| `Planner.CoveredOnce` | js/src/parquet.ts:493-551 | what tiles reads each cell exactly once and no other |
| `Planner.Merge` | js/src/parquet.ts:512-527 | as many whole groups joined as the budget takes, and no fewer |
| `Planner.Strips` | js/src/parquet.ts:533-537 | a column too large for one call, in strips of rows with no gap, each but the last as long as the budget takes |
| `Planner.SplitColumns` | js/src/parquet.ts:529-548 | a row group too large for one call: every column of it once, in calls within the budget, each begun by a column the call before could not take; strips only of a column too large alone |
| `Gather.GatherCalls` | js/src/parquet.ts:602-629 | whatever calls are over budget, the stack ends, with every cell placed once or at a single cell over budget, and each column's calls come in row order without a gap |
| `Gather.NextStep` | js/src/parquet.ts:611-622 | an answer to the call on top keeps the columns' calls in order and lessens the measure, unless a single cell was over budget |
| `Gather.PlacedRuns` | js/src/parquet.ts:625-628 | calls in order place a column's rows without gap or overlap |
| `Gather.HalvesWeigh` | js/src/parquet.ts:612-615 | halving a call lessens the measure (twice its cells, less one, over all calls) |
| `Gather.SinglesWeigh` | js/src/parquet.ts:616-617 | so does a column at a time |
| `Reading.CallText` | crates/dta-ffi/src/parquet_wasm.rs:1099-1187 | the text columns of one call, their chunks in any order against one budget: every column's rows, with at most half the budget of plain bytes; or nothing handed over by any dictionary, and then the core stopped the call or the columns' text together is more than half the budget |
| `Reading.PlaceAll` | js/src/parquet.ts:623-628 | the columns of a call are placed one after another, the others staying as they are |
| `Reading.OneCall` | js/src/parquet.ts:607-628 | a call's rows join every text column it names, or it is over budget and no column or `sent` has moved |
| `Reading.ReadTable` | js/src/parquet.ts:597-638 | the whole read: calls off the stack, each through every column's dictionary, over budget only for a reason, until each text column holds exactly its rows or a single cell is over budget; each is a dictionary column exactly when asked for, of text, and no call handed it over plain, and shows what its history of calls took |
| `Reading.FixedIs` | js/src/parquet.ts:609 | what a call takes but for text: nine bytes a row of each column, but four of levels |
| `Reading.CanBeServed` | crates/dta-ffi/src/parquet_wasm.rs:1139-1152 | a core that answers every call with its rows exists, for any table and any stops |
| `RowsAt.SpansOf` | js/src/parquet.ts:448-464 | windows in order, 64 or more rows apart, from one listed row to another, that have every listed row, and no gap of 64 rows without one; an error exactly for a row outside |
| `RowsAt.ReadRowsAt` | js/src/parquet.ts:433-445 | row `i` of the answer is the table's row `rows[i]`, repeats and all |
| `StrlIndex.Key` | crates/dta/src/strl_index.rs:16-18 | a key is the two numbers in 24 and 40 bits, or None exactly if one does not fit |
| `StrlIndex.KeyOrder` | crates/dta/src/strl_index.rs:16-18 | keys are ordered by variable, then observation |
| `StrlIndex.SetFlagIs` | crates/dta/src/strl_index.rs:85 | setting one packed bit changes that bit alone |
| `StrlIndex.Arrays.WithIs` | crates/dta/src/strl_index.rs:69-88 | four arrays and a packed bit grow as one list of entries, padding bits zero |
| `StrlIndex.StrlIndex.Push` | crates/dta/src/strl_index.rs:69-88 | the entry is added at the end, or memory is short and nothing changes |
| `Sorting.SortByKey` | crates/dta/src/strl_index.rs:118 | a stable sort of places by key |
| `StrlIndex.StrlIndex.Sort` | crates/dta/src/strl_index.rs:113-142 | the entries whose places fit the 32-bit count (`n` mod 2^32 of them) are put in order together, stably, each bit staying with its entry; the others are gone |
| `StrlIndex.StrlIndex.Finish` | crates/dta/src/strl_index.rs:100-109 | the entries left are a permutation of what was pushed, keys strictly increasing, or a key listed twice is named; all are left exactly if they came in order or are fewer than 2^32 |
| `StrlIndex.Build` | crates/dta/src/strl_index.rs:69-142 | pushes and then finish: memory aside it fails exactly when a key is twice among the entries left; of distinct keys the index is the map of the pushes if and only if they came in order or are fewer than 2^32 |
| `StrlIndex.AllLost` | crates/dta/src/strl_index.rs:117 | 2^32 distinct keys in descending order leave an empty index and no error |
| `StrlIndex.PickedMap` | crates/dta/src/strl_index.rs:113-142 | entries with distinct keys in any order are the same map |
| `StrlIndex.StrlIndex.Get` | crates/dta/src/strl_index.rs:228-237 | the lookup in the map, whatever the shared hint holds |
| `StrlBytes.LeRound` | crates/dta/src/strl_index.rs:154-167 | a number written in little-endian bytes reads back |
| `StrlBytes.ToBytes` | crates/dta/src/strl_index.rs:148-169 | the bytes are the header and the four arrays |
| `StrlBytes.FromBytes` | crates/dta/src/strl_index.rs:175-225 | every check and its error in order, and the index read |
| `StrlBytes.RoundTrip` | crates/dta/src/strl_index.rs:148-225 | an index whose payloads lie in the section reads back from its bytes if and only if it has no word more than its entries need |
| `StrlBytes.OtherFileRefused` | crates/dta/src/strl_index.rs:193-195 | bytes of an index of another file or layout are never taken |
| `StrlBytes.AcceptedIsIndex` | crates/dta/src/strl_index.rs:171-225 | any bytes taken have strictly increasing keys and every payload in the section, so lookups on them are a partial map |
| `StrlBytes.AcceptedExactly` | crates/dta/src/strl_index.rs:178-198 | bytes taken are the bytes of the index read, exactly when the reserved word is 0 and the byte order's value is 0 or 1, neither of which is checked |
| `AsyncReads.RangeStore.Read` | js/src/parquet.ts:840-850 | a range one entry has all of reads as the file's bytes, and the first entry that has it becomes the latest used, the others staying as they were; any other is a miss and changes nothing |
| `AsyncReads.Merge` | js/src/parquet.ts:862-867 | ranges less than 64 KiB apart are joined, every wanted range lies in one joined range, and nothing 64 KiB from all of them is fetched |
| `AsyncReads.RangeStore.Ensure` | js/src/parquet.ts:857-882 | afterwards each range, clipped to the file, lies in one entry; what is fetched are the joined ranges; entries always hold the file's bytes |
| `AsyncReads.RangeStore.Trim` | js/src/parquet.ts:885-896 | unpinned bytes come within the budget, pinned entries stay, only the least recently used go, and no more of them than needed |
| `AsyncReads.LatestStays` | js/src/parquet.ts:840-896 | of the entries not pinned, the one read or fetched last is dropped only if all are |
| `AsyncReads.HeldDrop` | js/src/parquet.ts:890-894 | dropping an entry takes exactly its bytes off what is held |
| `AsyncReads.AllFetched` | js/src/parquet.ts:858-868 | with the joined ranges held, so is all that was asked for |
| `AsyncReads.PastTheEnd` | js/src/parquet.ts:840-850 | a read past the file's end is missing however often it is fetched |
| `AsyncReads.RangeStore.Attempt` | js/src/parquet.ts:922-925 | an operation that ends gives what it gives on the whole file; one that misses says at which read |
| `AsyncReads.Cured` | js/src/parquet.ts:927-930 | fetching the missing range lets the operation past that read |
| `AsyncReads.RangeStore.Run` | js/src/parquet.ts:920-933 | under any other reads, fetches and trims in between, a result is that of the whole file, within 65 attempts; alone, and with fetches that work, at most 64 reads inside the file always give one |
| `ReadAhead.Files.ReadWith` | python/src/parquet.rs:53-78 | a read gives the file's bytes or an error, and leaves exactly the block it should; a failed fill leaves the block's file and start over other bytes |
| `ReadAhead.Files.Run` | python/src/parquet.rs:53-90 | with every fill succeeding, any reads of many files, and closes, give what direct reads would, and leave the blocks those reads make |
| `ReadAhead.ServedRight` | crates/dta-ffi/src/parquet_native.rs:205-214 | from a right block what is served is the file's |
| `ReadAhead.HarmlessExactly` | python/src/parquet.rs:66-71 | a failed fill is harmless, whatever it leaves, exactly when there was no block, or no byte of its file under it |
| `ReadAhead.ServedWrong` | js/src/node.ts:88-93 | otherwise some later read is served wrong bytes with no error |
| `ReadAhead.Files.Close` | crates/dta-ffi/src/parquet_native.rs:219-229 | closing a file lets go of its own block and no other |
| `Recent.Strings.Get` | python/src/lib.rs:275-302 | the object is a `str` of the bytes asked for with one new reference: the slot's own when it holds them, which makes no object, else a new one that takes the slot; each lookup is counted, and each that finds its own |
| `Recent.SharesWhile` | python/src/lib.rs:277-280 | strings of up to 64 bytes are shared for 4096 lookups, and then for as long as half of all find theirs |
| `Recent.Strings.Clear` | python/src/lib.rs:308-315 | after it only the array's references are left |
| `Recent.Strings.PutStrings` | python/src/lib.rs:337-361 | each row shows its value, and each object's count is the array's and the cache's references to it |
| `Recent.TakeEven` | python/src/lib.rs:292-300 | taking over a slot keeps every count equal to the references held |
| `Lifetime.Package.Guard` | js/src/wasm.ts:196-215 | a call from inside a call is refused; a trap leaves a new instance with no handle open; nothing a callback does changes the instance |
| `Lifetime.Package.MaybeReplace` | js/src/wasm.ts:192-194 | an instance is given back for memory exactly when nothing is counted open, no call runs and it is large; under a live reader exactly when some are not counted |
| `Lifetime.Package.Open` | js/src/wasm.ts:248-262 | a reader live on the current instance, counted, with a handle of its own; or none |
| `Lifetime.Package.CloseHandle` | js/src/wasm.ts:265-269 | one fewer is counted, whatever instance the handle is of; on another instance that makes the count one short |
| `Lifetime.Package.Use` | js/src/index.ts:319-322 | a call reaches the module exactly when the reader is live, and its handle is then open there |
| `Lifetime.Package.ReadEnd` | js/src/wasm.ts:341-343 | what a read kept is freed; on an instance the handle is not open on nothing changes |
| `Lifetime.Package.Read` | js/src/index.ts:437-493 | a read's calls and then, whatever happened, its end: the end reaches another instance exactly when one of the calls trapped, that instance has nothing open, and it stays as the trap left it; between reads no instance keeps anything of one |
| `Lifetime.Package.Close` | js/src/index.ts:546-554 | `onClose` runs with the first `close()` that returns; one that throws leaves the reader to be closed later |
| `Lifetime.Package.Finalize` | js/src/index.ts:229-237 | a reader dropped has its `onClose` run once, whatever closing its handle does |
| `Lifetime.Package.Construct` | js/src/index.ts:291-317 | the readers constructed wrongly are those constructed so by what runs aside, and this one exactly if it gives up on an instance other than the one it opened on, as it does when describing the file traps; the count is then one short |
| `Lifetime.Package.CutOff` | js/src/wasm.ts:192-194 | the run: a constructor that traps, two readers opened, one closed; a large instance is taken from the other, which a program still holds |
| `Lifetime.Package.Run` | js/src/wasm.ts:168-269 | over every run: live readers are `openHandles` and as many more as the instance is short; calls with a handle reach another instance exactly as often as reads have trapped and constructors have given up so; while no constructor has, nothing is short, no such call meets an open handle and no instance is taken from a reader; `onClose` runs at most once |
| `Lifetime.CloseStep` | js/src/wasm.ts:265-269 | closing one live reader's handle leaves the others' counted and open |
| `Calendar.CivilSteps` | js/src/format.ts:221-232 | a day on, the arithmetic gives tomorrow by the 4, 100 and 400 leap rule |
| `Calendar.CivilIsWalk` | js/src/format.ts:221-232 | it agrees with stepping day by day from 1 January 1960, in both directions (section 3.2.1 of ISO 8601:2004) |
| `Calendar.CivilOnto` | js/src/format.ts:221-232 | every valid proleptic Gregorian date is that of its day number |
| `Calendar.CivilInto` | js/src/format.ts:221-232 | every day number is that of its date, so days and dates are one to one |
| `Calendar.RangeChecked` | js/src/format.ts:221-223 | a date is shown exactly within 100,000,000 days either way |
| `Calendar.Clock` | js/src/format.ts:186-194 | hours, minutes and seconds in range that add up to the milliseconds, but for the part of a second |
| `Calendar.ClockUnique` | js/src/format.ts:186-194 | no other date and time of day does |
| `Calendar.PeriodIs` | js/src/format.ts:234-236 | weeks, months, quarters and halves, also negative ones, are their year's and their place in it |
| `Json.QuotedRead` | crates/dta-ffi/src/json.rs:179-220 | a string is read as its text however its characters are spelled: as they are, by a letter, by their UTF-16 units in digits of either case (section 7 of RFC 8259), or by what the parser takes for such |
| `Json.ValueRead` | crates/dta-ffi/src/json.rs:116-177 | however a value is spelled, with any blanks, it is read as it is in exactly its bytes, unless it nests too deeply, whatever follows |
| `Json.ParseSpelled` | crates/dta-ffi/src/json.rs:78-86 | every text of a value, with any blanks and spellings, parses as the value; one that nests more than 64 deep is refused |
| `JsonGrammar.ParseExactly` | crates/dta-ffi/src/json.rs:78-86 | a text parses as a value if and only if it is a text of it that nests at most 64 deep |
| `JsonGrammar.CharsFound` | crates/dta-ffi/src/json.rs:179-220 | whatever string is read is spelled so: nothing else is taken for an escape, a digit or UTF-8 |
| `Json.ParseWritten` | crates/dta-ffi/src/json.rs:78-86 | parsing undoes writing exactly for values that nest at most 64 deep; deeper ones are refused |
| `Json.Parser.Text` | crates/dta-ffi/src/json.rs:179-220 | escapes, surrogate pairs, ends and errors as the parser has them, and the place it stops |
| `Json.Parser.Value` | crates/dta-ffi/src/json.rs:116-177 | the value or the first error and where, always moving on, so it ends |
| `Json.ParseText` | crates/dta-ffi/src/json.rs:78-86 | the whole text, and an error for anything after the value |
| `Json.PutString` | crates/dta-ffi/src/json.rs:230-244 | a text quoted and escaped |
| `Json.Strings` | crates/dta-ffi/src/json.rs:248-258 | an array of strings as the JSON value of it is written |
| `Json.StringsRoundTrip` | crates/dta-ffi/src/json.rs:248-258 | parsing it gives the array of the strings, for all texts |
| `Json.Characteristics` | crates/dta-ffi/src/json.rs:333-349 | an array of three-field objects |
| `Json.CharacteristicsRoundTrip` | crates/dta-ffi/src/json.rs:333-349 | parsing it gives those objects, for all texts |
| `JsonDocument.DecimalRead` | crates/dta-ffi/src/json.rs:268 | a number written in decimal says that number |
| `JsonDocument.MetadataText` | crates/dta-ffi/src/json.rs:266-303 | the metadata's object, field by field, with its sort order and variables |
| `JsonDocument.MetadataRoundTrip` | crates/dta-ffi/src/json.rs:266-303 | parsing it gives those fields, for all texts and numbers |
| `JsonDocument.ValueLabels` | crates/dta-ffi/src/json.rs:305-331 | every set by name, each label with its value or the missing value's name |
| `JsonDocument.ValueLabelsRoundTrip` | crates/dta-ffi/src/json.rs:305-331 | parsing it gives those sets |
| `JsonDocument.MissingRound` | crates/dta/src/missing.rs:28-44 | codes 1 to 27 are named, `.` and the letters in order, and a name's code is the one it names |
| `JsonDocument.Document` | crates/dta-ffi/src/json.rs:17-34 | taking the last brace off the metadata and going on gives one object with the labels, characteristics and notes after the metadata's fields, and no notes among the characteristics |
| `JsonDocument.DocumentRoundTrip` | crates/dta-ffi/src/json.rs:17-34 | parsing a document gives its fields, all of them |
| `JsonDocument.NotesNamed` | crates/dta-ffi/src/json.rs:9-11 | a note is a characteristic of the dataset named `note` and then one or more digits |
| `JsonDocument.NotNotesJoin` | crates/dta-ffi/src/json.rs:23-24 | the characteristics that are not notes stay, in their order |
| `Packing.WellFormed` | js/src/shared.ts:53 | what the encoder makes of a well-formed string, whatever follows it, is the UTF-8 of its text |
| `Packing.LoneReplaced` | js/src/shared.ts:53 | a surrogate with none to pair with becomes the three bytes of U+FFFD |
| `Packing.Packer.EncodeInto` | js/src/shared.ts:78-79 | whole characters while they fit; as many bytes as units exactly for ASCII; room for three bytes a unit takes all |
| `Packing.Packer.Room` | js/src/shared.ts:28-33 | there is room, and what was written is kept |
| `Packing.Packer.PutString` | js/src/shared.ts:38-54 | a string's UTF-8 is added, by units or by the encoder |
| `Packing.Packer.Block` | js/src/shared.ts:71-88 | a joined block is kept only when it is all ASCII, and is then the strings' bytes and ends; otherwise it is done again; it throws exactly past the longest string there can be |
| `Packing.JoinDiffers` | js/src/shared.ts:67-70 | surrogates meeting at a join encode differently than apart, which is why |
| `Packing.PackTexts` | js/src/shared.ts:17-90 | on every path the bytes are each value's bytes end to end, and the ends the sums of their lengths, in 32 bits; it throws exactly when strings are joined and a block is longer than a string can be |
| `Packing.Put` | js/src/wasm.ts:383-395 | bytes put in module memory are fewer than 2 GiB: more are refused by the module, which sees 32 bits of their number, or by the view |
| `Packing.WriteTexts` | crates/dta-ffi/src/parquet_wasm.rs:1417-1442 | what is accepted is what was handed over, its ends in order within its bytes; memory aside nothing else is refused |
| `Packing.WriteCodes` | crates/dta-ffi/src/parquet_wasm.rs:1454-1486 | and its codes below the number of values |
| `Packing.CutPacked` | crates/dta-ffi/src/parquet_wasm.rs:1812-1819 | below 4 GiB packed ends are in order, and cut at them every text comes back |
| `Packing.ColumnRead` | crates/dta-ffi/src/parquet_wasm.rs:1812-1825 | so the writer gets every row's bytes, or null |
| `Packing.PackRows` | js/src/parquet.ts:1224-1234 | a column with nulls and flagged rows, packed a text a row |
| `Packing.LooksVaried` | js/src/parquet.ts:1109-1122 | the sample of rows spread over a longer column, and whether more than half of it differs |
| `Packing.ProbesSpread` | js/src/parquet.ts:1110-1114 | the rows sampled begin at the first, lie a 4096th of the column apart and reach into its last 4096th |
| `Packing.TextCodes` | js/src/parquet.ts:1107-1142 | each row's code is the place of its value among the distinct ones, or -1; coded exactly when no sample varies and at most an eighth of the rows, or 256, differ |
| `Packing.CodesRead` | crates/dta-ffi/src/parquet_wasm.rs:1826-1835 | the writer gets every coded row's bytes, or null |
| `Packing.WriteText` | js/src/parquet.ts:1210-1235 | a text column that is accepted gives every row back, and is coded exactly when it is of strings that repeat; memory aside it is refused exactly when what is packed of it cannot be joined or does not fit, as 4 GiB does not |

## Left out

- TextColumn.ReadColumn: only text columns; numbers, 64-bit integers and level columns are copied row for row and are left out with `memView`'s pointers.
- Gather.GatherCalls: variables asked for twice (read once, copied after) are left out; a call of no rows is taken as never over budget; one answer per call is given, by any function.
- Reading.ReadTable: of the columns read together only text ones; errors other than "over budget" end a read and are left out.
- Planner.Plan: sums are over real numbers where JavaScript rounds.
- Packing.TextCodes: a JavaScript map holds fewer values than `MostDistinct` may allow, and throws past that.
- Packing.WriteText: the column's other fields are left out, and the rows of the table are taken to be the column's.
- Packing.PackTexts: `get` is a fixed list, where the source calls it up to three times and trusts it to give the same value; a buffer that JavaScript cannot allocate throws, which is left out.
- AsyncReads.RangeStore.Run: a fetch that gives the right number of bytes gives the file's; an operation depends only on the bytes its reads give, and does a bounded number of reads.
- Lifetime.Package.Run: a callback into the package is any run of it; the table of read functions and `forget` are left out, so two readers given one read function are not told apart.
- ReadAhead.Files.ReadWith: file numbers are unbounded; the block of `js/src/node.ts` is the case of one file on one thread, its `blockAt` of -1 the number 0.
- Recent.Strings.Get: an object is its bytes, its kind and its count; the hash is any function.
- Dictionary.Dict.FindOrAdd: the hash is any function, and short memory any choice; so it is wherever memory may run short, unless `roomy` says it does not.
- StrlIndex.StrlIndex.Get: the shared hint is read and written once, as any number; no other field is shared.
- Calendar.Civil: the day number is a whole number; the guard for its range is `CivilInRange`.
- Json.ValueRead: a number is its token; which tokens are numbers is any predicate (one that takes decimals, where numbers are written), and what `f64` makes of them is left out.
- Inflater.InflateRaw: error texts are cases of a datatype, and the fixed tables are made anew each time where the source keeps them.
- Two things the decoder does differ from sections 3.2.4 and 3.2.7 of RFC 1951 and are modelled as they are: a stored block's complement is not looked at, and a count of literal codes above 286 or a missing code for the end of block is not refused up front.
- The `.dta` reader and writer, storage types, fixed-width code and the whole Parquet core are not part of this model; the core is an oracle that yields chunks of rows or stops.
- Header and descriptor parsing: field by field, with no writer here to compare with.
- Missing-value tables, thread counts, encodings and `values.ts`: short case tables.
- Pointers, foreign calls, module memory reserve, files and temporary files: input and output.
- Floating-point display and number printing: library behaviour.
- The label-key cache of `js/src/format.ts`: its staleness check misses a key replaced by another at the same size.
- The windows `hosted` and `hosted_int` keep of a number column being written, and level columns' codes: row-for-row copies.
- `bench/`, `compat/`, `docs/`, `scripts/` and the pandas and numpy glue: harnesses and wrappers.
