# sourcemap-parser in Dafny

A model of the core of `sourcemap-parser`, a decoder for source maps in the
format of the Source Map Revision 3 Proposal, with the proofs of what that core
promises. The model has three parts.

1. **The Base64 VLQ codec** (`vlq.dfy`, module `Vlq`).
   - It contains the alphabet tables of RFC 4648 section 4.
   - `Encode` zig-zags the sign into bit 0 and emits 5-bit groups, least
     significant first. Bit 32 means "more follows".
   - `Decode` and `DecodeChars` are the two decoding loops. `DecodeChars` works
     on a clamped `[start, end)` window of a larger string.
   - Each method is proved equal to a pure specification function. The round
     trip, the digit count and the dropped trailing group are proved about those
     functions.
2. **The text pre-processors of `utils.ts`.**
   - `StripComments` is the four-state comment scanner that runs before JSON
     parsing.
   - `Encoding` holds the byte-order-mark sniffer and the in-place UTF-16BE pair
     swap on an `array<byte>`.
3. **The decoder** (`decoder.dfy`, class `Decoder.SourceMapDecoder`). The
   closure that `decode` returns becomes one object whose fields are the
   closure's arrays, caches and running totals:
   - sparse JavaScript arrays become `seq<Option<T>>`;
   - caches keyed by line become `map`s;
   - scopes live in an arena `seq<Option<Scope>>`, linked by index.

   Every decoding step, lazy lookup and query is a method on that object. Each
   is proved to produce exactly the state or the answer that a value-level model
   over `DecoderTables.Tables` describes:
   - `MappingStream` and `MappingTables`: the mappings loop.
   - `ScopeStream`: the scopes loop.
   - `SectionDecode`: the section pipeline and the base offsets.
   - `MediaTypes`: the media-type cursor.
   - `MappingQueries` and `ScopeQueries`: the queries.
   - `Files`: the generated and source file projections.

   The properties the code promises are proved about that value-level model,
   including where the code behaves surprisingly. The model keeps these
   behaviours as written:
   - Locals are never created.
   - A scope's end is written into its parent. Closing an outermost scope is an
     error.
   - Every section that opens a scope leaves a hole at the section's scope base.
   - The mapping and local totals never move.
   - The name total grows twice per section.
   - The index-to-section lookups use `<`.
   - The in-section generated lookup indexes by position.
   - `getScopes(true)` keeps the scopes that have a parent.
   - Source segments are one column wide.
   - The in-section candidate-scope query adds the section index.
   - Inline source content is used only when the global source index is below
     the length of `sourcesContent`.
   - The source-file memo looks at `sourcesContent`.
   - A source file's `url` is the generated file's URL.

The crashes of the code are not reproduced. Each becomes an `Err` of
`Records.Fault`:
- a `TypeError` on `undefined`;
- a `TypeError` from `content.split` on a source content that is not a string;
- a segment too short for the values the code reads.

The world outside the decoder is a `DecoderTables.Host` value: the map root, an
uninterpreted `resolve`, and `load`/`read` functions for section maps and source
contents.

The narrowest-scope search (`src/lib/decoder.ts:1153-1157`) replaces the best
scope found so far when the new scope's start or end is strictly later.
`ScopeQueries.LaterWiderScopeWinsExample` shows a case of this rule.

## Model

| member | source | states |
|---|---|---|
| Vlq.Base64Char | src/lib/vlq.ts:1 | The digit for 0..63 is an upper-case letter exactly below 26, a lower-case letter exactly for 26..51, and a decimal digit exactly for 52..61, the RFC 4648 order |
| Vlq.AlphabetIsDigits | src/lib/vlq.ts:1 | A character is in the alphabet string exactly when it is a letter, a decimal digit, `+` or `/` |
| Vlq.Base64Index | src/lib/vlq.ts:31 | `indexOf` on the alphabet is -1 exactly for characters outside it; otherwise it is the value whose digit is that character |
| Vlq.IndexOfChar | src/lib/vlq.ts:1-7 | The alphabet has no repeated character: each digit is found at its own index |
| Vlq.BuildTables | src/lib/vlq.ts:4-7 | The table loop gives an encoder with the 64 character codes in order, and a decoder that maps each of those codes back to its index and holds no other key, so the tables are mutual inverses |
| Vlq.ZigZag | src/lib/vlq.ts:13 | The unsigned value carries the sign in bit 0 and the magnitude in the bits above |
| Vlq.GroupsDigits | src/lib/vlq.ts:14-21 | An encoded integer is one or more alphabet characters |
| Vlq.GroupsContinuation | src/lib/vlq.ts:14-21 | Every character of an encoded integer except the last has bit 32 set; the last has it clear |
| Vlq.GroupsValue | src/lib/vlq.ts:14-21 | The low five bits of the characters, least significant first, add up to the encoded unsigned value |
| Vlq.Encode | src/lib/vlq.ts:9-24 | `encode` returns the encodings of the elements concatenated in order, for integers of magnitude below 2^30 |
| Vlq.UnzigZigZag | src/lib/vlq.ts:35-39 | Undoing the zig-zag transform on the decoded value gives the original integer back |
| Vlq.Decode | src/lib/vlq.ts:26-45 | The decoding loop computes the specification decoder `DecodeText` |
| Vlq.DecodeEncode | src/lib/vlq.ts:9-45 | Decoding an encoding gives back the encoded sequence |
| Vlq.DecodeEncodeThen | src/lib/vlq.ts:9-45 | Decoding an encoding followed by more text gives the encoded integers, then the decoding of the rest |
| Vlq.DecodeCount | src/lib/vlq.ts:30-44 | Decoding produces exactly one integer per character whose bit 32 is clear |
| Vlq.TrailingGroupDropped | src/lib/vlq.ts:30-44 | Trailing characters that all carry bit 32 change nothing: an unfinished group is dropped |
| Vlq.TablePart | src/lib/vlq.ts:54 | The decoder-table lookup is always a value 0..63, and agrees with `indexOf` on alphabet characters |
| Vlq.Window | src/lib/vlq.ts:48-49 | The window is `[max(start, 0), min(end, length))` of the text, and empty when it is inverted |
| Vlq.CharsFromParts | src/lib/vlq.ts:53-66 | The index loop of `decodeChars` appends the decoding of the window's digit values to the buffer |
| Vlq.DecodeChars | src/lib/vlq.ts:47-68 | The `decodeChars` loop computes the specification function `DecodeWindow` |
| Vlq.DecodeWindowParts | src/lib/vlq.ts:47-68 | `decodeChars` decodes the digit values of the clamped window from a zero state |
| Vlq.DecodeWindowIsDecode | src/lib/vlq.ts:47-68 | On alphabet text, `decodeChars(text, s, e)` equals `decode` of the clamped substring, and an empty window gives `[]` |
| Vlq.NonAlphabetDisagreement | src/lib/vlq.ts:26-68 | On a character outside the alphabet the two decoders disagree: `>` is an unfinished group to `decode` and a 0 to `decodeChars` |
| Encoding.GetEncoding | src/lib/utils.ts:6-22 | `FE FF` gives UTF-16BE, `FF FE` gives UTF-16LE and `EF BB BF` gives UTF-8, each if and only if the buffer starts with it; anything else is unknown |
| Encoding.MarkFits | src/lib/utils.ts:6-22 | A recognised mark always fits in the buffer, and only an unknown charset has no mark |
| Encoding.ShortBufferUnknown | src/lib/utils.ts:7-21 | A buffer shorter than two bytes never has a known charset |
| Encoding.SwapPairs | src/lib/utils.ts:47-51 | The in-place loop leaves the array equal to the pair-swapped original |
| Encoding.SwapEven | src/lib/utils.ts:47-51 | On an even-length buffer, bytes 2k and 2k+1 change places for every k |
| Encoding.SwapInvolution | src/lib/utils.ts:47-51 | On an even-length buffer, swapping twice restores the bytes |
| Encoding.SwapOddLast | src/lib/utils.ts:47-51 | On an odd-length buffer the last byte becomes 0, because the byte after it is `undefined` |
| Encoding.PrepareText | src/lib/utils.ts:44-58 | `readFile`'s charset switch swaps the buffer for UTF-16BE only, leaves it alone otherwise, and decodes with the right charset after the mark |
| Encoding.SwappedMarkIsLittleEndian | src/lib/utils.ts:46-54 | After the swap a UTF-16BE mark reads as a UTF-16LE mark, which the fall-through then skips |
| StripComments.Next | src/lib/utils.ts:115-162 | Each turn of the loop moves the position forward and keeps the resume point between the start and the position |
| StripComments.StripCommentsOf | src/lib/utils.ts:102-169 | The scanner loop computes the specification function `Strip` |
| StripComments.RunOutput | src/lib/utils.ts:122-165 | The output is only ever extended |
| StripComments.Resume | src/lib/utils.ts:149-165 | A scan that resumes in the document at position k goes on as `stripComments` of the rest of the text |
| StripComments.StripIsSubsequence | src/lib/utils.ts:102-169 | The output is the input with some characters deleted, so it is never longer |
| StripComments.ScanTokens | src/lib/utils.ts:115-146 | Scanning plain characters (a lone `/` among them) and complete string literals, where no `/` is followed by `/` or `*`, stays in the document state and emits nothing |
| StripComments.StripCommentFree | src/lib/utils.ts:115-168 | Text made only of plain characters (a lone `/` among them) and complete string literals, where no `/` is followed by `/` or `*`, comes back unchanged |
| StripComments.StripNoMarkers | src/lib/utils.ts:115-168 | Text with no quote, no `#`, and no `/` followed by `/` or `*` comes back unchanged |
| StripComments.LoneSlashExample | src/lib/utils.ts:125-130 | `1/2/` comes back unchanged: a `/` opens a comment only before `/` or `*` |
| StripComments.StringKeptVerbatim | src/lib/utils.ts:136-146 | A string literal holding `#`, an escaped quote and `//` comes back verbatim |
| StripComments.LineCommentBody | src/lib/utils.ts:121-151 | A `#` or `//` comment is deleted up to, but not including, the next line break, and the scan resumes at that break |
| StripComments.LineBreakResume | src/lib/utils.ts:147-151 | The line break that ends a line comment becomes the next resume point |
| StripComments.HashComment | src/lib/utils.ts:121-151 | Comment-free text, then `#` and a comment, then a line break and more, strips to the text followed by the stripped rest; the line break survives |
| StripComments.SlashComment | src/lib/utils.ts:125-151 | The same for a `//` comment after text that does not end in a `/` |
| StripComments.BlockComment | src/lib/utils.ts:130-158 | A `/* ... */` comment after text that does not end in a `/` is deleted together with both delimiters, and the scan resumes after it |
| StripComments.ClosedBlockComment | src/lib/utils.ts:130-158 | A block comment opened in the document and closed later is dropped with both delimiters; the scan resumes after the closer as `stripComments` of the rest |
| StripComments.UnterminatedLineComment | src/lib/utils.ts:164-166 | A line comment still open at the end drops everything after the last resume point |
| StripComments.UnterminatedBlockComment | src/lib/utils.ts:164-166 | A block comment still open at the end, after text that does not end in a `/`, drops everything after the last resume point |
| StripComments.UnterminatedString | src/lib/utils.ts:164-166 | Comment-free text followed by a string still open at the end strips to nothing: plain text and strings never move the resume point, and the text after it is dropped |
| StripComments.LineCommentExample | src/lib/utils.ts:121-151 | `a#b`, a line break and `c` strip to `a`, the line break and `c` |
| Records.Put | src/lib/decoder.ts:481 | A store at index i sets entry i and grows the array to i + 1 when needed |
| Records.PutKeepsOthers | src/lib/decoder.ts:481 | A store leaves every other index as it was; the gap it opens is holes |
| Records.PushBuckets | src/lib/decoder.ts:446-447 | `(cache[k] \|\| (cache[k] = [])).push(x)` appends x to bucket k, creating it, and leaves every other bucket alone |
| Records.Push2Buckets | src/lib/decoder.ts:449-451 | The two-level push changes only the inner map at the outer key |
| Records.Lookup2 | src/lib/decoder.ts:1076-1079 | A two-level cache read finds an entry exactly when both keys are present |
| Records.SliceBound | src/lib/decoder.ts:1040 | A `slice` bound is its default when `undefined`, counts from the end when negative, and is clamped to the array |
| Records.Slice | src/lib/decoder.ts:1034-1042 | `slice(start, end)` has the clamped length and holds the elements from the clamped start on |
| Records.SliceEmpty | src/lib/decoder.ts:1034-1042 | Slicing with defined bounds that meet or cross gives nothing |
| Records.CompareOffsets | src/lib/decoder.ts:1349-1364 | The result is negative, zero or positive exactly when the first (line, column) pair is lexicographically before, equal to or after the second |
| Records.ComparePositions | src/lib/decoder.ts:1146-1155 | An `undefined` end position compares equal to anything, because every comparison with `undefined` is false |
| Records.CompareAntisymmetric | src/lib/decoder.ts:1349-1364 | Swapping the operands negates the comparison |
| Records.CompareTransitive | src/lib/decoder.ts:1349-1364 | The order the comparison describes is transitive |
| DecoderTables.EmptyTables | src/lib/decoder.ts:228-253 | The decoder starts with no sections, scopes or mappings, and with the name, source and scope totals at 0 |
| DecoderTables.NameInSection | src/lib/decoder.ts:807-824 | A section without a base finds no name; a name built fresh carries the global index `base + i`, the section and the in-section index i |
| DecoderTables.RememberName | src/lib/decoder.ts:821 | A lookup changes only the name table |
| DecoderTables.NameMemoised | src/lib/decoder.ts:809-811 | A second lookup of the same name returns the record the first one built |
| DecoderTables.RememberNamePlaced | src/lib/decoder.ts:815-821 | Memoising a name keeps every memoised record at its own global index |
| DecoderTables.NameIndexOfLookup | src/lib/decoder.ts:808-821 | A name found for a section has global index equal to the section's base plus the in-section index |
| DecoderTables.NameInRangeFound | src/lib/decoder.ts:814-823 | An index within the section's `names` always finds a name |
| DecoderTables.SourceInSection | src/lib/decoder.ts:869-896 | A section without a base finds no source; a source built fresh carries the global index `base + i`, the section, the in-section index i, and no media type yet |
| DecoderTables.RememberSource | src/lib/decoder.ts:893 | A lookup changes only the source table, and only at the looked-up index; a section without a base changes nothing |
| DecoderTables.SourceMemoised | src/lib/decoder.ts:871-873 | A second lookup of the same source returns the record the first one built |
| DecoderTables.RememberSourcePlaced | src/lib/decoder.ts:886-893 | Memoising a source keeps every memoised record at its own global index |
| DecoderTables.SourceIndexOfLookup | src/lib/decoder.ts:870-893 | A source found for a section has global index equal to the section's base plus the in-section index |
| DecoderTables.SourceInRangeFound | src/lib/decoder.ts:876-895 | An index within the section's `sources` always finds a source |
| DecoderTables.SectionForStops | src/lib/decoder.ts:762-772 | The scan stops at the first section whose base is not below the index, and answers the section before it |
| DecoderTables.SectionForBoundary | src/lib/decoder.ts:765 | An index equal to section i's base, with bases increasing, is attributed to section i - 1 |
| DecoderTables.SectionForInside | src/lib/decoder.ts:762-772 | An index strictly above section i's base and at most the next base is attributed to section i |
| MappingStream.Advance | src/lib/decoder.ts:432-471 | A segment moves both generated columns by its first value; it moves the source index, line and column only from four values on, and the name index only from five |
| MappingStream.Emit | src/lib/decoder.ts:435-474 | The raw mapping carries the column delta, has a source exactly when the segment has more than three values, and a name exactly when it has more than four |
| MappingStream.ScanEmptyStep | src/lib/decoder.ts:429-493 | A separator that closes an empty field adds no mapping |
| MappingStream.ScanSegmentStep | src/lib/decoder.ts:429-493 | A separator that closes a non-empty field adds that segment's mapping, then applies the separator |
| MappingStream.ScanExtends | src/lib/decoder.ts:427-494 | The scan only ever appends to the mappings found so far |
| MappingStream.ScanOffsetLaw | src/lib/decoder.ts:417-493 | From any point of the scan, every mapping found obeys the offset law |
| MappingStream.MappingsObeyOffsetLaw | src/lib/decoder.ts:417-493 | Every mapping's generated line is its section line plus the section's line; the section's column is added on the section's first line only |
| MappingStream.ScanCumulative | src/lib/decoder.ts:421-474 | From any point of the scan, the counters hold the running sums and every mapping is cumulative |
| MappingStream.MappingsCumulative | src/lib/decoder.ts:421-474 | Each mapping's source index, source line, source column and name index are the sums of the deltas of all mappings so far in the section; a `;` never resets them |
| MappingStream.ScanColumns | src/lib/decoder.ts:432-493 | From any point of the scan, the column steps hold |
| MappingStream.MappingsColumns | src/lib/decoder.ts:432-493 | A mapping's section column is its delta plus the previous mapping's column on the same line, or the delta alone on a new line; lines never go back |
| MappingStream.TwoLinesExample | src/lib/decoder.ts:427-493 | `AAAA;AACA` maps generated (0, 0) to source 0 at (0, 0) and generated (1, 0) to source 0 at (1, 0) |
| MappingStream.EmptyFieldsExample | src/lib/decoder.ts:427-493 | `;,CAAA` in a section at (2, 7) gives one mapping, on line 3 at column 1: empty fields give nothing, and the section's column applies only to its first line |
| MappingTables.Resolve | src/lib/decoder.ts:435-476 | The j-th segment's mapping has global index `base + j` and the segment's positions; it fails exactly when a source segment names a source the tables cannot produce |
| MappingTables.Remember | src/lib/decoder.ts:457-473 | A segment's lookups change only the source and name tables |
| MappingTables.Place | src/lib/decoder.ts:446-481 | Filing a mapping changes only the three caches and the mapping table |
| MappingTables.PlaceKeepsCaches | src/lib/decoder.ts:446-481 | Filing keeps every cache bucket holding only mappings that match its keys, and each mapping at its own index |
| MappingTables.ApplyAllKeepsCaches | src/lib/decoder.ts:427-494 | A section's whole run of mappings keeps the caches consistent with their keys |
| MappingTables.ApplyAllPlaces | src/lib/decoder.ts:436-482 | The j-th segment ends up at index `base + j` of the mapping table, numbered j in its section, with the segment's generated position |
| ScopeStream.Move | src/lib/decoder.ts:518-524 | A segment moves the absolute and the section position by the same deltas and changes nothing else, so their difference is kept |
| ScopeStream.EnterChild | src/lib/decoder.ts:546-548 | Pushing the new scope onto its parent's `nested` list keeps every scope well placed |
| ScopeStream.EnterPlaced | src/lib/decoder.ts:525-550 | The new scope sits at `base + sectionScopeIndex`, after the pre-increment, and every scope stays well placed |
| ScopeStream.EnterLinksDown | src/lib/decoder.ts:546-550 | After an enter, every `nested` entry points to a scope whose parent is the one listing it |
| ScopeStream.EnterLinksUp | src/lib/decoder.ts:528-550 | After an enter, every parent link is matched by a `nested` entry in the parent |
| ScopeStream.EnterKeepsShape | src/lib/decoder.ts:525-551 | An enter keeps the arena's shape and the loop invariant `parent == current.parent` |
| ScopeStream.ExitKeepsShape | src/lib/decoder.ts:552-560 | An exit writes the end into the parent, steps to the parent, and keeps the arena's shape and the loop invariant |
| ScopeStream.MarkKeepsShape | src/lib/decoder.ts:516-563 | A `>` or `<` keeps the arena's shape and the cursor invariant |
| ScopeStream.ScanKeepsShape | src/lib/decoder.ts:514-565 | The whole scan keeps the arena's shape and the cursor invariant |
| ScopeStream.ScopesShape | src/lib/decoder.ts:501-566 | After a section's scopes are scanned, the arena after the base is a hole followed by well-placed scopes that form a forest through `parent` and `nested` |
| ScopeStream.ScopesLeaveHole | src/lib/decoder.ts:527-530 | Index `base` is a hole whenever the section opens a scope; earlier entries are untouched, and no new scope has locals |
| ScopeStream.EndLandsOnParentExample | src/lib/decoder.ts:552-559 | In `AA>AA>AA<` the exit writes its end into scope 1, the parent, and leaves scope 2 open |
| ScopeStream.ExitOutermostExample | src/lib/decoder.ts:554-555 | In `AA>AA<` the exit of the outermost scope has no parent, and the scan fails |
| MediaTypes.CursorIsPrefixSum | src/lib/decoder.ts:633-635 | The cursor for source k is the sum of the offsets at indices up to k that exist |
| MediaTypes.MediaTypeAt | src/lib/decoder.ts:637-643 | A cursor inside the list picks that entry; a cursor past the end picks the last entry; a negative cursor or an empty list gives nothing |
| MediaTypes.NoOffsetsFirstType | src/lib/decoder.ts:625-640 | Without offsets every source gets the first media type |
| SectionDecode.StoreSection | src/lib/decoder.ts:387-394 | Storing a section changes only the section, map and base arrays |
| SectionDecode.LocalOf | src/lib/decoder.ts:584-607 | Kept for reference only: this loop body never runs, as `DecodeLocals` proves, and nothing else in the model uses it. A local from a one-value segment is hidden, not renamed and without a source name; any other has both names and is renamed exactly when their texts differ; its generated name is the section's name at the running index plus the first delta; its scope must exist |
| SectionDecode.DecodeLocals | src/lib/decoder.ts:569-619 | Decoding the locals changes neither the locals nor their total: the guard `startPos > pos` never holds |
| SectionDecode.SetMediaType | src/lib/decoder.ts:645-646 | Setting a media type changes only the source table |
| SectionDecode.AssignMediaTypes | src/lib/decoder.ts:632-647 | The media-type loop changes only the source table and keeps the source bases |
| SectionDecode.Initial | src/lib/decoder.ts:336-338 | The start state holds the map's version and the resolved generated file, and is otherwise empty |
| SectionDecode.ApplyAllFrame | src/lib/decoder.ts:427-494 | The mappings loop leaves the sections, the bases and the totals alone |
| SectionDecode.DecodeMappingsFrame | src/lib/decoder.ts:413-499 | `decodeSectionMappings` adds the name count to the name total once more and leaves the other totals and bases alone |
| SectionDecode.DecodeSectionTotals | src/lib/decoder.ts:386-411 | A section's bases are the totals before it. Afterwards the source total has grown by its sources, the name total by twice its names, the mapping and local totals not at all, and the scope total is the arena's length. Other sections are untouched |
| SectionDecode.LaterStagesFrame | src/lib/decoder.ts:398-400 | The scope, local and media-type stages leave the totals, bases and other tables alone |
| SectionDecode.DecodeSectionsTotals | src/lib/decoder.ts:339-370 | After n index-map sections, the source total counts their sources, the name total twice their names, the mapping total is 0, and each decoded section got those running totals as bases |
| SectionDecode.IndexMapBases | src/lib/decoder.ts:336-371 | In a decoded index map, each section's source base counts the sources of the decoded sections before it, its name base twice their names, and every mapping base is 0; a section without a map gets no entry |
| SectionDecode.DecodeScopesArena | src/lib/decoder.ts:501-567 | Scanning scopes keeps the arena empty or with a hole at 0, and keeps every scope without locals |
| SectionDecode.DecodeSectionArena | src/lib/decoder.ts:386-401 | The same holds for a whole section |
| SectionDecode.DecodeSectionsArena | src/lib/decoder.ts:339-370 | The same holds for a run of index-map sections |
| SectionDecode.DecodedScopes | src/lib/decoder.ts:266-272 | After a whole decode, the scope arena is empty or starts with a hole, and no scope has locals |
| SectionDecode.SetMediaTypeEffect | src/lib/decoder.ts:645-646 | One step writes the media type into exactly the source at `base + k` and keeps the memo placed |
| SectionDecode.AssignMediaTypesSets | src/lib/decoder.ts:632-647 | After the loop, source `base + k` carries the media type at cursor k for every k below the source count |
| SectionDecode.NoMediaTypesNoChange | src/lib/decoder.ts:622-623 | Without `x_ms_mediaTypes` nothing is assigned |
| MappingQueries.SectionSlice | src/lib/decoder.ts:1034-1042 | An out-of-range section gives `[]`; otherwise the table from the section's base up to the next base, or up to the total for the last section |
| MappingQueries.MappingsInSectionEmpty | src/lib/decoder.ts:1034-1042 | Because the mapping total stays 0, a section whose base and end bound are both 0 gets no mappings |
| MappingQueries.SkippedNextTakesRest | src/lib/decoder.ts:1034-1042 | A section followed by one without a base gets everything from its base to the end of the table |
| MappingQueries.FirstAtColumn | src/lib/decoder.ts:1063-1073 | Nothing is found exactly when no mapping has that column; otherwise the result is the first mapping at that column |
| MappingQueries.MappingAtGeneratedLocationFound | src/lib/decoder.ts:1063-1073 | With consistent caches, a mapping found is at that generated line and column, and one is found exactly when the line's cache holds a mapping at that column |
| MappingQueries.MappingAtGeneratedLocationInSection | src/lib/decoder.ts:1075-1083 | A mapping is found exactly when the section line cache exists and the column is a valid position in it; it is the entry at that position, not the one with that column |
| MappingQueries.InSectionByPositionExample | src/lib/decoder.ts:1080 | A line holding one mapping at column 5 answers it at column 0 and nothing at column 5 |
| MappingQueries.Insert | src/lib/decoder.ts:1091 | Inserting adds the element and keeps the multiset of the rest |
| MappingQueries.SortBySource | src/lib/decoder.ts:1090-1091 | The sorted copy is a permutation of the cache |
| MappingQueries.SortBySourceSorted | src/lib/decoder.ts:1091 | The sort orders mappings with sources by (source line, source column) |
| MappingQueries.SortBySourceStable | src/lib/decoder.ts:1091 | The sort is stable: mappings at the same source position keep their original order |
| MappingQueries.AtColumn | src/lib/decoder.ts:1101 | The filter keeps only mappings that have a source at that column |
| MappingQueries.AtColumnOnLine | src/lib/decoder.ts:1099-1103 | On one source line, filtering by column is filtering by source position |
| MappingQueries.CandidatesInDecodeOrder | src/lib/decoder.ts:1085-1103 | With consistent caches, the candidates at a source position are exactly the cached mappings at that position, in decode order |
| MappingQueries.CandidatesSorted | src/lib/decoder.ts:1085-1097 | With consistent caches, the candidates of a source line come sorted by source position |
| ScopeQueries.WithParent | src/lib/decoder.ts:1112 | The filter keeps exactly the scopes with a parent and drops the holes |
| ScopeQueries.TopMostDropsOutermost | src/lib/decoder.ts:1110-1116 | `getScopes(true)` returns exactly the scopes that have a parent: every one it returns has one, and every scope with a parent is returned |
| ScopeQueries.NarrowestFailsAtHole | src/lib/decoder.ts:1144-1146 | The scan fails if and only if it meets a hole |
| ScopeQueries.NarrowestIsKept | src/lib/decoder.ts:1142-1161 | A scope found is one of the scopes scanned, and its [start, end] contains the point, inclusive at both ends |
| ScopeQueries.NarrowestNone | src/lib/decoder.ts:1142-1161 | Nothing is found exactly when there are no holes and no scope contains the point |
| ScopeQueries.NestedExample | src/lib/decoder.ts:1153-1157 | Parent A (1..10) scanned before child B (3..5) gives B at (4, 0) |
| ScopeQueries.LaterWiderScopeWinsExample | src/lib/decoder.ts:1153-1157 | A later scope that ends later replaces a narrower one: the result depends on the scan order |
| ScopeQueries.NarrowestAfterDecode | src/lib/decoder.ts:1142-1161 | On decoded tables the scan over all scopes never finds a scope: it fails at the hole or finds nothing |
| ScopeQueries.CandidateScopesDistinct | src/lib/decoder.ts:1185-1197 | The collected scopes have distinct indices, and each is the narrowest scope of one of the candidate mappings |
| ScopeQueries.CandidateScopesNeedEveryScope | src/lib/decoder.ts:1189-1191 | The collection succeeds only if every candidate mapping has a narrowest scope |
| ScopeQueries.CandidateScopesAfterDecode | src/lib/decoder.ts:1185-1197 | On decoded tables the candidate-scope query succeeds if and only if there are no candidate mappings |
| ScopeQueries.CandidateScopesInSectionIgnoresSource | src/lib/decoder.ts:1199-1202 | The in-section variant ignores the in-section source index it is given |
| ScopeQueries.FindLocal | src/lib/decoder.ts:1230-1235 | A local found is from the list and has the name searched for; a source-name search never fails; nothing is found only when no local has the name, and a generated-name search that finds nothing met only locals with a generated name |
| ScopeQueries.CandidateLocalsDistinct | src/lib/decoder.ts:1275-1287 | The collected locals have distinct indices, and each is the local found for one of the candidate mappings |
| ScopeQueries.LocalAtAfterDecode | src/lib/decoder.ts:1227-1237 | On decoded tables no local is ever found |
| ScopeQueries.CandidateLocalsAfterDecode | src/lib/decoder.ts:1275-1287 | On decoded tables the candidate locals are found if and only if there are no candidate mappings |
| Files.SplitLines | src/lib/decoder.ts:688 | The split gives at least one line, and no line holds a line break |
| Files.SplitJoin | src/lib/decoder.ts:688 | Joining the lines with `\n` gives back the text, with every line break normalised |
| Files.JoinSplit | src/lib/decoder.ts:985 | Lines without breaks, joined with `\n`, split back into the same lines |
| Files.CloseGenerated | src/lib/decoder.ts:698-700 | Closing changes only the last segment's end column |
| Files.GeneratedSegmentsPartition | src/lib/decoder.ts:691-711 | A line's segments run from column 0 to the line's end, one after another. Each starts at column 0 or where a mapping starts and carries the mapping found there, and every such column starts a segment |
| Files.GeneratedFileOf | src/lib/decoder.ts:682-728 | The generated file has the generated file's URL, the content, and one line per line of the content |
| Files.GeneratedFilePartition | src/lib/decoder.ts:691-719 | Every line of the generated file is partitioned by its segments |
| Files.InlineContent | src/lib/decoder.ts:919-921 | The inline entry is a string, or a present non-string, exactly when the global index is below the length of `sourcesContent` and the entry exists and is (or is not) a string; otherwise it is `undefined` |
| Files.ContentInSection | src/lib/decoder.ts:910-935 | Content lookup changes only the source table and the content memo, and never forgets a memoised content; a remembered content is returned with nothing changed; past the guards (a base, a map, and an index below the number of sources, checked on one side only) the answer is remembered at the global index; elsewhere the answer is `undefined` with nothing changed |
| Files.ContentMemoised | src/lib/decoder.ts:912-914 | A second content lookup returns the same content as the first |
| Files.NullContentKept | src/lib/decoder.ts:919-933 | A JSON `null` entry whose source cannot be read stays as the non-string content, and is remembered as such |
| Files.InlineContentSkippedExample | src/lib/decoder.ts:919 | Inline content of section 1 at source base 1 is ignored, because the global index 1 is not below the length of `sourcesContent`: the answer is the text read from the source's URL, or `undefined` when that fails |
| Files.CloseSource | src/lib/decoder.ts:995-997 | Closing keeps the number of source segments |
| Files.CloseSourceInPlace | src/lib/decoder.ts:995-997 | Closing updates the last segment's end column in place |
| Files.SegmentsOneColumn | src/lib/decoder.ts:992-1007 | Because the `mappings !== undefined` check always holds, every source segment is one column wide, carries that column's candidates, and the last runs to the end of the line |
| Files.SourceSegmentsOneColumn | src/lib/decoder.ts:993-994 | The same for the segments of a source line, with candidates from the source cache |
| Files.SourceFileInSection | src/lib/decoder.ts:972-1028 | A source-file lookup changes only the source table; it fails exactly when the content is not remembered, the guards pass and the content found is not a string, and then with the global index; a file built carries the content found and, the first time, the generated file's URL |
| Files.SourceFileMemoised | src/lib/decoder.ts:1025 | After a file is built, asking again returns the same file |
| Files.NullContentFails | src/lib/decoder.ts:979-985 | A JSON `null` entry whose source cannot be read makes the file lookup fail as `content.split` does; a second file lookup answers `undefined` |
| Files.ContentFirstHidesFile | src/lib/decoder.ts:974-976 | Once only the content is memoised, the file answer is `undefined` for good, because the memo looks at `sourcesContent` |
| Decoder.SourceMapDecoder.constructor | src/lib/decoder.ts:228-253 | The closure starts with empty tables and totals, and no memoised files |
| Decoder.SourceMapDecoder.GetNameInSection | src/lib/decoder.ts:807-824 | The answer is `NameInSection` of the old tables, and the name table is updated by `RememberName` |
| Decoder.SourceMapDecoder.GetSourceInSection | src/lib/decoder.ts:869-896 | The answer is `SourceInSection`, and the source table is updated by `RememberSource` |
| Decoder.SourceMapDecoder.ResolveMapping | src/lib/decoder.ts:435-476 | The mapping built is `Resolve`'s, and the source and name lookups it makes update the tables as `Remember` says |
| Decoder.SourceMapDecoder.PlaceMapping | src/lib/decoder.ts:446-481 | The caches and the mapping table become `Place` of the old tables |
| Decoder.SourceMapDecoder.PushMapping | src/lib/decoder.ts:446-481 | Each cache gets the mapping pushed under its keys, and the table gets it at its index |
| Decoder.SourceMapDecoder.AddMapping | src/lib/decoder.ts:435-482 | One segment succeeds exactly when `ApplyMapping` does, and leaves its state |
| Decoder.SourceMapDecoder.MapSegment | src/lib/decoder.ts:430-483 | A non-empty field extends the scan and the applied mappings by one segment, or fails exactly as the model does |
| Decoder.SourceMapDecoder.MappingStep | src/lib/decoder.ts:427-493 | One turn of the mappings loop keeps the loop invariant tying the counters and tables to the model |
| Decoder.SourceMapDecoder.MapSegments | src/lib/decoder.ts:427-494 | The loop succeeds exactly when the scan and the application succeed, and leaves the applied state |
| Decoder.SourceMapDecoder.DecodeSectionMappings | src/lib/decoder.ts:413-499 | `decodeSectionMappings` succeeds exactly when `DecodeMappings` does, and leaves its state |
| Decoder.SourceMapDecoder.AddToNameTotal | src/lib/decoder.ts:496-498 | Only the name total changes, growing by the count |
| Decoder.SourceMapDecoder.DecodeSectionScopes | src/lib/decoder.ts:501-567 | `decodeSectionScopes` succeeds exactly when `DecodeScopes` does, and leaves its state |
| Decoder.SourceMapDecoder.ScopeStep | src/lib/decoder.ts:515-563 | One character of the scopes loop advances the scan as the model does, or fails exactly where it fails |
| Decoder.SourceMapDecoder.DecodeSectionLocals | src/lib/decoder.ts:569-619 | `decodeSectionLocals` leaves the state `DecodeLocals` gives: no change |
| Decoder.SourceMapDecoder.SetSourceMediaType | src/lib/decoder.ts:645-646 | Setting one source's media type succeeds exactly when the source exists, and leaves `SetMediaType`'s state |
| Decoder.SourceMapDecoder.DecodeSectionMediaTypes | src/lib/decoder.ts:621-647 | `decodeSectionMediaTypes` succeeds exactly when `DecodeMediaTypes` does, and leaves its state |
| Decoder.SourceMapDecoder.AssignSourceMediaTypes | src/lib/decoder.ts:632-647 | The loop over the sources succeeds exactly when `AssignMediaTypes` does, and leaves its state |
| Decoder.SourceMapDecoder.MediaTypeStep | src/lib/decoder.ts:632-646 | One source of the loop advances the cursor to `Cursor(offsets, k)` and extends the model's run by one |
| Decoder.SourceMapDecoder.StoreSectionBases | src/lib/decoder.ts:387-394 | The section, its map and the current totals as bases are stored as `StoreSection` says |
| Decoder.SourceMapDecoder.PutBases | src/lib/decoder.ts:387-394 | Each of the seven arrays gets its entry at the section's index |
| Decoder.SourceMapDecoder.DecodeSectionSources | src/lib/decoder.ts:403-405 | The source total grows by the number of sources |
| Decoder.SourceMapDecoder.DecodeSectionNames | src/lib/decoder.ts:407-411 | The name total grows by the number of names, when there are names |
| Decoder.SourceMapDecoder.DecodeSection | src/lib/decoder.ts:386-401 | `decodeSection` succeeds exactly when the model's six stages do, and leaves their state |
| Decoder.SourceMapDecoder.DecodeIndexSection | src/lib/decoder.ts:339-369 | One index-map section is decoded when its map is inline or loads, and skipped otherwise, as the model says |
| Decoder.SourceMapDecoder.DecodeIndexMap | src/lib/decoder.ts:336-371 | `decodeIndexMap` sets the header, then decodes the sections in order, as the model does |
| Decoder.SourceMapDecoder.DecodeSourceMap | src/lib/decoder.ts:373-384 | `decodeSourceMap` sets the header and decodes the whole map as section 0 at (0, 0) |
| Decoder.SourceMapDecoder.SetHeader | src/lib/decoder.ts:337-338 | Only the version and the resolved generated file change |
| Decoder.SourceMapDecoder.GetSectionForName | src/lib/decoder.ts:762-772 | The loop answers `SectionFor` over the name bases |
| Decoder.SourceMapDecoder.GetSectionForSource | src/lib/decoder.ts:826-836 | The loop answers `SectionFor` over the source bases |
| Decoder.SourceMapDecoder.ScanSections | src/lib/decoder.ts:763-771 | The loop with its `break` computes `SectionFor` |
| Decoder.SourceMapDecoder.GetMappingAtGeneratedLocation | src/lib/decoder.ts:1063-1073 | The scan of the line cache answers `MappingAtGeneratedLocation`, the first mapping at that column |
| Decoder.SourceMapDecoder.GetMappingAtGeneratedLocationInSection | src/lib/decoder.ts:1075-1083 | The answer is `MappingAtGeneratedLocationInSection`, indexed by position |
| Decoder.SourceMapDecoder.GetNarrowestScopeAtGeneratedLocation | src/lib/decoder.ts:1142-1161 | The scan over all scopes answers `Narrowest` |
| Decoder.SourceMapDecoder.GetNarrowestScopeAtGeneratedLocationInSection | src/lib/decoder.ts:1163-1183 | The scan over the section's scopes by section positions answers `NarrowestInSection` |
| Decoder.SourceMapDecoder.NarrowestScope | src/lib/decoder.ts:1143-1160 | The linear scan computes `NarrowestIn` and stops at the first hole |
| Decoder.SourceMapDecoder.GetLocalAtGeneratedLocation | src/lib/decoder.ts:1227-1261 | Both name variants answer `LocalAt`: the named local of the narrowest scope |
| Decoder.SourceMapDecoder.GetLocalAtGeneratedLocationInSection | src/lib/decoder.ts:1239-1273 | Both in-section name variants answer `LocalAtInSection` |
| Decoder.SourceMapDecoder.GetCandidateNarrowestScopesAtSourceLocation | src/lib/decoder.ts:1185-1197 | The answer is `CandidateNarrowestScopes` |
| Decoder.SourceMapDecoder.GetCandidateNarrowestScopesAtSourceLocationInSection | src/lib/decoder.ts:1199-1202 | The answer is `CandidateNarrowestScopesInSection`, with the source index `base + sectionIndex` |
| Decoder.SourceMapDecoder.CollectScopes | src/lib/decoder.ts:1187-1196 | The `seen` loop computes `CandidateScopes` |
| Decoder.SourceMapDecoder.GetCandidateLocalsAtSourceLocation | src/lib/decoder.ts:1275-1315 | Both name variants answer `CandidateLocalsAtSource` |
| Decoder.SourceMapDecoder.GetCandidateLocalsAtSourceLocationInSection | src/lib/decoder.ts:1289-1329 | Both in-section name variants answer `CandidateLocalsAtSourceInSection` |
| Decoder.SourceMapDecoder.CollectLocals | src/lib/decoder.ts:1277-1286 | The `seen` loop computes `CandidateLocals` |
| Decoder.SourceMapDecoder.GetGeneratedFile | src/lib/decoder.ts:682-728 | A memoised file is returned unchanged; otherwise the file is `GeneratedFileOf` the content, and it is memoised |
| Decoder.SourceMapDecoder.BuildGeneratedFile | src/lib/decoder.ts:687-725 | The line loop builds `GeneratedFileOf` the content |
| Decoder.SourceMapDecoder.BuildGeneratedSegments | src/lib/decoder.ts:693-711 | The column loop, which closes the previous segment in place, builds `GeneratedSegments` of the line |
| Decoder.SourceMapDecoder.GetSourceContentInSection | src/lib/decoder.ts:910-935 | The answer, the tables and the memo afterwards are `ContentInSection`'s |
| Decoder.SourceMapDecoder.GetSourceFileInSection | src/lib/decoder.ts:972-1028 | The answer, the tables and the memo afterwards are `SourceFileInSection`'s |
| Decoder.SourceMapDecoder.BuildSourceLines | src/lib/decoder.ts:985-1016 | One source line per line of the content, each built by `SourceLineOf` |
| Decoder.SourceMapDecoder.BuildSourceSegments | src/lib/decoder.ts:990-1008 | The column loop, which closes the previous segment in place, builds `SourceSegments` of the line |
| Decoder.FindLocalByName | src/lib/decoder.ts:1230-1235 | The loop over a scope's locals computes `FindLocal` |
| Decoder.PickMediaType | src/lib/decoder.ts:637-643 | The branch picks `MediaTypeAt` the cursor |
| Decoder.NextCursor | src/lib/decoder.ts:633-635 | The cursor update gives `Cursor(offsets, k)` |
| Decoder.ReadSegment | src/lib/decoder.ts:431-471 | The counter updates of one segment are `Advance`, and the mapping read off them is `Emit` |
| Decoder.Decode | src/lib/decoder.ts:226-334 | `decode` succeeds exactly when `DecodeDocument` does, and gives a fresh decoder holding its tables |

## Left out

- Reading files and URLs is left out. This covers `host.readFile`, the file and URL branches of `utils.readFile`, and the text decoding by `buffer.toString`. Such I/O lies outside the logic, so it is a `Host` parameter: `load` gives a section's map and `read` gives a source's content. `Encoding.PrepareText` returns the charset and the offset after the mark.
- `getGeneratedContent` and its memo are left out. They only read the generated file, so `GetGeneratedFile` takes the content as a parameter. `getSourceMapGeneratedFileContent` is also left out for the same reason.
- `JSON.parse`, `JSON.stringify` and the per-section map text (`sectionMapsContent`) are left out; the map is a parsed `SourceMapJson.Document` value. A section whose map cannot be loaded is `None`.
- Path and URL resolution (`utils.resolve`, `absolute`, `isUrl` and the rest) is left out. It depends on the platform, so `resolve` is an uninterpreted function inside `Host`.
- Vlq.Encode: requires magnitudes below 2^30 and does not model the 32-bit wrap-around of `<<` and `>>>`. Beyond that range the JavaScript result depends on overflow.
- Vlq.Decode: uses unbounded integers, so it does not model the 32-bit wrap-around of `<<` on long digit runs.
- Vlq.DecodeChars: uses unbounded integers, so it does not model the 32-bit wrap-around of `<<` on long digit runs.
- Decoding `B` yields JavaScript's `-0`; the model gives `0`, since Dafny has no negative zero.
- A mapping or scope field whose digits decode to fewer values than the code reads makes the code go on with `NaN` coordinates. The model stops with `ShortSegment` instead, since `NaN` arithmetic is outside the model.
- Every `TypeError` is an `Err` result instead of an exception. This covers:
  - closing an outermost scope;
  - a hole in the scope scans;
  - a mapping whose source cannot be built;
  - an `undefined` scope or local in the candidate loops;
  - a local without a generated name;
  - `content.split` on a source content that is not a string.
- A section without a base (`undefined` offset) finds no name, source or candidate; the code would compute a `NaN` key.
- DecoderTables.NameInSection: with a defined base, a negative in-section index that misses the memo finds nothing, while the code (`src/lib/decoder.ts:814-821`) builds a name whose text is `undefined`. `DecoderTables.SourceInSection` does the same for a source whose `url` would be `undefined`.
- Files.ContentInSection: for the same negative in-section index, with no source remembered, the model reads nothing and the content stays `undefined`, while the code (`src/lib/decoder.ts:923-930`) calls `host.readFile` on the `url` built from `undefined`. `Files.SourceFileInSection` inherits this.
- These getters are left out: `getIndexMap`, `getIndexMapContent`, `getSourceMaps`, `getSourceMap`, `getSourceMapContent`, `getSections`, `getSection`, `getNames`, `getNamesInSection`, `getName`, `getSources`, `getSourcesInSection`, `getSource`, `getSourceContent`, `getSourceFiles`, `getSourceFilesInSection`, `getSourceFile`, `getMappings`, `getMapping`, `getMappingInSection`, `getMappingsAtGeneratedLine`, `getScope`, `getScopeInSection`, `getLocals`, `getLocal`, `getLocalInSection`, `getMediaTypes` and `getMediaTypesInSection`. Each returns a stored table or value, indexes a table, copies a section map's field, or calls a modelled lookup (`NameInSection`, `SourceInSection`, `SourceFileInSection`) per index, and adds no logic of its own.
- Files.GeneratedFileOf: a text is a sequence of Unicode scalar values, so line widths and segment columns count one per character, where the code's `.length` counts UTF-16 code units; they differ on lines holding characters beyond the Basic Multilingual Plane.
- Files.SourceFileInSection: line widths and segment columns count Unicode scalar values, not the code's UTF-16 code units, for the same reason.
- Decoder.SourceMapDecoder.BuildGeneratedFile: its widths count Unicode scalar values, not UTF-16 code units, as for `Files.GeneratedFileOf`.
- Decoder.SourceMapDecoder.BuildGeneratedSegments: its columns count Unicode scalar values, not UTF-16 code units.
- Decoder.SourceMapDecoder.BuildSourceLines: its widths count Unicode scalar values, not UTF-16 code units, as for `Files.SourceFileInSection`.
- Decoder.SourceMapDecoder.BuildSourceSegments: its columns count Unicode scalar values, not UTF-16 code units.
- The four `getLocalAt*` functions and the four `getCandidateLocalsAt*` functions are merged in pairs by a `NameKind` parameter. The parameter picks the generated-name or the source-name comparison.
- Object identity and aliasing are left out.
  - Mappings name their source by index.
  - Scopes name their parent and nested scopes by index into the arena.
  - A segment's `endColumn` update is made on the segment sequence, not on a shared object.
  - So a later change to a source's `mediaType` does not show through a mapping that was built before it.
- The regular-expression split of content into lines is modelled by `Files.SplitLines`: `\r\n`, a lone `\r` and `\n` each end a line.
