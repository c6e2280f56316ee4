# PDQ: a verified model of the index, its searches and its pruning

PDQ keeps, for each Parquet file and string column, an FST set of byte keys `value NUL "rg" N`. It
answers exact, prefix and range searches by reading one contiguous slice of that set, and it rewrites
a query so that only the matching row groups are read. This project models that system in Dafny and
proves what the index promises.

Run `dafny verify dfyconfig.toml` in this directory.

## What is modelled

* **Text and keys.** Rust strings are Dafny strings (both are sequences of Unicode scalar values);
  bytes come from a UTF-8 encoder written out from section 3 of RFC 3629 and are read back by a decoder
  written out from its section 4. Decimal printing and
  `str::parse` (leading `+`, refusal of 2^64 and above) are written out too, on a 64-bit target.
* **The FST.** A finished set is a strictly ascending sequence of byte strings, reached through a
  lower-bound search and a forward scan. The set builder refuses any key that is not above the last.
* **Files.** A Parquet file is a sequence of row groups of batches of rows, with the set of columns the
  reader yields as string arrays.
* **The index directory.** One entry per path hash, holding the text of `metadata.txt` and one FST per
  column. All steps act on that text and those keys. `Snapshots` says what the text and keys stand for,
  and every step is proved to be the matching step on snapshots.
* **Runs.** `Lifecycle` is a state machine over file writes, deletes, builds (forced or not) and prunes.
  `ColumnLog` reads off a run which version of a file each column was last indexed from.
  `FstCacheProtocol` and `FooterCache` are state machines over the interleaved atomic steps of any
  number of threads; `ConcurrentSearch` runs whole searches over the first. A resident FST is a mapping of
  its stored file there: removing the file leaves it as it is, writing the file in place changes what it
  reads as in a way that is left open.
* **Engines.** `EngineSees` says, in snapshots, what an engine answers from: its catalogue, its counts, and
  per file and column the resident FST or else the one on disk. `OpenEngine` is about engines that were
  opened earlier in a run.
* **Queries.** Filters are expressions with SQL's three-valued meaning. The target theorem compares the
  rows the access plans read, filtered, with a filtered scan of everything.

Assumptions are written as preconditions: the path hash has no collision among the paths in play
(a 64-bit hash cannot be injective on all strings), a change of content at a path changes its
(mtime, size) stamp, paths are one line of text, and indexing one file is one atomic step. The hash
function itself is a parameter. Directory entries and hash maps are visited in any order.

## Where the code and its documentation differ

* `README.md` of the repository promises exact answers "with no false positives". A value that
  continues the term by a NUL is reported too. `ExactSearchIff` gives the exact condition and
  `NulValueIsFalsePositive` a failing file for every term.
* Prefix search is documented as "all entries that start with the given prefix". `PrefixSearchIff`:
  that holds on all files iff the prefix is non-empty, NUL-free and does not end in U+10FFFF.
* Range search is documented as inclusive and lexicographic. `RangeSearchIff` gives the exact condition,
  for any values and bounds; `NulBoundBreaksRange` the failing bounds.
* Incremental indexing and multi-column indexing are documented side by side, but the columns of a file
  share one `metadata.txt`. `TwoColumnsGoStale` is a failing run. `UnforcedBuildIff`: after any run, with any
  number of columns, an incremental build leaves a column wrong exactly when its values changed since it
  was last indexed although the file has the stamp at which one of its columns was last indexed. A log of
  the versions indexed decides that before the build. `BuildMakesCurrent` gives the uses that are always
  safe.
* "Each matched file's footer is parsed at most once": `WastedParses` counts the extra parses of every
  interleaving, one for each request that overlaps another for the same missing footer, and
  `ParsedOnceIff` says the promise holds exactly when there is no such request; `TwoReadersParseTwice` is
  a run that breaks it. That the cache keeps a footer "for the engine's lifetime" also means that a
  rewritten file is served its old one: `CachedIsPresentIff` is the exact condition, `CachedStays` says it
  stays so, `StaleHit` is such a run.
* The index is documented as read-only and immutable (`ARCHITECTURE.md:38`), but `index_file` writes an
  existing FST in place, also while resident sets map it: `ReindexChangesResident` is the run in which two
  calls get the same object and find different keys, or a fault. `SearchIsUncached` and `SearchesAgree` say
  when searches are unaffected.
* `index_file` is documented to fail when the column does not exist. `MissingColumnIndexed`: it succeeds,
  writes an empty FST, and the column then passes for indexed. Such a file is not covered in the sense of
  `PruningPreservesRowsIff`.

## Model

| member | source | states |
|---|---|---|
| Utf8.OrderPreserved | src/query.rs:297-315 | comparing encoded keys byte by byte is comparing the strings by code point, for all strings |
| Utf8.PrefixPreserved | src/query.rs:326-327 | the bytes of a string start with the bytes of a prefix iff the string starts with the prefix |
| Utf8Decoder.DecodeIff | src/index.rs:278-281 | the bytes that decode as UTF-8 to a string are its encoding and no others |
| Decimal.ParsePrint | src/index.rs:302-305 | every 64-bit number is read back from its printed form |
| Decimal.PrintDigits | src/index.rs:302-305 | numbers are printed in base ten, most significant digit first, without leading zeros |
| Decimal.ParseIff | src/index.rs:123-124 | the parser accepts exactly decimal numbers below 2^64 with at most one leading `+` and any leading zeros, and gives their values |
| KeyCodec.ParseKey | src/query.rs:255-282 | parsing a stored key gives its row group and never fails, whatever characters (NULs too) the value has |
| KeyCodec.ParseAnyKey | src/query.rs:255-282 | parsing any bytes: nothing without a NUL or without `rg` after the last one, else the number behind it, or an error when that is none |
| KeyCodec.KeyInjective | src/index.rs:230-243 | distinct (value, row group) pairs have distinct keys |
| FstSet.SetBuilder.Insert | src/index.rs:278-283 | a key is accepted iff it is above the last one, and is then appended; otherwise nothing changes |
| FstSet.LowerBound | src/query.rs:311-315 | the position splits the keys into those below the bound and those not below it |
| IndexBuilder.GatherKeys | src/index.rs:209-248 | the triple loop collects the key text of every non-null string cell and nothing else |
| IndexBuilder.BuildFst | src/index.rs:274-283 | whatever the arrival order, the set builder refuses nothing and the FST is the sorted key set |
| IndexBuilder.StoredKeysAreTheValues | src/index.rs:215-283 | a key is in the FST iff it encodes a value some row group of the file holds |
| IndexBuilder.StoredBytes | src/index.rs:225-283 | the bytes in the FST are the UTF-8 of value, NUL, `rg` and decimal row group, for exactly the values held |
| IndexBuilder.FstSize | src/index.rs:205-243 | the FST has exactly one key per distinct (row group, value) pair |
| IndexBuilder.SameFstIff | src/index.rs:215-283 | two versions of a file have the same FST for a column iff it holds the same values in the same row groups |
| IndexBuilder.EmptyFst | src/index.rs:221-248 | an FST is empty iff no row group holds a string in the column, as for a column the file lacks |
| IndexRoot.MissingColumnIndexed | src/index.rs:192-201 | indexing a missing column leaves an empty FST that the staleness check takes for current |
| Sorting.CollectSorted | src/query.rs:242-246 | draining the hash set and sorting gives the one strictly ascending listing of its elements |
| SetSearch.ScanSlice | src/query.rs:221-374 | over any FST the seek-and-scan loop fails iff a key that lies in the slice and passes the check has a bad group number; else it gives, ascending, the groups of exactly those keys |
| SetSearch.SetHasTerm | src/query.rs:209-218 | true iff some key of the FST lies in the term's slice |
| SearchMeaning.KeySelected | src/query.rs:221-374 | a query's slice and check select a stored key iff the query matches the stored value, for all exact, prefix and range queries, NULs and surrogate gap included |
| SearchMeaning.MarkerSlice | src/query.rs:225-234 | the range `ge(t NUL).lt(t 0x01)` is "starts with t NUL" |
| SearchMeaning.CheckMeaning | src/query.rs:317-327 | the check before the first NUL of the key holds iff the prefix is NUL-free and the value starts with it |
| SearchMeaning.RangeSelects | src/query.rs:348-374 | which values any pair of bounds selects, bounds with NULs included |
| SearchMeaning.ExactAndRangeOnAnyKey | src/query.rs:225-356 | which byte keys of any FST an exact and a range search read |
| SearchMeaning.PrefixOnAnyKey | src/query.rs:290-327 | which byte keys of any FST a prefix search takes |
| SearchTheorems.SearchIsExact | src/query.rs:221-374 | for every file, column and query the search of the built FST never fails and returns exactly the row groups holding a matching value, ascending, without repeats |
| SearchTheorems.ExactSearchIff | src/query.rs:175-179 | exact search misses nothing, and returns only groups holding the term iff no group is reached through a NUL continuation alone |
| SearchTheorems.NulValueIsFalsePositive | src/query.rs:225-234 | for every term there is a file without it that is returned |
| SearchTheorems.EmptyMeansAbsent | src/query.rs:221-247 | on NUL-free data an empty answer is given iff no row group holds the term |
| SearchTheorems.HasTermIffFound | src/query.rs:208-247 | the batched probe is true iff the single search returns a group |
| SearchTheorems.PrefixSearchIff | src/query.rs:284-340 | prefix search is right on every file and column iff the prefix is non-empty, NUL-free and does not end in U+10FFFF |
| SearchTheorems.RangeOnNulFreeBounds | src/query.rs:348-374 | NUL-free bounds select v iff start <= v and (v <= end or v continues end by a NUL) |
| SearchTheorems.RangeOnAnyBounds | src/query.rs:348-374 | for any bounds, NULs included, a value is selected iff it is in the inclusive range and not left out by the end, or outside and taken by a NUL continuation |
| SearchTheorems.RangeSearchIff | src/query.rs:342-374 | for any bounds the answer is the inclusive range iff no group is reached through values outside it alone and no group is missed because its values inside are left out |
| SearchTheorems.RangeSearchOnNulFreeData | src/query.rs:342-374 | on NUL-free values the answer is the inclusive lexicographic range |
| SearchTheorems.InvertedRangeIsEmpty | src/query.rs:353-361 | an inverted NUL-free range returns nothing |
| SearchTheorems.NulBoundBreaksRange | src/query.rs:353-361 | when a bound continues a stored value by a NUL and `rgN` does not sort before what follows the NUL together with U+0001, the value is taken below the range and dropped inside it |
| Metadata.RoundTrip | src/index.rs:262-272 | the staleness check reads back the stamp written, the engine the path and row-group count |
| Metadata.FormatText | src/index.rs:265-272 | the four lines that are written, character by character |
| Metadata.LineRules | src/index.rs:116-117 | how any text falls into lines |
| Metadata.ReadersMeaning | src/index.rs:116-126 | what the readers find in any text, old formats and bad numbers included |
| Metadata.PathReadBackIff | src/query.rs:81-84 | the path is read back iff it has no line feed and does not end in a carriage return |
| Metadata.LegacyFile | src/query.rs:85-89 | a three-line file yields path and stamp and no row-group count |
| Indexing.Indexer.IndexFile | src/index.rs:201-287 | indexing one column rewrites that file's metadata and that column's FST and nothing else, and never fails on a key |
| Indexing.Indexer.BuildIndexExt | src/index.rs:76-94 | in any walk order, exactly the files that need it (or all, when forced) are re-indexed, each judged on the directory as it was before the build |
| Indexing.Indexer.PruneOrphans | src/index.rs:130-167 | over any directory: what stays, unchanged, is what has metadata whose first line is an existing file or that has no line; directories before = directories after + returned count |
| IndexRoot.PruneTwice | src/index.rs:130-167 | a second prune changes nothing, so by the count above it returns 0, and the directory of an existing file is kept as it is |
| IndexRoot.RebuiltIff | src/index.rs:84-126 | a build over any directory: a file's metadata and this column's FST are written anew and its other columns kept, unless the build is unforced and there is an FST and three lines of metadata with the file's time and size; then nothing changes |
| IndexRoot.OldFormatIsIndexed | src/index.rs:108-121 | a file without metadata, or with metadata of the old format, is indexed |
| IndexRoot.RebuiltElsewhere | src/index.rs:84-91 | a build touches no directory but those of the data files |
| Snapshots.NeedsIndexingRendered | src/index.rs:97-127 | on the stored text, the staleness check fires iff the column has no FST or the stamps differ |
| Snapshots.RebuiltRendered | src/index.rs:76-94 | a build on text and keys is the build on snapshots |
| Snapshots.PrunedRendered | src/index.rs:138-164 | a prune on text keeps exactly the directories of existing files |
| Lifecycle.RunIsTracked | src/index.rs:76-167 | along every run of writes, deletes, builds and prunes the stored directory is the one the snapshots describe |
| Lifecycle.EveryFstIsOfAVersion | src/index.rs:201-287 | in every run, with any number of columns, each stored FST is that of a version written at its path |
| Lifecycle.MatchingStampMeansCurrent | src/index.rs:108-126 | with one column per index, in every run, a matching stored stamp means FST and row-group count are those of the current contents |
| Lifecycle.BuildMakesCurrent | src/index.rs:76-94 | after a build every file is current, in every one-column run and, when forced, in every run |
| Lifecycle.NothingStaleAfterBuild | src/index.rs:97-127 | after a build the staleness check fires for no file |
| Lifecycle.SecondBuildIdle | src/index.rs:85-90 | a second build over unchanged data re-indexes no file and leaves the directory as it is |
| Lifecycle.TwoColumnsGoStale | src/index.rs:262-272 | for any two columns and two versions that differ in the second, the run in which the second column stays stale under current metadata |
| ColumnLog.SilentIff | src/index.rs:97-127 | in every run the staleness check is silent iff the column was indexed and the file has the stamp it had when any of its columns was last indexed |
| ColumnLog.CurrentIff | src/index.rs:108-126 | in every run, with any number of columns, a column's FST is current iff the column was indexed and its values have not changed since |
| ColumnLog.CurrentByStampIff | src/index.rs:108-126 | when the staleness check is silent, the column is right iff it was last indexed at the file's present stamp or its values have not changed since |
| ColumnLog.UnforcedBuildIff | src/index.rs:85-126 | after any run an unforced build leaves a column current iff it is not overtaken: values changed since it was indexed, yet the file has the stamp at which one of its columns was last indexed |
| QueryEngine.IndexQueryEngine.constructor | src/query.rs:69-104 | the catalogue lists each directory once, under its first metadata line or `file-` and its name, with the fourth line as row-group count when that is a number |
| QueryEngine.IndexQueryEngine.GetOrLoadSet | src/query.rs:108-132 | a resident set is returned whatever the directory holds, else the FST stored there, which is kept; no other answer changes |
| QueryEngine.FileSearchMeaning | src/query.rs:137-173 | when one file's search fails, when it lists nothing, and which groups it lists, over any FST |
| QueryEngine.IndexQueryEngine.SearchAll | src/query.rs:137-173 | the answers of all files in catalogue order, each from its resident set or else the stored one; filling the cache changes no answer |
| CorpusSearch.GatherFailsIff | src/query.rs:137-173 | the search fails iff the search of one file does |
| CorpusSearch.ResidentDecides | src/query.rs:111-114 | with every file's set resident the answer does not depend on the directory |
| QueryEngine.IndexQueryEngine.ExactSearchMulti | src/query.rs:187-206 | the nested count over files and terms |
| CorpusSearch.SearchOverCorpus | src/query.rs:137-179 | over a builder-made index every search succeeds and lists exactly the indexed files with a matching group, each once and with its matching groups |
| CorpusSearch.SearchOfSeen | src/query.rs:137-179 | the same for any engine, whenever it was opened and whatever it has resident, in terms of the FSTs it sees |
| CorpusSearch.EmptyAnswerIffAbsent | src/query.rs:137-179 | on NUL-free columns the corpus answer is empty iff the term is in no indexed row group |
| CorpusSearch.SearchAfterPrune | src/query.rs:69-104 | a fresh engine after a prune gives the same multiset of entries as before, restricted to existing files |
| CorpusSearch.BatchIsSumOfSearches | src/query.rs:181-206 | the batched count is the sum over terms, repeats included, of the number of files the single searches return |
| CorpusSearch.RenderedIsBuilderMade | src/query.rs:187-206 | that sum rule applies to every index a run can produce |
| FstCacheProtocol.PublishedNeverChanges | src/query.rs:128-131 | in every interleaving a published entry stays the same object |
| FstCacheProtocol.SameObjectForAll | src/query.rs:108-132 | all calls that return a set for one (file, column) return the same object, even while files are rewritten |
| FstCacheProtocol.DifferentKeysDifferentObjects | src/query.rs:108-132 | calls for different pairs never share an object |
| FstCacheProtocol.KeepsReading | src/query.rs:118-126 | an object reads the same from one point of a run to another unless its file is written in place in between; removing the file and creating a new one in its place does not matter |
| FstCacheProtocol.ReindexChangesResident | src/index.rs:274-283 | the run in which a re-index in place changes what a resident object reads as, to anything or to a fault, between two calls that both return it |
| FstCacheProtocol.EveryCallFaithful | src/query.rs:108-132 | while a file's FST is neither written nor removed every call returns, and goes on reading as, what opening it afresh would |
| FstCacheProtocol.UndisturbedCall | src/query.rs:108-132 | a call without interference is one sequential cache access |
| ConcurrentSearch.SearchIsUncached | src/query.rs:137-173 | over an unchanging index directory every search of every interleaving, reading each file any time after its call returned, equals the search without a cache |
| ConcurrentSearch.BatchIsUncached | src/query.rs:187-206 | so does every batched count |
| ConcurrentSearch.SearchesAgree | src/query.rs:108-173 | two searches whose calls all return a set find the same in every file, unless that file's FST is written in place between their two readings of it; prunes are harmless |
| Filters.ExtractedShapes | src/provider.rs:341-359 | an equality of a column and a literal, in either order, is all that is extracted, the null string as the text `NULL` |
| Filters.ExtractedIff | src/provider.rs:341-359 | of the comparisons of a column with a string exactly those are extracted that are true of the rows holding that string there and of no others |
| Filters.ExtractedFilterMeaning | src/provider.rs:341-359 | an extracted filter is true of exactly the rows holding the extracted text in that column, and of none when the literal is the null string |
| Pruning.MergeStep | src/provider.rs:301-322 | adding one hit keeps "every hit file with the intersection of the sets that hit it" |
| Pruning.PruneWithFstIndex | src/provider.rs:290-338 | for each file hit at least once, the strictly ascending intersection of the row-group sets that hit it, and its path |
| Pruning.HitsAreFound | src/provider.rs:297-300 | the hits are what the exact searches of the equality filters find; a failing search adds nothing and takes nothing away |
| Pruning.FilterOrderIrrelevant | src/provider.rs:297-325 | the pruned row groups do not depend on the order or repetition of the filters |
| PruningTheorem.HitsAreOwed | src/provider.rs:297-300 | the hits are exactly what the equality filters' searches owe for the FSTs the engine sees |
| PruningTheorem.KeptGroupsAre | src/provider.rs:297-335 | an indexed file is kept iff some equality filter finds it, and then with exactly the row groups found by every filter that finds it |
| PruningTheorem.IntersectionKept | src/provider.rs:297-335 | the pruning always keeps the intersection over all equality filters the file is indexed for |
| PruningTheorem.PassingGroupHit | src/provider.rs:301-322 | a group with a row passing all filters is in every set that hits its file |
| PruningTheorem.KeptIsCovered | src/provider.rs:327-337 | a kept file is covered by an equality filter and keeps only groups it has |
| ScanPlan.AccessPlan | src/provider.rs:474-479 | the plan has one flag per row group, set exactly for the matched groups |
| ScanPlan.PlanMeaning | src/provider.rs:364-374 | a file is planned iff it exists and a matched group is below the recorded count, right or wrong, or the footer's without one; the plan has that many entries and marks the matched groups |
| ScanPlan.PlanScan | src/provider.rs:451-495 | in any visiting order, one plan per matched existing file with a matched group |
| ScanPlan.SkippingIsLossless | src/provider.rs:448-450 | skipping groups without a passing row loses no passing row, nor their order |
| ScanTheorem.PlanIsLossless | src/provider.rs:473-483 | when the engine sees an index fresh on the filtered columns, the total used is the file's, every pruned group is below it, and the plan scans exactly the matched groups |
| ScanTheorem.NoEqualityFilterReadsNothing | src/provider.rs:403-411 | without an equality filter the pruning keeps no file and there is no plan, whatever the index and the data |
| ScanTheorem.PruningPreservesRowsIff | src/provider.rs:389-498 | for any filters and any engine, whenever opened, that sees an index fresh on the columns they name, the filtered pruned scan never has a row too many, and is the same multiset as the filtered full scan iff every file with a passing row is indexed in the engine's eyes on the string column of some equality filter |
| EndToEnd.Scan | src/provider.rs:389-498 | pruning followed by planning, over the engine's catalogue and cache |
| EndToEnd.QueryThroughIndex | src/provider.rs:389-498 | open, prune and plan as one computation with the rows of the full scan, under the same condition |
| EndToEnd.QueryAfterRun | src/provider.rs:389-498 | after any run, with any columns, whose log is right on the filtered columns: never a row too many through the index, and the rows of a full scan iff every file with a passing row is covered |
| EndToEnd.StampsMakeLogRight | src/index.rs:108-126 | the log is right on a column when every file has the stamp at which that column and the metadata were last written |
| EndToEnd.QueryAfterBuild | src/provider.rs:389-498 | after any run ending in a build of the filtered column, with one column per index or with a forced build and no equality filter on another column, a query returns exactly the rows of a full scan, provided the files with such a row store the column as strings |
| OpenEngine.EngineRowsIff | src/provider.rs:389-498 | the row theorem on an engine's own catalogue, counts and resident or stored FSTs, with no other description of the index |
| OpenEngine.QueryLater | src/query.rs:29-67 | an engine opened when the log is right and kept while files come, go, are indexed and pruned, no catalogued file being written, still reads never a row too many, and all of them iff every file with a passing row is covered in its eyes |
| FooterCache.MetadataCache.Get | src/provider.rs:69-77 | a stored footer is returned and counted as a hit |
| FooterCache.MetadataCache.Insert | src/provider.rs:80-86 | the footer is stored and a miss counted |
| FooterCache.MetadataCache.GetMetadata | src/provider.rs:159-177 | one request: hit, or parse, store and count, or fail leaving the cache as it was |
| FooterCache.LoneRequest | src/provider.rs:159-177 | whatever other readers have under way, a request that runs through undisturbed does to the shared state what that method does |
| FooterCache.WastedParses | src/provider.rs:50-57 | in every finished interleaving stored footers <= misses <= stored footers + overlapping requests, with equality on the right when no parse failed |
| FooterCache.StoresAlong | src/provider.rs:80-86 | in every interleaving misses counted or about to be = stored footers + footers stored over a stored one |
| FooterCache.ParsedOnceIff | src/provider.rs:50-57 | in every finished run each footer is parsed once iff none was stored over a stored one; whenever no request for a missing footer was made while another reader was parsing or storing it; and without failed parses only then |
| FooterCache.FailedOverlapWastesNothing | src/provider.rs:169-175 | why that last "only then" is for runs without failed parses: an overlapping parse that fails wastes nothing |
| FooterCache.SequentialParsesOnce | src/provider.rs:50-57 | hence, one reader after another: misses = distinct files, all other requests are hits |
| FooterCache.SequentialIsFaithful | src/provider.rs:159-177 | one reader after another and no file rewritten meanwhile: a cached footer is the file's own |
| FooterVersions.CachedIsPresentIff | src/provider.rs:159-177 | in every interleaving with files rewritten at any time, a cached footer is the file's present one iff the parse last stored for it read a file with that footer; always when the file was not rewritten since |
| FooterVersions.CachedStays | src/provider.rs:159-177 | once no reader is about to store a footer for the file, the cached one stays whatever requests and rewrites follow |
| FooterVersions.StaleHit | src/provider.rs:163-165 | the run in which a request after a rewrite is answered with the old footer |
| FooterCache.AccountsBalance | src/provider.rs:67-95 | in every interleaving hits + misses + unfinished + failed = started, and stored footers <= misses + stored-not-yet-counted |
| FooterCache.QuietMissesCoverEntries | src/provider.rs:88-94 | with no request under way misses >= stored footers |
| FooterCache.TwoReadersParseTwice | src/provider.rs:163-177 | two interleaved readers parse one footer twice |
| CorpusGen.ReverseDomainInvolution | src/corpus_gen.rs:65-69 | reversing the labels twice gives the string back |
| CorpusGen.ReverseOfParts | src/corpus_gen.rs:65-69 | a string without a dot is its own reversal, and around a dot the reversed parts change places: this fixes the reversal of every string |
| CorpusGen.SuffixIsReversedPrefix | src/corpus_gen.rs:65-69 | d ends in "." + s iff the reversed d starts with the reversed s + "." |
| CorpusGen.Rng.NextU64 | src/corpus_gen.rs:35-42 | the new state, also the result, is the three shift-xor stages applied to the old one |
| CorpusGen.Rng.constructor | src/corpus_gen.rs:31-34 | the state starts as the seed, or as 1 for seed 0 |
| CorpusGen.StepBits | src/corpus_gen.rs:35-42 | the step bit by bit: left by 13, right by 7, left by 17 |
| CorpusGen.FirstFromOne | src/corpus_gen.rs:35-42 | the first number from seed 1 is 0x40822041 |
| CorpusGen.StepInjective | src/corpus_gen.rs:35-42 | different states have different successors |
| CorpusGen.NeverZero | src/corpus_gen.rs:32-42 | from any seed no reachable state is zero |

## Left out

- Parquet decoding, Arrow arrays, schema inference and DataFusion's planning and execution: a plan's meaning is the rows of its marked row groups, with the filter applied above.
- The inside of the `fst` crate and `DefaultHasher`. What a mapped FST reads as after its file was written in place is left open, and writing a file is one step.
- QueryEngine.IndexQueryEngine.GetOrLoadSet: keeps the keys a resident set reads as, for one directory at a time; files written under resident sets are in `FstCacheProtocol`.
- I/O errors, lock poisoning and non-UTF-8 paths: a file is present and readable or absent.
- Directory walking, path canonicalisation, object-store URLs, size hints, limit and projection.
- Non-string literals in filters: only string and null-string literals are modelled.
- A crash between the writes of `metadata.txt` and the FST inside `index_file`: indexing one file is one step.
- IndexRoot.RebuiltIff: does not model two data files whose paths have the same 64-bit hash, because such files overwrite each other's directory.
- FooterCache.MetadataCache.GetMetadata: is one request without interference; the interleaved requests are the state machine of the same module, and `LoneRequest` connects the two.
- `resolve_file_paths`, `get_available_columns`, `list_indexed_files`, the CLI, the Python binding, the bloom probe and the corpus writer: listings, wrappers and benchmark code.
