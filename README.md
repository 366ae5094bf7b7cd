# Anything: a Dafny model of the indexing and retrieval core

Anything is a local desktop search engine. It works in three phases:
- A quick scan walks a directory tree. It records every file's path and modification time in a SQLite `files` table, which a full-text table `files_fts` mirrors.
- A deep scan fills in each readable document's text ("summary").
- An embedding scan splits each summary into word windows and stores one vector per window.

A query goes through several stages:
1. Date expressions are removed from the query and become a time window.
2. The query runs in parallel against the keyword index and the vector index.
3. The two result lists are merged by path, launchers are boosted, and the first fifteen are returned.
4. The desktop front end adds a settings entry and extension icons.

This project models that core in Dafny over an in-memory store and proves what each step promises. There is one module per source file:

| module | file | models |
|---|---|---|
| `Text` | text.dfy | the Go `strings`/`filepath` functions the core relies on (Fields, Join, TrimSpace, ReplaceAll, Contains, ASCII case mapping, Ext, Base) |
| `Extraction` | extraction.dfy | `cleanText`, `isContentReadable`, `truncateString`, the three content readers and the timeout dispatcher (core/indexer.go) |
| `Db` | db.dfy | the `files` table, its UNIQUE path index, the FTS mirror kept by the triggers and the vector rows, as a class `Store`; `GetFilesNeedingEmbedding`, `SaveVector`, `SearchFiles` (core/db.go) |
| `QuickScan` | quick_scan.dfy | `LoadFileMap` and `RunQuickScan`: pruning, the skip/update/insert decision, counters and batch commits |
| `DeepScan` | deep_scan.dfy | `RunDeepScan`, `chunkText` and `RunEmbeddingScan` |
| `VectorSearch` | vector_search.dfy | blob decoding, `CosineSimilarity`, `LoadVectorIndex` (class `VectorIndex`), `SemanticSearch` |
| `Sorting` | sorting.dfy | `sort.Slice` by descending score, as an in-place insertion sort on an array |
| `Hybrid` | hybrid.dfy | `HybridSearch`: merge by path, launcher boost, ranking and the cap of fifteen |
| `Nlp` | nlp.dfy | a proleptic Gregorian calendar, `getMonthWindow`, `manualFallback`, `ParseDateQuery` |
| `Tokenizer` | tokenizer.dfy | `InitTokenizer` (class `Tokenizer`) and `Tokenize` |
| `Apps` | apps.dfy | `getAppPaths` and `RunAppScan` |
| `Hotkey` | hotkey.dfy | `parseHotkey`, the key table and the registration guard |
| `Icons` | icons.dfy | `isImageFile`, `isVideoFile`, `GetImageThumbnail`, the BGRA to RGBA copy, the icon dispatch of `GetAppIconBase64` and the outcome of `GetExtensionIconBase64` |
| `App` | app.dfy | `loadExtIcons` (class `ExtIconCache`), `Search` and `OpenFile` from app.go |

Outside collaborators become parameters:
- The file system walk is the sequence of entries `filepath.WalkDir` would report.
- The SQL full-text engine is a function from the built query to its rows.
- The embedding model is a function from text to an optional vector.
- The date recogniser is an optional (index, text, instant) found in the query.
- A document parser's result is a `Source` value.
- The extraction timeout is a boolean.
- Image decoding and PNG/base64 encoding are optional values and functions.

Integers are unbounded. Where the source truncates, the model says so.

Two behaviours of the source worth noting, both modelled as written:
- The date fallback removes every occurrence of "from" from the lower-cased query, including inside words such as "fromage" (core/nlp.go:39-42).
- In the "simple" embedding strategy the whole summary is one chunk; only the tokenizer's own length limit cuts it (core/indexer.go:413-416).

## Model

| member | source | states |
|---|---|---|
| Extraction.StripTags | core/indexer.go:25-30 | removing markup tags never lengthens the text |
| Extraction.StripTagsLeavesNoTag | core/indexer.go:25-30 | after stripping, no `<` is followed anywhere later by a `>`: every `<...>` run has gone |
| Extraction.StripTagsAddsNoGt | core/indexer.go:25-30 | stripping never introduces a `>` |
| Extraction.StripTagAt | core/indexer.go:28-30 | a tag running to the first `>` becomes exactly one space |
| Extraction.NoTagIsUnchanged | core/indexer.go:25-30 | text without `<` is left as it is by the tag regex |
| Extraction.DecodeEntities | core/indexer.go:31-37 | entity decoding never lengthens the text |
| Extraction.NoAmpersandNoEntity | core/indexer.go:31-37 | text without `&` is unchanged by entity decoding |
| Extraction.AmpersandDecodedBeforeLessThan | core/indexer.go:31-37 | entities are decoded once, in the order nbsp, quot, apos, amp, lt, gt, so `&amp;lt;` cleans to `<` |
| Extraction.DecodeExample | core/indexer.go:31-37 | the six replacements in order map `&amp;lt;` to `<` |
| Extraction.AdjacentTagsSeparateWords | core/indexer.go:25-62 | in markup mode `A</b><b>B` cleans to `A B`: each tag becomes its own space before the spaces collapse |
| Extraction.TagsBetweenTwoRunes | core/indexer.go:25-62 | two word runes separated by a closing and an opening tag clean to the two runes with one space |
| Extraction.Prepared | core/indexer.go:24-40 | what reaches the rune loop is never longer than the raw text |
| Extraction.Filtered | core/indexer.go:46-60 | the rune loop never lengthens its input, and every rune it emits is a space or a kept rune (printable ASCII, tab, newline) |
| Extraction.FilteredKeepsKept | core/indexer.go:46-60 | the rune loop is the identity on text whose runes all pass the filter |
| Extraction.CleanedIsClean | core/indexer.go:24-63 | cleaned text is printable ASCII only (no tab, no newline), has no leading or trailing space and never two spaces in a row |
| Extraction.CleanedLength | core/indexer.go:24-63 | cleaning never lengthens the text |
| Extraction.CleanIsFixedPoint | core/indexer.go:40-62 | in plain mode a clean text is its own cleaning |
| Extraction.CleanTwiceIsCleanOnce | core/indexer.go:40-62 | cleaning an already cleaned text in plain mode changes nothing (idempotence) |
| Extraction.CleanOfKept | core/indexer.go:46-62 | when every prepared rune passes the filter, cleaning is splitting into fields and joining with one space |
| Extraction.CleanSingleRune | core/indexer.go:46-62 | text that prepares to one printable non-blank rune cleans to that rune |
| Extraction.CleanText | core/indexer.go:24-63 | the rune loop with its lastWasSpace flag computes the cleaned text, which is clean and no longer than the input |
| Extraction.ContentReadableExactly | core/indexer.go:66-73 | a file is readable exactly when its extension is .txt, .rtf, .pdf or .docx in any letter case |
| Extraction.LowerIsEqualFold | core/indexer.go:66-73 | comparing the lower-cased extension with a lower-case literal is case-insensitive equality |
| Extraction.TruncateString | core/indexer.go:442-447 | text of at most num runes is returned unchanged; longer text becomes its first num runes followed by "..." |
| Extraction.PdfIgnoresLaterPages | core/indexer.go:86-101 | pages after the fifth never affect the extracted PDF text |
| Extraction.PdfBufferBound | core/indexer.go:91-101 | the page loop stops once the buffer passes 50 KiB, so it exceeds the cap by at most one page and a space |
| Extraction.ReadPdfContent | core/indexer.go:77-104 | the page loop over at most five pages, with null pages skipped, followed by plain-mode cleaning |
| Extraction.GetContentWithTimeout | core/indexer.go:147-170 | the content is "" when the timer fires first and the chosen reader's text otherwise; it is always clean, and for anything but a PDF at most 50 KiB long |
| Extraction.ExtractedIsClean | core/indexer.go:106-144 | every reader returns clean text; the text and DOCX readers stay within 50 KiB |
| Db.Store.constructor | core/db.go:40-91 | a new store is empty and satisfies the schema invariant |
| Db.InsertKeepsConsistent | core/db.go:88 | the insert trigger keeps `files_fts` an exact mirror and the path index exact |
| Db.RewriteKeepsConsistent | core/db.go:90 | the update trigger keeps the mirror exact |
| Db.DeleteKeepsConsistent | core/db.go:89 | the delete trigger keeps the mirror exact |
| Db.MirrorIsExact | core/db.go:86-91 | in a consistent store the FTS table has exactly one row per file, with the file's filename, summary and path, and the paths it can return are exactly the catalogued ones |
| Db.PathIsUnique | core/db.go:40-49 | no two rows share a path, and there are as many rows as distinct paths |
| Db.Store.InsertFile | core/db.go:40-49 | inserting succeeds exactly when the path is new; on success the row gets the next rowid and its FTS copy, on failure nothing changes |
| Db.Store.Rewrite | core/db.go:86-91 | rewriting a stored path replaces its row and its FTS copy in place; an unknown path changes nothing |
| Db.Store.UpdateModTime | core/indexer.go:264 | the quick scan's update sets the new mtime and a NULL summary on the row with that path, and changes nothing else |
| Db.Store.UpdateSummary | core/indexer.go:326-328 | the deep scan's update sets the row's summary, and changes nothing else |
| Db.Store.UpdateApp | core/apps.go:93 | the app update sets mtime, summary and icon of the row with that path, and changes nothing else |
| Db.Store.DeleteFile | core/db.go:86-91 | deleting removes the row and its FTS copy, and nothing else |
| Db.Store.InsertVector | core/db.go:111-120 | adding a vector row appends it, and the file leaves the needing-embedding set |
| Db.NeedingEmbedding | core/db.go:93-109 | the pending files are exactly those with a non-NULL, non-empty summary and no vector row, each returned with its summary |
| Db.NeedingAfterRows | core/db.go:93-109 | adding vector rows removes exactly their file ids from the pending set |
| Db.WordRoundTrip | core/db.go:113-116 | the four little-endian bytes of a 32-bit word reassemble to that word |
| Db.Encoded | core/db.go:111-117 | n values encode to exactly 4n bytes; value i occupies bytes 4i..4i+3, little-endian |
| Db.EncodedByWords | core/db.go:111-117 | any blob laid out word by word in little-endian order is the encoding |
| Db.EncodeVector | core/db.go:111-117 | the byte loop computes the encoding |
| Db.SaveVector | core/db.go:111-120 | one vector row holding the encoded blob is appended; nothing else in the store changes |
| Db.QueryTermsAreAlnumRuns | core/db.go:123-127 | the query terms are the maximal runs of ASCII letters and digits, in order |
| Db.Starred | core/db.go:129-133 | each term gets its `*` suffix, in the original order |
| Db.KeywordQueryFor | core/db.go:129-152 | the arguments are the MATCH expression (starred terms joined by " AND "), then the minimum time when > 0, then the maximum time when > 0 |
| Db.BuildKeywordQuery | core/db.go:129-152 | the string-building loop produces that query |
| Db.KeywordScore | core/db.go:167 | a keyword score is never negative, and is 0 exactly when the rank is 0 |
| Db.KeywordScoreReversesRank | core/db.go:167 | a better (more negative) rank never gets a lower score |
| Db.Scored | core/db.go:153-171 | a result built from a row has a non-negative score |
| Db.SearchFiles | core/db.go:122-172 | no terms gives an empty result without querying; a failed query or unreadable row gives an error; otherwise one scored result per row, in row order |
| QuickScan.HiddenBelow | core/indexer.go:224-247 | an entry below any pruned directory is hidden from the walk |
| QuickScan.Reached | core/indexer.go:214-255 | the files that reach the decision are non-directories with a modification time |
| QuickScan.PrunedDirectoryHidesItsContents | core/indexer.go:224-247 | nothing below a pruned directory reaches the decision |
| QuickScan.Decide | core/indexer.go:255-271 | skip exactly when the stored mtime is equal; update exactly when it differs; insert exactly when the path is absent |
| QuickScan.LoadFileMap | core/indexer.go:173-194 | the loaded map holds the mtime of every stored path under the root |
| QuickScan.Scan.constructor | core/indexer.go:197-212 | a scan starts with zero counters, no commits, nothing pruned and the loaded map |
| QuickScan.Scan.Visit | core/indexer.go:214-281 | the walk callback prunes directories by the three rules; a reached file's path leaves the map, its counter is tallied and the store is updated by the decision; any other entry changes nothing but the pruned list |
| QuickScan.Scan.Record | core/indexer.go:255-271 | the per-file decision removes the path from the map, applies the write and bumps one counter |
| QuickScan.Scan.Count | core/indexer.go:255-279 | one counter per decision; the map is untouched |
| QuickScan.Expected | core/indexer.go:255-271 | a visited file's row keeps its mtime; it is unchanged exactly when skipped, and written rows get a NULL summary |
| QuickScan.Tally | core/indexer.go:255-271 | scanned equals the number of files reached, which equals added + updated + skipped |
| QuickScan.ReconciledRows | core/indexer.go:255-283 | after a scan the catalogue holds the old paths plus the reached ones; paths not reached keep their rows (nothing is deleted) and reached ones have their expected row |
| QuickScan.RescanWritesNothing | core/indexer.go:255-271 | a second scan of an unchanged tree finds the catalogue already reconciled and makes zero inserts and zero updates |
| QuickScan.AllSkipped | core/indexer.go:255-271 | when every reached file has its stored mtime, the scan writes nothing |
| QuickScan.DecideIsClassify | core/indexer.go:173-194 | because each visited path is removed from the map, deciding against the shrinking map equals deciding against the stored catalogue |
| QuickScan.RunQuickScan | core/indexer.go:197-285 | the catalogue becomes the old one reconciled with the reached files, the counters are their tally, and one commit follows every 2000 writes; vectors and icons are untouched |
| DeepScan.PendingFiles | core/indexer.go:293-307 | the pending list is exactly the paths with a NULL summary and a readable extension, each once |
| DeepScan.SummarisedRows | core/indexer.go:320-338 | after the update loop each pending row holds its extracted content and every other row is unchanged |
| DeepScan.NothingLeftPending | core/indexer.go:293-338 | after a deep scan no selected row keeps a NULL summary |
| DeepScan.DeepContentIsClean | core/indexer.go:326 | what the deep scan stores is clean text (possibly empty on timeout or failure) |
| DeepScan.RunDeepScan | core/indexer.go:288-342 | every pending row is written with its content, others unchanged; processed counts them, with a commit every 100 and one at the end |
| DeepScan.ChunkCount | core/indexer.go:344-369 | n > 0 words give between 1 and max(maxChunks, 1) chunks, each starting inside the text at word 250·k |
| DeepScan.ChunkCountIs | core/indexer.go:344-369 | the count is the smallest c whose windows reach the end, unless capped at max(maxChunks, 1) |
| DeepScan.ChunkText | core/indexer.go:344-369 | the stepped loop computes the chunk list |
| DeepScan.ChunkHoldsItsWindow | core/indexer.go:355-366 | chunk k holds words 250·k up to 250·k + 300, cut at the end of the text |
| DeepScan.ChunksCoverEveryWord | core/indexer.go:355-366 | with enough chunks every word lies in chunk floor(j/250) |
| DeepScan.EffectiveMaxChunks | core/indexer.go:394-400 | maxChunks is at least 1, and is 1 in "simple" mode |
| DeepScan.ChunkRowsExact | core/indexer.go:423-436 | a vector row exists for chunk i exactly when the chunk has at least 10 bytes and embeds; it keeps index i and holds the encoded vector |
| DeepScan.FileRowsBound | core/indexer.go:394-436 | a file gets at most maxChunks rows, and in "simple" mode only chunk 0 |
| DeepScan.EmbedChunks | core/indexer.go:423-436 | the chunk loop appends exactly those rows, and changes nothing else |
| DeepScan.EmbedFile | core/indexer.go:411-436 | one file's summary is chunked by the strategy and its rows appended |
| DeepScan.EmbedNext | core/indexer.go:405-437 | one turn of the file loop extends the rows by that file's rows |
| DeepScan.RunEmbeddingScan | core/indexer.go:371-440 | without AI nothing changes; otherwise each pending file is visited once, in some order, and its rows appended; files and summaries are untouched |
| VectorSearch.Decoded | core/vector_search.go:59-65 | a blob decodes to floor(len/4) words, word i little-endian from bytes 4i..4i+3 |
| VectorSearch.DecodeBlob | core/vector_search.go:59-65 | the decoding loop computes that |
| VectorSearch.DecodeEncoded | core/vector_search.go:59-65 | decoding what SaveVector encoded gives back the original bit patterns |
| VectorSearch.DecodeIgnoresTrailingBytes | core/vector_search.go:59-65 | trailing bytes past the last whole word are ignored |
| VectorSearch.SavedVectorReadsBack | core/vector_search.go:53-71 | a saved row loads into the index as the same file, chunk and vector |
| VectorSearch.Indexed | core/vector_search.go:47-72 | the index holds at most one entry per row |
| VectorSearch.IndexedAllRows | core/vector_search.go:47-72 | when every row scans, the index holds every row's decoded vector, in order |
| VectorSearch.VectorIndex.Load | core/vector_search.go:36-75 | a failed query leaves the index untouched; otherwise it is replaced by the decoded rows, rows that fail to scan skipped |
| VectorSearch.CosineSimilarity | core/vector_search.go:24-33 | the loop computes the dot product, and gives 0 when the lengths differ |
| VectorSearch.SimilaritySymmetric | core/vector_search.go:24-33 | similarity is symmetric |
| VectorSearch.BestScoresSound | core/vector_search.go:97-107 | every file in the score map scored above 0.35, and its score is one of its chunks' scores |
| VectorSearch.BestScoresMax | core/vector_search.go:97-107 | every chunk above 0.35 has its file in the map, at a score at least its own: each file keeps its maximum |
| VectorSearch.ScoreFiles | core/vector_search.go:97-107 | the chunk loop builds that map |
| VectorSearch.CollectMatches | core/vector_search.go:109-112 | the matches list each scored file once, with its score |
| VectorSearch.RankMatches | core/vector_search.go:113-115 | the matches are sorted by descending score as a permutation |
| VectorSearch.ListsPermuted | core/vector_search.go:109-115 | sorting keeps the listing property |
| VectorSearch.Top | core/vector_search.go:114-116 | truncation keeps a prefix of at most 10 |
| VectorSearch.TopIsBest | core/vector_search.go:113-116 | every kept match scores at least as high as every dropped one |
| VectorSearch.Lookup | core/vector_search.go:120-127 | the lookup succeeds exactly for a stored file with a non-NULL summary |
| VectorSearch.Snippet | core/vector_search.go:138-141 | the snippet is the summary when at most 200 long, else its first 200 followed by "..." |
| VectorSearch.Presented | core/vector_search.go:118-147 | presentation never adds results |
| VectorSearch.PresentedSound | core/vector_search.go:118-147 | every result comes from a kept match (lookup succeeds, mtime inside the bounds that are > 0) |
| VectorSearch.PresentedComplete | core/vector_search.go:118-147 | every kept match is presented |
| VectorSearch.PresentedDescending | core/vector_search.go:118-147 | date filtering after truncation keeps the descending order |
| VectorSearch.Present | core/vector_search.go:118-147 | the presentation loop computes that list |
| VectorSearch.SemanticSearch | core/vector_search.go:79-150 | an error when the AI is not ready, the index is empty or the embedding fails; otherwise the best-per-file matches, sorted, cut to 10, then filtered and presented |
| VectorSearch.SemanticResults | core/vector_search.go:109-147 | the output has at most 10 entries in descending order, each scoring above 0.35 with a snippet of at most 203 |
| Sorting.SortByKeyDescending | core/hybrid.go:114-116 | the array ends sorted by descending key and is a permutation of the input |
| Sorting.Insert | core/hybrid.go:114-116 | one insertion step extends the sorted prefix and keeps the multiset |
| Hybrid.KeywordEntries | core/hybrid.go:63-68 | the keyword loop files each result under its own path |
| Hybrid.KeywordEntriesAt | core/hybrid.go:63-68 | a path is present exactly when some keyword result has it, at 1.2 times that result's score |
| Hybrid.VectorEntriesKeyed | core/hybrid.go:71-87 | the vector loop keeps entries under their paths and adds exactly the vector paths |
| Hybrid.VectorEntriesOutside | core/hybrid.go:71-87 | a path no vector result has keeps its keyword entry |
| Hybrid.MergedEntry | core/hybrid.go:63-87 | keyword only: 1.2·kw; vector only: v; both: 1.2·kw + v + 0.5 with the keyword result's fields, taking the vector snippet only when strictly longer |
| Hybrid.BoostFactor | core/hybrid.go:91-106 | a path is boosted exactly when its lower-cased form ends in .lnk or .exe: by 20 when its lower-cased base name starts with the lower-cased query, else by 10 |
| Hybrid.BoostOne | core/hybrid.go:92-105 | the loop body multiplies the final score by that factor and changes nothing else |
| Hybrid.Boost | core/hybrid.go:91-106 | the boost loop, in any key order, boosts every entry exactly once |
| Hybrid.BoostedUnique | core/hybrid.go:91-106 | the boosted map does not depend on the iteration order |
| Hybrid.CollectEntries | core/hybrid.go:109-112 | the list holds every map entry exactly once |
| Hybrid.RankEntries | core/hybrid.go:114-116 | the list is sorted by descending final score as a permutation |
| Hybrid.Output | core/hybrid.go:118-124 | at most 15 results come out |
| Hybrid.OutputIsTop | core/hybrid.go:114-124 | the output is the min(15, size) best entries, each carrying its source result's original score, and none scores below a dropped one |
| Hybrid.BoostedRanked | core/hybrid.go:63-106 | the boosted map is the merge of the two lists, boosted |
| Hybrid.MergeAndRank | core/hybrid.go:60-124 | merge, boost, collect, sort and cut give the best 15 of the boosted merge in descending order |
| Hybrid.KeywordSide | core/hybrid.go:39-44 | the keyword branch yields the scored rows of SearchFiles, or nothing on any error |
| Hybrid.VectorSide | core/hybrid.go:30-37 | the vector branch is skipped without AI and yields SemanticSearch's results, or nothing on error |
| Hybrid.HybridSearch | core/hybrid.go:17-127 | the date-parsed clean query feeds both branches; the output is their ranked merge and the error is always nil |
| Nlp.DaysInMonth | core/nlp.go:22-26 | a month has 28 to 31 days |
| Nlp.YearLength | core/nlp.go:125-129 | a year's days are the sum of its months' days |
| Nlp.MonthLength | core/nlp.go:22-26 | consecutive month starts are the month's length apart |
| Nlp.NextMonth | core/nlp.go:22-26 | the next month starts right after this month's last day, December rolling into January of the next year |
| Nlp.PrevMonth | core/nlp.go:34-43 | the previous month is the one whose next month is this one |
| Nlp.Unix | core/nlp.go:22-26 | an instant lies within its day's seconds |
| Nlp.Weekday | core/nlp.go:116-119 | the weekday is 0 (Sunday) to 6 |
| Nlp.DaysWindow | core/nlp.go:122-134 | a run of whole days spans exactly that many days of seconds, ending one second before the next boundary |
| Nlp.DaysWindowHolds | core/nlp.go:122-134 | an instant in one of those days lies inside the window |
| Nlp.MonthWindow | core/nlp.go:22-26 | getMonthWindow starts at the 1st 00:00:00 and ends one second before the 1st of the next month, and contains the instant |
| Nlp.WeekStart | core/nlp.go:116-121 | the week starts on the Monday on or before the day, Sunday counting as day 7 |
| Nlp.WeekWindow | core/nlp.go:115-124 | the week window is the 7 days from that Monday and contains the instant |
| Nlp.YearWindow | core/nlp.go:125-129 | the year window is the calendar year and contains the instant |
| Nlp.DayWindow | core/nlp.go:130-137 | the day window is that day and contains the instant |
| Nlp.GranularityOf | core/nlp.go:107-137 | a month word (or "month") selects a month window; without one, "week" selects a week; without either, "year" or "202" selects a year; with none of them, a day. Each choice holds exactly when its condition does |
| Nlp.WindowOf | core/nlp.go:107-137 | each granularity gives its own window (the month from its 1st with the month's length, the Monday-based week, the calendar year from January 1st, the day), always whole days containing the recognised instant |
| Nlp.WithoutSpan | core/nlp.go:98-100 | removing the span shortens the query by at least its length |
| Nlp.WithoutSpanParts | core/nlp.go:98-100 | the cleaned query is the trimmed text before the span followed by the text after it, case kept |
| Nlp.ParseDateQuery | core/nlp.go:81-140 | without a recognised span the fallback decides; with one the span is cut out and the window is the one the matched text's granularity gives around the recognised instant |
| Nlp.LastWeekWindow | core/nlp.go:46-64 | "last week" is the 7 days ending one second before this week's Monday |
| Nlp.YesterdayWindow | core/nlp.go:67-76 | "yesterday" is the day ending one second before today |
| Nlp.LastMonthWindow | core/nlp.go:34-43 | the corrected "last month": the previous calendar month, ending one second before this month's 1st |
| Nlp.ManualFallback | core/nlp.go:29-79 | no phrase gives the original query with (0, 0); a phrase gives a whole-day window. The window ends before now, except for "last month" on a day the previous month lacks, where it holds now |
| Nlp.CorrectedFallback | core/nlp.go:29-79 | the fallback with "last month" as the previous calendar month: the same no-phrase behaviour, and every window ends before now |
| Nlp.FallbacksAgree | core/nlp.go:34-43 | the source's fallback and the corrected one are equal except on "last month" on a day the previous month lacks |
| Nlp.FallbackPrecedence | core/nlp.go:34-78 | "last month" (the AddDate window) wins over "last week", which wins over "yesterday"; the clean text is the lower-cased query with the phrase and every "from" removed, trimmed |
| Nlp.LastMonthAsWritten | core/nlp.go:36-37 | the window computed from now.AddDate(0, -1, 0), with Go's day overflow normalisation |
| Nlp.LastMonthAgrees | core/nlp.go:36-37 | when the day exists in the previous month, the as-written window is the previous month |
| Nlp.LastMonthOverflows | core/nlp.go:36-37 | when it does not, the as-written window is the current month and contains now |
| Nlp.LastMonthOnMarch31 | core/nlp.go:36-37 | on 2024-03-31 the as-written "last month" window is March, not February |
| Nlp.FallbackOnMarch31 | core/nlp.go:34-43 | on 2024-03-31 the source's fallback answers "last month" with a window holding now; the corrected one ends before now |
| Tokenizer.VocabOfLastLine | core/tokenizer.go:31-38 | every line is a key; it maps to its 0-based line number, and a later duplicate overwrites an earlier one |
| Tokenizer.Tokenizer.constructor | core/tokenizer.go:12 | the vocabulary starts empty |
| Tokenizer.Tokenizer.InitTokenizer | core/tokenizer.go:22-40 | an unreadable file leaves the vocabulary; otherwise it is built from the file's lines |
| Tokenizer.SplitWords | core/tokenizer.go:52-66 | the rune loop with its builder yields the maximal runs of word runes |
| Tokenizer.WordsAreRuns | core/tokenizer.go:45-66 | every word is non-empty and made of letters or digits after lower-casing |
| Tokenizer.WordIds | core/tokenizer.go:72-84 | each word maps to exactly one id, its vocabulary entry or 100, in input order |
| Tokenizer.TokenIds | core/tokenizer.go:69-92 | the length is min(words + 2, 512); the first id is 101 (CLS), the last 102 (SEP), the ones in between the first word ids in order |
| Tokenizer.NoWordsFramed | core/tokenizer.go:69-86 | empty or separator-only text gives [101, 102] |
| Tokenizer.Tokenizer.Tokenize | core/tokenizer.go:43-95 | the loops compute those ids for the text |
| Apps.AppPaths | core/apps.go:13-26 | roots only on Windows, only from non-empty ProgramData and APPDATA, each with the Start Menu suffix, in that order |
| Apps.AppSummary | core/apps.go:78-79 | the file name with the lower-cased extension trimmed as a suffix, then " Application" |
| Apps.UpperExtensionKept | core/apps.go:78-79 | when the extension's case differs, nothing is trimmed ("X.LNK Application") |
| Apps.LowerExtensionTrimmed | core/apps.go:78-79 | a lower-case extension is trimmed |
| Apps.AppsAppliedKeys | core/apps.go:84-94 | every app entry's path is stored afterwards, and no path is lost |
| Apps.AppsAppliedNew | core/apps.go:84-94 | every new path comes from some app entry |
| Apps.AppsAppliedUntouched | core/apps.go:84-94 | a stored path no app entry names keeps its row |
| Apps.AppsAppliedLast | core/apps.go:84-94 | an app entry's row holds its mtime, summary and icon from its last occurrence, updated with no mtime comparison |
| Apps.ApplyAppSelf | core/apps.go:84-94 | one app entry stores its mtime, icon and summary |
| Apps.RescanAddsNothing | core/apps.go:87-91 | a second scan of the same entries inserts nothing |
| Apps.NoNewWhenPresent | core/apps.go:87-91 | nothing is counted when every app is already stored |
| Apps.VisitApp | core/apps.go:63-98 | only .lnk, .exe and .url files are written; count grows exactly on an insert of a new path |
| Apps.ScanRoot | core/apps.go:62-99 | walking one root applies its entries in order |
| Apps.RunAppScan | core/apps.go:28-103 | with no roots or no transaction the store is untouched and the count is 0; otherwise all entries are applied and count is the number of inserts |
| Hotkey.KeyCode | core/hotkey.go:30-40 | every table code is a virtual-key code below 0x80 |
| Hotkey.LetterCodes | core/hotkey.go:30-40 | A to Z map to 0x41 to 0x5A |
| Hotkey.FunctionKeyCodes | core/hotkey.go:30-40 | F1 to F12 map to 0x70 to 0x7B |
| Hotkey.Parts | core/hotkey.go:43-48 | the shortcut is upper-cased, split on `+` and each part trimmed |
| Hotkey.ParsePart | core/hotkey.go:49-62 | a part ORs its modifier bit into the mask and, when it is in the key table, replaces the key |
| Hotkey.ParseHotkey | core/hotkey.go:42-65 | the loop computes the mask and key of the parts |
| Hotkey.ModsOfNamed | core/hotkey.go:21-28 | ALT = 1, CTRL or CONTROL = 2, SHIFT = 4, WIN or CMD = 8, present exactly when named |
| Hotkey.ModsBelowSixteen | core/hotkey.go:49-57 | the mask is below 16 |
| Hotkey.ModsIgnoreOrder | core/hotkey.go:49-57 | the mask ignores order and repetition of the parts |
| Hotkey.KeyIsLastKeyPart | core/hotkey.go:58-62 | the key is the code of the last part in the table, and 0 exactly when no part is |
| Hotkey.StartHotkeyListener | core/hotkey.go:69-74 | registration is refused exactly when the key is 0; otherwise the parsed mask and key are registered |
| Icons.ImageAndVideoDisjoint | core/icons.go:180-200 | no extension is both an image and a video |
| Icons.ExtensionCaseIgnored | core/icons.go:180-200 | both tests ignore letter case |
| Icons.ThumbSize | core/icons.go:224-231 | the strictly longer side becomes 256 and the other floor(other·256/longer); a square becomes 256×256; neither side grows |
| Icons.Scaled | core/icons.go:224-231 | floor(short·256/long) never exceeds the short side or 256 |
| Icons.NearestBelow | core/icons.go:235-240 | the nearest-neighbour source index x·w/newW stays below w |
| Icons.ThumbnailRow | core/icons.go:235-240 | one output row samples the source row at the nearest-neighbour columns |
| Icons.Resample | core/icons.go:233-241 | the nested loops build a well-formed image of the new size sampling the source |
| Icons.GetImageThumbnail | core/icons.go:202-244 | a decode failure is an error; an image at most 256 on both sides comes back unchanged; otherwise a resampled image of the computed size, at most 256 on both sides |
| Icons.BgraToRgba | core/icons.go:161-174 | every pixel's output (r, g, b, a) is (buf[o+2], buf[o+1], buf[o], buf[o+3]) with o = 4·(y·w + x) |
| Icons.ConvertRow | core/icons.go:162-173 | one row of the loop swizzles that row's pixels |
| Icons.SwizzleInvolution | core/icons.go:161-174 | swizzling is its own inverse |
| Icons.DispatchOrder | core/icons.go:260-295 | images try thumbnail then shell; videos shell only; .lnk and .exe shell then geticon; other files geticon then shell |
| Icons.FirstImage | core/icons.go:260-295 | the chain yields an image exactly when some source succeeds, and that image is the first success |
| Icons.AppIcon | core/icons.go:247-302 | the icon is "" or a data URI with the PNG prefix; it is non-empty exactly when the path resolves, exists, some source succeeds and encoding succeeds |
| Icons.ExtensionIcon | core/icons.go:305-406 | the empty extension gives ""; otherwise a prefixed data URI exactly when the shell icon and its encoding succeed |
| App.LoadedEntry | app.go:416-428 | a scanned extension maps to the icon of its last scanned row; any other extension keeps its cache entry |
| App.ExtIconCache.constructor | app.go:414 | the cache starts empty |
| App.ExtIconCache.Load | app.go:416-428 | a failed query leaves the cache; otherwise each scanned row is stored, rows that fail to scan skipped |
| App.LongQueryNoSettings | app.go:437-447 | a query longer than "settings" never brings up the settings entry |
| App.PieceOffersSettings | app.go:437-447 | every piece of "settings" or "config", in any case, brings it up |
| App.Search | app.go:430-459 | the empty query gives nothing; otherwise the settings entry comes first when offered, then the hybrid results in order, with each empty icon filled from the cache and nothing else changed |
| App.OpenCommand | app.go:470-478 | the path is one argument, the last one, of the platform's open command |
| App.OpenFile | app.go:461-482 | the settings path only opens settings; any other path is counted, opened and the window hidden |

## Left out

- Floating point: scores, similarities and vector values are reals, so float32 rounding, NaN and infinities are not modelled. Stored vectors stay exact 32-bit patterns.
- Byte lengths: Go's `len` and slicing count bytes, while the model counts runes (`seq<char>`). The two agree on the printable-ASCII text `cleanText` produces. They differ for raw file bytes and for query and path text outside ASCII, for example the 200-byte snippet cut and the recogniser's byte index.
- Case mapping is ASCII only. Unicode case folding is not modelled. The tokenizer takes its lower-casing and its letter-or-digit test as parameters.
- `filepath.Join`, `filepath.Clean` and `filepath.Abs` are not modelled. Paths are plain strings joined with `\`, and `filepath.Abs` is a success flag.
- Concurrency is not modelled:
  - the goroutine fan-out in `HybridSearch` runs as two sequential steps;
  - extraction's timeout race is a boolean "timed out";
  - the background indexing pipeline in app.go and the global index's reset-then-append are not modelled.
- SQL: the FTS5 engine's matching, rank, `snippet()` and result limit of 50 belong to the engine parameter. `LIMIT 50` is not checked.
- QuickScan.LoadFileMap: the `LIKE root%` filter is modelled as a plain prefix test. SQL's ASCII case-insensitivity and its `%`/`_` wildcards are not modelled.
- Transactions are not modelled: every write takes effect at once, and a failed `Begin` or `Commit` is not modelled. Only the commit counts are modelled.
- The CASCADE on `file_vectors` is not modelled, because foreign keys are never enabled. Deleting a file leaves its vector rows.
- QuickScan.RunQuickScan: entries whose `Info()` fails are skipped, as in the source. Three failures are not modelled: a failed `LoadFileMap` query, a failed `Begin` (both end the scan before it starts) and the walk's own errors.
- QuickScan.ShouldPrune: the root-folder rule compares `parent` with `root` as given. The source applies `filepath.Clean` to both sides; the model takes both already cleaned, and `filepath.Clean` is not modelled.
- Apps.RunAppScan: the existence query runs outside the transaction in the source. The model reads the current store.
- Db.SearchFiles: the rows the engine returns are an input, so the contract does not restate the 50-row limit or FTS ordering.
- Hybrid.HybridSearch and VectorSearch.SemanticSearch: Go's map iteration order is unspecified, and `sort.Slice` is unstable. The contracts therefore fix the output only up to the order of equal scores.
- VectorSearch.CosineSimilarity: computed over reals, without float32 rounding.
- Icons.AppIcon and Icons.ExtensionIcon:
  - the Win32 shell and geticon calls, image decoding and PNG/base64 encoding are parameters;
  - the icon bytes themselves are not modelled;
  - `getIconFromShell`'s HICON and DIB handling is not modelled, apart from the BGRA to RGBA copy.
- User-interface layer: `showWindow`, `hideWindow`, `monitorFocusLoss`, `OpenSettings`/`CloseSettings` and the hotkey message loop are Win32 and GUI calls. `OpenFile` reports the effects it requests as a list, and `StartHotkeyListener` reports what it would register.
- App.Search takes `HybridSearch`'s result as a parameter and ignores its error, as the source does.
- core.IncrementUsage and RunIconScan are not part of this model. `OpenFile` records the usage call as an effect.
- Embeddings and OCR (core/ai.go, core/ocr.go) are not part of this model. Embedding is a function returning an optional vector.
- Settings, downloader, paths and events (core/settings.go, core/downloader.go, core/paths.go, core/events.go) are not part of this model. The strategy and chunk limit are parameters.
- main.go and the frontend are not part of this model.
- The date recogniser (the `when` library) is not modelled. Its match is an input, and the clock's instant is a parameter in UTC without daylight-saving changes.
- Extraction.ReadPdfContent: the PDF and DOCX parsers and their panic recovery are a `Source` value. Only the page and size caps are modelled.

## Findings

| source | as written | input that shows it | evidently intended | confidence | as-written member | corrected member |
|---|---|---|---|---|---|---|
| core/nlp.go:36-37 | "last month" takes the month of `now.AddDate(0, -1, 0)`. Go normalises an overflowing day, so one month before March 31 is March 2. | now = 2024-03-31 12:00:00 | the previous calendar month (February 2024) | not executed | Nlp.FallbackOnMarch31 | Nlp.CorrectedFallback |

`Nlp.ManualFallback`, which `Nlp.ParseDateQuery` and `Hybrid.HybridSearch` use, models the source as written. `Nlp.CorrectedFallback` uses `Nlp.LastMonthWindow` in its place. `Nlp.FallbacksAgree` shows that the two differ only in the case above.
