# Conversational memory engine and prompt assembler, in Dafny

This project models three pieces of a conversational agent in Dafny and proves properties about them.

**The per-user memory engine** (`src/milvus_database.py`, module `MilvusDatabase`). A `UserClient` keeps one user's state:
- the `user_dialogues` table;
- the `summary` table;
- a raw-context vector collection, with at most one entry per dialogue (none is added once the connection is closed), holding the embedding of the five latest dialogue texts;
- a summary vector collection;
- a 200-slot short-term buffer.

The client's operations:
- `insert_record` stores a dialogue.
- `summarize_memory` condenses every dialogue newer than the latest summary into one new summary.
- `query_raw_memory` and `query_summary_memory` route a query by its shape: a vector, a list of context strings, or one sentence. They then search and optionally rerank.

`MemoryModule` is the registry of clients, keyed by user id.

**The earlier skeleton of that engine** (`src/memory/milvus_database.py`, module `MemorySkeleton`). It has the same SQL helpers and registry. Its four public operations are still stubs.

**The input module** (`input_module.py`, and its identical copy `src/input_module.py`; module `Prompt`). It builds the prompt for the base model from a context template. A template is a list of modules. Each module is guarded by an importance flag, or by a named check, and is made of text and variable segments. The input module also validates a configuration and reports error messages.

Supporting modules:
- `Store`: the two SQL tables as sequences of rows in row-id order, and the `ORDER BY … DESC LIMIT n` queries run on them.
- `Strings`: `" ".join`, substring search and Python's `strip`.
- `Json`: JSON values as Python loads them.
- `Seqs` and `Optional`: small shared helpers.

How the model represents what it cannot see:
- The embedding model is a function from text to a vector.
- Vector search and the reranker are oracles, passed as function arguments. The search is required to return entries of the collection it searched; the reranker, distinct indices into the results.
- The clock is the `now` argument of `InsertRecord`.
- A failed Milvus insert, caught and logged by the source, leaves the collection unchanged. The model writes it as a `milvusConnected` flag that `close` clears.
- A Python exception that nothing catches is the outcome `Raised`.

Ties between equal timestamps are broken by row id: `OrderByDescLimit` takes the later row first. The sliding windows are newest first. This follows the code, because `ORDER BY time DESC` is followed by a plain join.

## Model

| member | source | states |
|---|---|---|
| `Seqs.LastN` | src/milvus_database.py:151 | the last `min(n, |s|)` items of `s`, as a suffix of `s` |
| `MilvusDatabase.PushKeepsLastN` | src/milvus_database.py:150-151 | appending to a full 200-slot deque drops the oldest item. The buffer of the last 200 texts stays the last 200 texts of the extended history, and never holds more than 200 |
| `MilvusDatabase.SummarizePlaceholder` | src/milvus_database.py:716-721 | the summary starts with "Summary of: ", ends with "...", has length 15 + min(50, \|text\|), and its middle is the first min(50, \|text\|) characters of the text |
| `MilvusDatabase.PlaceholderSeesOnlyPrefix` | src/milvus_database.py:716-721 | two texts that agree on their first 50 characters get the same summary |
| `MilvusDatabase.SummaryAfter` | src/milvus_database.py:505-525 | there is no summary exactly when no dialogue is newer than the watermark; otherwise the summary carries the id it is given |
| `MilvusDatabase.NextSummary` | src/milvus_database.py:497-528 | a new summary always takes the next row id of the summary table |
| `MilvusDatabase.PendingEnds` | src/milvus_database.py:505-522 | on a time-ordered log, the dialogues to summarize start after the watermark and end with the newest dialogue |
| `MilvusDatabase.PendingBounds` | src/milvus_database.py:505-522 | every dialogue newer than the watermark lies between the first and the last of the dialogues summarized |
| `MilvusDatabase.SummaryAfterSpec` | src/milvus_database.py:505-525 | there is no summary iff every dialogue is at or before the watermark. Otherwise the summary starts strictly after the watermark, ends at the newest dialogue's time, and covers every newer dialogue |
| `MilvusDatabase.NextSummarySpec` | src/milvus_database.py:497-525 | the same, measured against the greatest `end_time` of the summary table. A new summary starts strictly after every stored summary ends, and its range is non-empty |
| `MilvusDatabase.WatermarkSnoc` | src/milvus_database.py:501-502 | once a summary that starts after all others end is stored, the watermark is its end time |
| `MilvusDatabase.SummarizeTwiceIsNoOp` | src/milvus_database.py:505-513 | right after a summary is stored, summarizing again finds nothing to do |
| `MilvusDatabase.SameSecondDialogueIsSkipped` | src/milvus_database.py:497-512 | two dialogues stamped in the same second, with a summary run between them, form a valid log, yet the second run finds nothing: the second dialogue is never summarized |
| `MilvusDatabase.NewDialoguesById` | src/milvus_database.py:505-508 | the id-watermark filter keeps exactly the dialogues with an id above the last one summarized |
| `MilvusDatabase.NextSummaryById` | src/milvus_database.py:497-528 | with an id watermark, there is no summary iff no dialogue is after it; otherwise the summary takes the next row id |
| `MilvusDatabase.NewDialoguesByIdSuffix` | src/milvus_database.py:505-508 | on a numbered log, the dialogues after row `k` are exactly the rows from position `k` on |
| `MilvusDatabase.NextSummaryByIdSpec` | src/milvus_database.py:497-525 | with an id watermark `k`, there is no summary iff `k` is the last row; otherwise the summary covers rows `k + 1` to the newest, from the first one's time to the last one's, with their joined texts |
| `MilvusDatabase.ConsecutiveRunsCoverAll` | src/milvus_database.py:497-528 | with an id watermark, two consecutive runs together summarize every dialogue after the first watermark exactly once, in order |
| `MilvusDatabase.NextSummaryByIdAgrees` | src/milvus_database.py:497-525 | when no dialogue shares the second of the latest summary's end, the id watermark and the time watermark give the same summary |
| `MilvusDatabase.SameSecondDialogueIsSummarizedById` | src/milvus_database.py:497-528 | with an id watermark, the dialogue skipped in `SameSecondDialogueIsSkipped` becomes the second summary |
| `MilvusDatabase.ClassifySpec` | src/milvus_database.py:545-582 | an all-float list, including the empty list, is the search vector, with no query text. An all-string list (not empty) becomes its space-joined text. Any other list is unsupported. A string is a single sentence. Only the text routes carry a query text for reranking |
| `MilvusDatabase.FindById` | src/milvus_database.py:356-362 | the dialogue found has the hit's id; there is none iff no dialogue has that id |
| `MilvusDatabase.FindByText` | src/milvus_database.py:562-564 | the exact-match lookup finds a dialogue with exactly that text; it finds none iff no dialogue has it |
| `MilvusDatabase.ResolveRawHits` | src/milvus_database.py:329-366 | every result is a dialogue whose id and text are in the table; there are no more results than hits |
| `MilvusDatabase.ResolveRawHitsSnoc` | src/milvus_database.py:352-364 | a hit with no dialogue row is dropped; any other hit adds one result with the row's text and the hit's distance, in hit order |
| `MilvusDatabase.SummaryResults` | src/milvus_database.py:368-404 | one result per hit, in order, carrying the entry's id, text, time range and distance |
| `MilvusDatabase.SummaryResultsFromHits` | src/milvus_database.py:368-404 | every summary result comes from a hit with the same id and text |
| `MilvusDatabase.KeepId` | src/milvus_database.py:571 | the filter keeps exactly the results with the matched id |
| `MilvusDatabase.DocTexts` | src/milvus_database.py:586 | the documents given to the reranker are the results' texts, in order |
| `MilvusDatabase.Reranked` | src/milvus_database.py:590-595 | one result per reranker answer |
| `MilvusDatabase.RerankedSpec` | src/milvus_database.py:590-595 | result `j` is the search result at the reranker's index `j`, with distance `1 - score` and the same id and text. Every result is a rescored search result |
| `MilvusDatabase.RerankedAt` | src/milvus_database.py:590-595 | the `j`-th reranked result is the original at index `j` with distance `1 - score` |
| `MilvusDatabase.MaybeRerankSpec` | src/milvus_database.py:584-598 | without a query text, with an empty text, with `top_k <= 1`, or with no results, the results are returned unchanged. Every result is a rescored search result |
| `MilvusDatabase.SummaryLogOrdered` | src/milvus_database.py:497-535 | the summaries of a valid log cover disjoint time ranges, in table order |
| `MilvusDatabase.DialogueLogSnoc` | src/milvus_database.py:265-280 | a row with the next id, stamped no earlier than the last, keeps the dialogue log numbered and time-ordered |
| `MilvusDatabase.InsertKeepsInvariant` | src/milvus_database.py:461-495 | a valid insert keeps the client invariant: numbered, time-ordered log; at most one vector entry per dialogue, keyed by existing ids in increasing order; buffer equal to the last 200 texts |
| `MilvusDatabase.BufferFollowsLog` | src/milvus_database.py:478-479 | pushing the new text onto the buffer of the last 200 texts gives the last 200 texts of the extended log |
| `MilvusDatabase.RawIndexSnoc` | src/milvus_database.py:282-299 | adding at most one entry keyed by the new id keeps the raw collection keyed |
| `MilvusDatabase.SummarizeKeepsInvariant` | src/milvus_database.py:497-535 | storing `NextSummary` and at most one entry duplicating its id, range and text keeps the client invariant |
| `MilvusDatabase.StoreKeepsInvariant` | src/milvus_database.py:527-534 | storing a summary row that keeps the summary log valid, with at most one vector entry carrying that row's id, range and text, keeps the client invariant |
| `MilvusDatabase.NextSummaryKeepsLog` | src/milvus_database.py:497-528 | appending `NextSummary` keeps the summary log numbered with disjoint, ordered ranges |
| `MilvusDatabase.SummaryIndexSnoc` | src/milvus_database.py:301-327 | adding at most one entry that duplicates the new summary row keeps every entry keyed by, and carrying the range and text of, its summary row |
| `MilvusDatabase.ResolveRawHitsFromIndex` | src/milvus_database.py:356-362 | hits drawn from a collection give results whose ids key entries of that collection |
| `MilvusDatabase.SummaryResultsFromIndex` | src/milvus_database.py:392-400 | hits drawn from a summary collection give results that each carry the id, range and text of one of its entries |
| `MilvusDatabase.RescoredCarries` | src/milvus_database.py:589-596 | re-scoring by the reranker keeps the entry each result carries |
| `MilvusDatabase.CarriedAreRows` | src/milvus_database.py:301-327 | on a keyed summary collection, a result carrying an entry reports that entry's summary row |
| `MilvusDatabase.SummaryLogSnoc` | src/milvus_database.py:444-459 | a summary with the next id, a non-empty range, starting after every stored summary ends, keeps the log valid |
| `MilvusDatabase.ContextWindowOfInsert` | src/milvus_database.py:481-486 | after an insert, the embedded context holds the texts of the min(5, n) latest dialogues, newest first and the new text first. The new text is a prefix of the joined context |
| `MilvusDatabase.ContextWindowNonEmpty` | src/milvus_database.py:488-495 | the joined context of a valid insert is never empty, so the "no context" branch cannot be taken |
| `MilvusDatabase.FallbackContextSpec` | src/milvus_database.py:573-578 | an unmatched sentence is searched with the texts of the 4 latest dialogues, newest first, followed by the sentence, space-joined |
| `MilvusDatabase.UserClient.constructor` | src/milvus_database.py:137-162 | a new client on fresh databases: empty tables, collections and buffer, connected, invariant holds |
| `MilvusDatabase.UserClient.Close` | src/milvus_database.py:180-189 | the client's Milvus connection is gone, so later vector inserts fail and are skipped |
| `MilvusDatabase.UserClient.InsertRawDialogueToSql` | src/milvus_database.py:265-280 | appends exactly one row stamped `now` and returns its id, the next row number |
| `MilvusDatabase.UserClient.InsertToMilvusRawText` | src/milvus_database.py:282-299 | adds one entry when connected; otherwise the collection is unchanged |
| `MilvusDatabase.UserClient.InsertSummaryToSql` | src/milvus_database.py:444-459 | appends exactly one summary row and returns its id |
| `MilvusDatabase.UserClient.InsertToMilvusSummary` | src/milvus_database.py:301-327 | adds one entry holding the embedding of the summary text, its range and text, when connected; otherwise nothing |
| `MilvusDatabase.UserClient.RetrieveLatestDialoguesFromSql` | src/milvus_database.py:406-419 | returns exactly min(count, n) rows (all n for a negative count), a sub-multiset of the table, newest first; no row left out is newer than one returned. On a time-ordered log these are exactly the last rows, reversed |
| `MilvusDatabase.UserClient.RetrieveSummaryFromSql` | src/milvus_database.py:421-442 | returns exactly min(count, m) summaries, where m counts those ending at or before the bound (all m for a negative count), a sub-multiset of the table, latest `end_time` first, all within the bound; no qualifying summary left out ends later than one returned |
| `MilvusDatabase.UserClient.InsertRecord` | src/milvus_database.py:461-495 | a record without a non-empty role and text changes nothing. Otherwise exactly one dialogue is appended with the next id, its text is pushed onto the buffer, and, when connected, one entry keyed by that id is added, holding the embedding of the context window. The invariant is kept |
| `MilvusDatabase.UserClient.SummarizeMemory` | src/milvus_database.py:497-535 | with nothing newer than the watermark, nothing changes. Otherwise exactly `NextSummary` is appended to the table and, when connected, its embedding to the collection. The invariant is kept, and afterwards there is nothing left to summarize |
| `MilvusDatabase.UserClient.StoreSummary` | src/milvus_database.py:527-534 | appends the summary row, then its vector entry when connected, keeping the invariant |
| `MilvusDatabase.UserClient.PendingSummary` | src/milvus_database.py:500-525 | computes `NextSummary` from the table contents: the next id, a summary log that stays valid, and nothing left to summarize afterwards |
| `MilvusDatabase.UserClient.QueryMilvusRawText` | src/milvus_database.py:329-366 | the hits resolved against the dialogue table, hits without a row dropped |
| `MilvusDatabase.UserClient.QueryMilvusSummary` | src/milvus_database.py:368-404 | one result per summary hit, carrying the entry's fields |
| `MilvusDatabase.UserClient.RawCandidatesFromLog` | src/milvus_database.py:545-581 | every candidate of every route is a dialogue of the table, with its id and text |
| `MilvusDatabase.UserClient.RawCandidatesFromIndex` | src/milvus_database.py:344-362 | with a search that returns entries of the collection searched, every candidate's id keys a stored raw-context entry |
| `MilvusDatabase.UserClient.RawQuerySpec` | src/milvus_database.py:537-598 | every result is a dialogue of the table, and its id keys a stored raw-context entry. An unsupported query gives `[]`. A vector query, or `top_k <= 1`, is never reranked. An exactly matched sentence yields only results with the matched id |
| `MilvusDatabase.UserClient.SummaryQuerySpec` | src/milvus_database.py:600-640 | an unsupported query gives `[]`. A vector query, or any supported query with `top_k <= 1`, returns the search results unreranked. A sentence is embedded directly and not reranked when empty or when `top_k <= 1`. Every result comes from a search hit with the same id and text, carries the id, range and text of a stored summary entry, and, while the client is valid, reports a row of the summary table |
| `MilvusDatabase.UserClient.SummaryQueryFromIndex` | src/milvus_database.py:385-400 | with a search that returns entries of the collection searched, every summary result carries the id, range and text of a stored summary entry |
| `MilvusDatabase.UserClient.SummaryQueryFromLog` | src/milvus_database.py:600-640 | every summary result carries a stored entry and, while the client is valid, reports a row of the summary table |
| `MilvusDatabase.UserClient.QueryRawMemory` | src/milvus_database.py:537-598 | the result of the raw query, as `RawQuerySpec` describes it; every result's id keys a stored raw-context entry |
| `MilvusDatabase.UserClient.QuerySummaryMemory` | src/milvus_database.py:600-640 | the result of the summary query, as `SummaryQuerySpec` describes it: `[]` when unsupported, the plain search results for a vector or `top_k <= 1`, each result from a hit with the same id and text and carrying a stored summary entry |
| `MilvusDatabase.ApplyRerank` | src/milvus_database.py:588-595 | the loop over the reranker's answer builds exactly `Reranked` |
| `MilvusDatabase.MemoryModule.constructor` | src/milvus_database.py:646-650 | an empty registry |
| `MilvusDatabase.MemoryModule.StartUserClientInstance` | src/milvus_database.py:658-682 | a registered id returns its client and the registry is unchanged. Otherwise a new client on fresh databases is registered under that id and returned. Every registered client stays valid and keyed by its own id |
| `MilvusDatabase.MemoryModule.CloseUserClientInstance` | src/milvus_database.py:700-709 | the id is no longer registered and its client is closed; an unknown id changes nothing; the registry stays valid |
| `MilvusDatabase.MemoryModule.GetUserClient` | src/milvus_database.py:711-713 | the registered client, or `None` exactly when the id is not registered |
| `MilvusDatabase.MemoryModule.Shutdown` | src/milvus_database.py:684-698 | every client that was registered is closed and the registry is empty |
| `Store.OrderByDescLimit` | src/milvus_database.py:406-419 | `ORDER BY key DESC LIMIT n`: exactly min(n, \|rows\|) rows, all from the table, sorted by key descending |
| `Store.OrderByDescLimitKeepsTop` | src/milvus_database.py:406-419 | a row left out ranks no higher than any row returned |
| `Store.OrderByDescLimitSubMultiset` | src/milvus_database.py:406-419 | the rows returned are a sub-multiset of the table: no row is returned more often than it is stored |
| `Store.OrderByDescOfNonDecreasing` | src/milvus_database.py:406-419 | on rows whose keys never decrease, the query returns the last `n` rows, reversed |
| `Store.LatestDialoguesSpec` | src/milvus_database.py:406-419 | the latest-dialogue query returns exactly min(count, n) rows (all rows for a negative count), a sub-multiset of the table, newest first, and no row left out is newer than one returned |
| `Store.LatestOfNonDecreasing` | src/milvus_database.py:406-419 | on a time-ordered log the latest `count` dialogues are the last `count` rows, reversed |
| `Store.EndingBy` | src/milvus_database.py:430-433 | keeps exactly the summaries ending at or before the bound |
| `Store.EndingBySubBag` | src/milvus_database.py:430-433 | the summaries kept are a sub-multiset of the table |
| `Store.Qualifying` | src/milvus_database.py:421-433 | the summaries the query may return: those ending at or before the bound when one is given, otherwise all |
| `Store.RetrieveSummariesSpec` | src/milvus_database.py:421-442 | exactly min(count, m) rows, where m counts the summaries within the bound (all m for a negative count), a sub-multiset of the table, latest `end_time` first, all within the bound; no qualifying row left out ends later than one returned |
| `Store.WatermarkIsMaxEnd` | src/milvus_database.py:501-502 | the watermark is 0 for an empty table, and otherwise the greatest `end_time` of a stored summary |
| `Store.NewDialogues` | src/milvus_database.py:505-508 | keeps exactly the dialogues with `time > watermark` |
| `Store.NewDialoguesSuffix` | src/milvus_database.py:505-508 | on a time-ordered log, the dialogues newer than the watermark are a suffix of the log |
| `Store.NoNewDialogues` | src/milvus_database.py:510-512 | with every dialogue at or before the watermark, there is nothing to summarize |
| `Strings.Join` | src/milvus_database.py:484-485 | `sep.join(parts)`: empty for no parts; otherwise it starts with the first part and is at least as long as the parts and separators |
| `Strings.JoinSnoc` | src/milvus_database.py:484-485 | joining one more part appends the separator and the part |
| `Strings.Contains` | input_module.py:160-161 | Python's `sub in s`: true iff `sub` occurs at some position of `s` |
| `Strings.LStrip` | input_module.py:309 | the longest suffix that does not start with whitespace; what it drops is all whitespace |
| `Strings.RStrip` | input_module.py:309 | the longest prefix that does not end with whitespace; what it drops is all whitespace |
| `Strings.StripEmptyIffBlank` | input_module.py:309-311 | `s.strip()` is empty iff `s` is all whitespace |
| `Strings.NatToString` | input_module.py:384-407 | a non-empty string of decimal digits whose value is the number, with no leading zero except for 0 itself, as an f-string prints it |
| `MemorySkeleton.UserClient.constructor` | src/memory/milvus_database.py:138-160 | a new client on fresh databases, connected, with the registry's embedding model |
| `MemorySkeleton.UserClient.Close` | src/memory/milvus_database.py:178-187 | the client's Milvus connection is gone |
| `MemorySkeleton.UserClient.InsertRawDialogueToSql` | src/memory/milvus_database.py:263-278 | appends exactly one row stamped `now` and returns its id, the next row number |
| `MemorySkeleton.UserClient.RetrieveLatestDialoguesFromSql` | src/memory/milvus_database.py:405-418 | returns exactly min(count, n) rows (all n for a negative count), a sub-multiset of the table, newest first; no row left out is newer than one returned |
| `MemorySkeleton.UserClient.RetrieveSummaryFromSql` | src/memory/milvus_database.py:420-441 | returns exactly min(count, m) summaries, where m counts those ending at or before the bound (all m for a negative count), a sub-multiset of the table, latest `end_time` first, all within the bound; no qualifying summary left out ends later than one returned |
| `MemorySkeleton.UserClient.InsertSummaryToSql` | src/memory/milvus_database.py:443-458 | appends exactly one summary row and returns its id |
| `MemorySkeleton.UserClient.InsertRecord` | src/memory/milvus_database.py:460-466 | the stub changes nothing |
| `MemorySkeleton.UserClient.SummarizeMemory` | src/memory/milvus_database.py:468-473 | the stub changes nothing |
| `MemorySkeleton.UserClient.QueryRawMemory` | src/memory/milvus_database.py:475-481 | the stub returns `None` |
| `MemorySkeleton.UserClient.QuerySummaryMemory` | src/memory/milvus_database.py:483-488 | the stub returns `None` |
| `MemorySkeleton.MemoryModule.constructor` | src/memory/milvus_database.py:494-501 | an empty registry with one shared embedding model |
| `MemorySkeleton.MemoryModule.StartUserClientInstance` | src/memory/milvus_database.py:504-521 | a registered id returns its client. Otherwise a new client, sharing the registry's embedding model, is registered under that id and returned |
| `MemorySkeleton.MemoryModule.CloseUserClientInstance` | src/memory/milvus_database.py:523-532 | the id is no longer registered and its client is closed; an unknown id changes nothing |
| `MemorySkeleton.MemoryModule.GetUserClient` | src/memory/milvus_database.py:534-536 | the registered client, or `None` exactly when the id is not registered |
| `Prompt.AnyOccurs` | input_module.py:160-161 | `any(k in s for k in keys)`: true iff some key occurs in `s` |
| `Prompt.IsRelevantLongTermMemory` | input_module.py:149-161 | true iff the input contains one of the six keywords |
| `Prompt.ShouldIncludeModule` | input_module.py:226-257 | raises exactly when the module is not a dict |
| `Prompt.ShouldIncludeModuleSpec` | input_module.py:237-257 | a missing flag includes the module. A boolean flag is returned as it is. A name that is not defined excludes, and so does a named check that raises. The built-in relevance check decides by keyword. A flag of any other type excludes |
| `Prompt.HitLines` | input_module.py:198-201 | one line per long-term result, in order |
| `Prompt.VariableValueSpec` | input_module.py:163-224 | `current_user_input` is the input. The short-term history is the placeholder text with no memory module, on failure, or when empty; otherwise the last five items joined by newlines. The long-term memory is the placeholder for no module or empty input, the failure text when retrieval raises, the placeholder for no hits, and otherwise one line per hit. An unknown name is reported by name |
| `Prompt.SegmentPiece` | input_module.py:277-286 | a segment contributes at most one piece |
| `Prompt.ModuleContent` | input_module.py:276-286 | at most one piece per segment |
| `Prompt.ModulePart` | input_module.py:270-290 | an excluded module contributes nothing; an included module whose segments yield no piece contributes nothing; any module contributes at most one part |
| `Prompt.PromptParts` | input_module.py:272-290 | at most one part per module |
| `Prompt.ThenAssoc` | input_module.py:272-290 | running steps in sequence is associative |
| `Prompt.PromptPartsAppend` | input_module.py:272-290 | the parts of two template pieces are the parts of the first followed by those of the second; the first raise stops |
| `Prompt.ModuleContentAppend` | input_module.py:276-286 | the same for a module's segments |
| `Prompt.ThenUnit` | input_module.py:272-290 | a step that adds nothing can be dropped |
| `Prompt.ExcludedModuleIsInvisible` | input_module.py:272-274 | inserting an excluded module anywhere in the template does not change the prompt |
| `Prompt.UnknownSegmentIsSkipped` | input_module.py:285-286 | a segment of unknown type, anywhere in a module, does not change the module's content |
| `Prompt.SegmentError` | input_module.py:397-407 | at most one error per segment, prefixed by its label; none iff the segment is a dict with a `type` of text or variable and a `value` |
| `Prompt.SegmentErrors` | input_module.py:396-407 | at most one error per segment, each prefixed by the module's label |
| `Prompt.ModuleErrors` | input_module.py:384-407 | a module that is not a dict earns exactly one error; every error names its module |
| `Prompt.NameErrors` | input_module.py:388-389 | no error iff the module has a `module_name` |
| `Prompt.SegmentsFieldErrors` | input_module.py:391-407 | every error about the segments names its module |
| `Prompt.SegmentErrorsEmptyIff` | input_module.py:396-407 | no segment error iff every segment is well formed |
| `Prompt.ModuleErrorsEmptyIff` | input_module.py:384-407 | no module error iff the module is well formed |
| `Prompt.TemplateErrorsEmptyIff` | input_module.py:384-407 | no error iff every module of the template is well formed |
| `Prompt.WellFormedModulesSnoc` | input_module.py:384-407 | a template is well formed iff all but its last module are, and the last one is |
| `Prompt.ValidateConfigIffWellFormed` | input_module.py:362-409 | the configuration is valid iff it is a non-empty dict whose `context_template` is a list of well-formed modules, and valid iff there is no error |
| `Prompt.ModuleConfigWellFormed` | input_module.py:384-407 | a named module with a list of well-formed segments is well formed |
| `Prompt.DefaultConfigIsValid` | input_module.py:89-127 | the default configuration is valid, with no error |
| `Prompt.MissingSegmentsIsReported` | test/test_input_module.py:150-173 | a module without `segments` is reported with exactly the message "模块 0 缺少 'segments' 字段" |
| `Prompt.TextSegmentPiece` | input_module.py:280-281 | a text segment contributes its text |
| `Prompt.VariableSegmentPiece` | input_module.py:282-284 | a variable segment contributes the variable's value |
| `Prompt.ConfiguredInclusion` | input_module.py:237-247 | a boolean flag decides inclusion by itself; a name decides by its check |
| `Prompt.IncludedModulePart` | input_module.py:288-290 | an included module with pieces contributes their concatenation |
| `Prompt.TextModulePart` | input_module.py:270-290 | a one-text module contributes its text when included and nothing otherwise |
| `Prompt.HeadedModulePart` | input_module.py:270-290 | a heading followed by a variable contributes the heading followed by the variable's value |
| `Prompt.WrappedModulePart` | input_module.py:270-290 | text, variable, text contributes the three pieces concatenated |
| `Prompt.OnePart` | input_module.py:272-290 | a one-module template has that module's part |
| `Prompt.TwoParts` | input_module.py:272-290 | a two-module template has the two parts in order |
| `Prompt.FourParts` | input_module.py:272-290 | a four-module template has the four parts in order |
| `Prompt.TwoTextModulesPrompt` | input_module.py:259-297 | two text modules give both texts separated by a blank line, or only the second when the first is excluded |
| `Prompt.QuestionTemplatePrompt` | test/test_input_module.py:66-100 | the question template of the configuration-update scenario wraps the input between its two texts and is valid |
| `Prompt.LengthCheckDecides` | test/test_input_module.py:110-113 | the length-based check includes iff the input is longer than 10 characters |
| `Prompt.ConditionalPrompt` | test/test_input_module.py:103-147 | with the length-based check, the conditional module appears only for inputs longer than 10 characters, always before the module shown every time |
| `Prompt.CustomImportancePrompt` | test/test_input_module.py:136-147 | the short input gets only the module shown every time; the long input gets both |
| `Prompt.LongTermModulePart` | input_module.py:108-114 | without a memory module, the long-term module appears with its placeholder exactly when the input is relevant |
| `Prompt.DefaultParts` | input_module.py:91-126 | the default template gives the system prompt, the short-term module with its placeholder, the long-term module only for relevant input, and the user's input, in this order |
| `Prompt.DefaultPromptWithoutMemory` | input_module.py:89-127 | the same parts, separated by blank lines, form the default prompt |
| `Prompt.InputModule.constructor` | input_module.py:36-53 | without a configuration file: the default configuration and template, with nothing attached |
| `Prompt.InputModule.FromFile` | input_module.py:36-53 | with an existing file: its contents become the configuration, and its template the template when it has one. A file that cannot be loaded leaves no configuration and an empty template |
| `Prompt.InputModule.LoadConfig` | input_module.py:55-87 | succeeds iff the file loads and has a `context_template`. A file that fails to load changes nothing. Otherwise the configuration is replaced, and the template too on success |
| `Prompt.InputModule.LoadDefaultConfig` | input_module.py:89-127 | the configuration and template become the default ones |
| `Prompt.InputModule.SetMemoryManagementModule` | input_module.py:129-137 | sets the memory module |
| `Prompt.InputModule.SetBaseModelInterface` | input_module.py:139-147 | sets the model interface |
| `Prompt.InputModule.RegisterHandler` | test/test_input_module.py:110-117 | a callable attribute set on the instance is found by its name, and no other changes |
| `Prompt.InputModule.AssembleModule` | input_module.py:270-290 | the loop over one module's segments computes exactly `ModulePart` |
| `Prompt.InputModule.BuildPrompt` | input_module.py:259-297 | the loop over the template computes exactly `BuildPromptSpec` |
| `Prompt.InputModule.ProcessUserInput` | input_module.py:299-328 | all-whitespace input gives "" and sends nothing. Otherwise the result is the built prompt, sent exactly when a model interface with `send_prompt` is set and the prompt was built |
| `Prompt.InputModule.UpdateConfig` | input_module.py:330-351 | accepted iff the new configuration has a `context_template`; then configuration and template are replaced, otherwise nothing changes |
| `Prompt.InputModule.GetConfig` | input_module.py:353-360 | a copy of the configuration; raises when there is none |
| `Prompt.InputModule.ValidateConfig` | input_module.py:362-409 | returns `ValidateConfigSpec`, valid iff the configuration is well formed and iff the error list is empty |
| `Prompt.InputModule.CheckTemplate` | input_module.py:384-407 | the loop over the modules accumulates exactly `TemplateErrors` |
| `Prompt.InputModule.CheckModule` | input_module.py:384-407 | appends exactly the module's errors |
| `Prompt.InputModule.CheckSegment` | input_module.py:397-407 | computes exactly the segment's error |
| `Prompt.InputModule.CheckSegments` | input_module.py:396-407 | the loop over the segments appends exactly `SegmentErrors` |

## Left out

- The clock: `time.time()` is the `now` argument of `InsertRecord`, which requires that the clock never goes backwards. The ordering and window lemmas rest on the log being time-ordered.
- Equal timestamps: `ORDER BY time DESC` leaves ties unordered in SQLite. The model breaks them by row id, later row first.
- Equal timestamps in summarization: `ORDER BY time ASC` in `summarize_memory` (src/milvus_database.py:507) also leaves ties unordered. The model keeps the dialogues in table (row id) order, which fixes the order of the texts joined into a summary.
- SQLite and Milvus I/O: connection management, directory creation, schemas, index creation and `flush` are not modelled. The tables and collections are sequences.
- Fresh databases: a client always starts on empty tables and collections. In the source, a client started again for the same id, in the same process or a later one, reopens `user_data_{id}.db` (src/milvus_database.py:143, 171) and the existing collections with their rows (src/milvus_database.py:238-240, 260-262); only the 200-slot buffer starts empty (src/milvus_database.py:151). The model's re-registered client starts with empty tables and collections, so data kept across a close and restart is not modelled.
- Vector ids: the Milvus schemas declare `auto_id=True` while the inserts pass record ids. The model keys each vector entry by its record id, as the inserts intend.
- Milvus failures: an insert that raises is caught and logged, and leaves the collection unchanged. The model's only cause of failure is a closed connection.
- The embedding model is a function of the text and the search is an oracle that returns entries of the collection searched (`RawSearchWellFormed`, `SummarySearchWellFormed`). Cosine similarity, index parameters and float rounding are left out; distances are reals.
- The reranker is an oracle required to return distinct indices within the result list.
- `MilvusDatabase.MemoryModule.StartUserClientInstance`: the source builds a new `MilvusEmbeddingFunction` for each client. The model gives every client the registry's embedding function, since they all load the same model.
- The global Milvus connection that `MemoryModule._setup` opens and `shutdown` removes is not modelled. Shutdown closes the clients in an arbitrary order, because the order of the source's dict does not matter to the result.
- Record values that are not strings, and `role`/`text` values Python treats as false other than the empty string, are not modelled. A record is a map from strings to strings.
- Raw query results: the model's raw-query results carry id, text and distance; the summary results carry id, text, time range and distance. Other fields of the source's dicts are not modelled.
- The skeleton's vector helpers (`insert_to_milvus_raw_text`, `insert_to_milvus_summary`, `query_milvus_raw_text`, `query_milvus_summary`) and its `create_user_databases` are not modelled: no public operation of the skeleton calls them.
- The long-term score is passed already formatted, because `{score:.2f}` is float formatting.
- `load_config` reads and parses a file. The model takes the parsed result, or `Raised` when reading or parsing fails. A file whose JSON is not an object is not modelled.
- Python's `getattr` dispatch: only names registered with `RegisterHandler` and the built-in `is_relevant_long_term_memory` answer to a name. Other methods of the class that happen to share a variable's or check's name are not modelled.
- `send_prompt` is recorded in `sentPrompts`. An exception it raises is caught and logged by the source, so it is not modelled.
- Logging and `print` calls are left out.
- Exception messages: a raise in `build_prompt` is the outcome `Raised` with no message.

## Findings

| source | as written | input that shows it | evidently intended | confidence | as-written member | corrected member |
|---|---|---|---|---|---|---|
| src/milvus_database.py:497-512 | `summarize_memory` selects `time > end_time`, where dialogue times are whole seconds (`int(time.time())`, src/milvus_database.py:276) | dialogue 1 at second 100, `summarize_memory`, then dialogue 2 also at second 100, `summarize_memory` again: the second run finds nothing, and dialogue 2 is never summarized | every dialogue is summarized exactly once, with no gap between consecutive runs, for example by keeping the id of the last dialogue summarized | high; not executed | `MilvusDatabase.SameSecondDialogueIsSkipped` | `MilvusDatabase.ConsecutiveRunsCoverAll` |

The client model (`SummarizeMemory`) keeps the time watermark, as the code has it. The corrected definition is `NextSummaryById`, specified by `NextSummaryByIdSpec`. `ConsecutiveRunsCoverAll` proves that it leaves no gap, and `NextSummaryByIdAgrees` proves that it gives the same summary as the code whenever no dialogue shares the second of the latest summary's end.
