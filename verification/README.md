# Daily-entries reader: a verified model of its normalisation layer and client state

The application shows quotes and journal entries kept in a database page of a
block-based document store. Two layers of it are modelled here.

**The document-tree normalisation layer.** The development-server middleware
receives a loosely typed document tree for a database page and turns it into
table rows. It receives the tree for a content page and turns it into plain
text. The client library has a simpler copy of the same logic. It normalises
the rows fetched from the table endpoint and reads page text with single-depth
unwrapping only. The model works on one JSON datatype (`JsValues.Json`). In it,
objects are ordered association lists, because first-match and last-wins
results depend on key order. JavaScript truthiness, optional chaining, `??`,
`Object.values`, `Object.entries` and `for..of` are modelled explicitly. A
`TypeError` that the code can raise on an unexpected shape becomes a `Failure`.

**The client-side state controllers.** The entry cache covers:

- the time-limited list cache;
- chunked page-text fetching with an in-flight set;
- the load-more policy;
- the quote/journal split and the journal order.

The pager covers wrap-around index normalisation, ±1 moves, prefetch and the
persisted index. The favourites map covers toggle, lookup and load.

Modules follow the program's structure:

- `Wrappers`: `Option` and `Result`. It also holds three sequence helpers:
  - `Collect`, a map that stops at the first failure;
  - `MapSeq`;
  - `Somes`, which drops the absent values.
- `JsValues`: the JSON values and the JavaScript operations on them.
- `JsText`: the string operations:
  - ECMAScript `trim`;
  - dash removal;
  - ASCII lower-casing;
  - `join`;
  - the `\n{3,}` collapse.
- `RichText`: the rich-text property format. It holds `readTitleText`, which
  both copies share, and `readDateProp`.
- `Middleware`: block resolution, schema resolution, row-id search, id
  normalisation, table rows and page text.
- `ClientNotion`: the client library's row normalisation and page text.
- `EntryTypes`: the entry record.
- `MetaCache`: the list cache.
- `Assoc`: assigning key/value pairs into a map in order.
- `BatchFetch`: the chunked fetch.
- `JournalOrder`: the two derived lists.
- `EntriesHook`: the load policy.
- `Pager`: the pager.
- `Likes`: the favourites map.

## Model

| member | source | states |
|---|---|---|
| Middleware.ResolveBlockValue | server/notion-middleware.ts:23-29 | No block when `entry.value` is falsy. The inner `value.value` wins whenever it is an object with a truthy id, even if the outer one has an id too. Otherwise the outer value is returned only if it carries a truthy id. |
| Middleware.NameIndex | server/notion-middleware.ts:47-50 | The index exists exactly when every column has a string name. Every lower-cased column name is a key. Every key maps to the schema key of the last column carrying that name. |
| Middleware.LastIndexNamed | server/notion-middleware.ts:47-50 | The position of the last column carrying a lower-cased name: that column has the name and no later one does. It is −1 exactly when no column has the name. |
| Middleware.NameIndexExtend | server/notion-middleware.ts:48-50 | One loop step, assigning the next column's lower-cased name, turns a name index of the earlier columns into one of all columns. |
| Middleware.NameIndexLastWins | server/notion-middleware.ts:47-50 | When lower-cased names collide, the index entry belongs to the later column. |
| Middleware.FirstWithSchema | server/notion-middleware.ts:39-45 | Finds the first collection with a schema at either depth, and nothing exactly when no collection has one. |
| Middleware.ResolveSchema | server/notion-middleware.ts:32-54 | Null exactly when no collection (or no collection map) has a schema. Otherwise it gives the schema of the first such collection in enumeration order and its name index. A non-string column name is the runtime error. |
| RichText.ReadTitleText | server/notion-middleware.ts:56-63 | `""` for a non-array. Otherwise it is the concatenated text chunks with only whitespace cut from the ends, and no whitespace at either end. The client copy (src/lib/notion.ts:69-76) has the same body and uses this definition. |
| RichText.TextChunksAppend | server/notion-middleware.ts:58-61 | Chunks are collected item by item in order, so the chunks of a concatenation are the chunks of its parts. |
| RichText.ReadTitleTextSkipsNonText | server/notion-middleware.ts:59-61 | An item that is not an array starting with a string changes nothing. |
| RichText.ReadTitleTextSingle | server/notion-middleware.ts:56-63 | A single segment whose chunk has no surrounding whitespace reads back as that chunk, whatever annotations follow it. |
| RichText.ReadTitleTextExample | server/notion-middleware.ts:56-63 | Chunks are joined with no separator; an empty array, null and undefined read as `""`. |
| RichText.FirstDateIn | server/notion-middleware.ts:71-75 | The inner loop returns the first date annotation of a format list, and nothing exactly when there is none. |
| RichText.FirstDate | server/notion-middleware.ts:67-76 | The nested search returns the first element of the flat list of all dates in scan order, and nothing exactly when that list is empty. |
| RichText.AllDatesTruthy | server/notion-middleware.ts:72 | Every date the search can return has a truthy `start_date`. |
| RichText.ReadDateProp | server/notion-middleware.ts:65-78 | The start date of the first `["d", {start_date}]` annotation in scan order. It is `""` for a non-array or when there is none, so it is `""` or truthy. |
| RichText.ReadDatePropExample | server/notion-middleware.ts:65-78 | Segments with plain text only are skipped until a date annotation is found. |
| Middleware.FirstIdsIn | server/notion-middleware.ts:87-91 | The inner loop returns the first view whose `blockIds` is non-empty, and nothing exactly when there is none. |
| Middleware.SearchQueries | server/notion-middleware.ts:85-92 | The nested search fails only if some query entry is `null`. A value it returns is a non-empty id list. |
| Middleware.GetRowBlockIds | server/notion-middleware.ts:81-94 | `[]` without a collection query. Otherwise it is `[]` or a non-empty id list, and it fails only on a null query entry. |
| Middleware.FirstIdsInLengthString | server/notion-middleware.ts:87-90 | An object `blockIds` whose `length` is the string `"1"` passes `ids.length > 0`, so it is returned ahead of a later real list (and the row `.map` then throws). |
| Middleware.NonEmptyIdsObjects | server/notion-middleware.ts:90 | For an object, `length > 0` converts `length` as JavaScript does: `"1"` and `[1]` pass; a missing `length` and `"x"` do not. |
| JsValues.ToNumber | server/notion-middleware.ts:90 | `Number(v)` of a JSON value. A number is itself and an object is NaN. The empty array is 0 and an array of two or more elements is NaN. A one-element array converts like its element, except that a boolean element gives NaN. The cache load uses it for `now - at` (src/hooks/useEntries.ts:17). |
| JsValues.ToNumberArrays | server/notion-middleware.ts:90 | `[5]`, `["5"]` and `[[5]]` convert to 5 and `[null]` to 0. `[true]` and `[1, 2]` are NaN. |
| Middleware.CandidatesAppend | server/notion-middleware.ts:87-91 | The accepted lists of a concatenation of views are those of the parts, in order. |
| Middleware.SearchQueriesIsFirstCandidate | server/notion-middleware.ts:85-93 | With no null query entry, the search returns exactly the first accepted list of all views across all queries, in order, and nothing when there is none. |
| Middleware.ToNormalizedId | server/notion-middleware.ts:102-106 | The id is unchanged unless it has 32 characters once dashes are removed. Then the result has 36 characters with dashes exactly at 8, 13, 18 and 23. Either way the dash-free form is preserved. |
| Middleware.DashFreeGrouping | server/notion-middleware.ts:105 | The 8-4-4-4-12 regrouping of 32 dash-free characters has dashes exactly at the four separators, and removing them gives back the input. |
| Middleware.ToNormalizedIdIdempotent | server/notion-middleware.ts:102-106 | Normalising twice is normalising once. |
| Middleware.RowOf | server/notion-middleware.ts:137-150 | A row's id is the block id without dashes. Its type is the type column's text when that is non-empty, and `"quote"` otherwise, so never empty. Author is the author column's text and title the `title` property's text, both without surrounding whitespace. The date is the date column's first start date, and `""` without a date column. |
| Middleware.MaterialiseRow | server/notion-middleware.ts:137-150 | The row body throws exactly when the resolved block's id is not a string. |
| Middleware.ResolvedBlocks | server/notion-middleware.ts:134-136 | There are at most as many blocks as ids, and every block carries a truthy id. |
| Middleware.ResolvedBlocksSingle | server/notion-middleware.ts:135-136 | One id gives its block when it resolves at either depth, and nothing otherwise (`if (!v) return null` followed by `.filter(Boolean)`). |
| Middleware.ResolvedBlocksAppend | server/notion-middleware.ts:133-152 | Ids are resolved one by one, so the blocks of a concatenation are those of its parts, in row order. With the single-id case this fixes the whole output. |
| Middleware.MapRows | server/notion-middleware.ts:133-151 | The `.map` succeeds exactly when every resolved block has a string id. It then gives one row per block, in order. |
| Middleware.MaterialiseRows | server/notion-middleware.ts:133-152 | There is one row per resolvable id, in row order, and there are at most as many rows as ids. |
| Middleware.TableRows | server/notion-middleware.ts:119-152 | The missing-schema error occurs exactly when no schema is found. It succeeds exactly when the schema names are strings, the row-id search gives an array and every resolved block has a string id. The rows are then the materialised rows of those ids with the schema's type, author and date columns. |
| Middleware.TableRowsShape | server/notion-middleware.ts:133-152 | Every row of a built table has a dash-free id, a non-empty type and trimmed author and title. Its date is `""` when the table has no date column. |
| Middleware.ChildTitle | server/notion-middleware.ts:182-184 | A child's title is `""` when the child does not resolve. Otherwise it is the text of its `title` property, with no surrounding whitespace. |
| Middleware.ChildLines | server/notion-middleware.ts:181-186 | Lines are non-empty and trimmed, at most one per child. Every child with a non-empty title has it among the lines. |
| Middleware.ChildLinesAppend | server/notion-middleware.ts:181-186 | The loop visits children in `content` order: the lines of a concatenation are the lines of its parts. |
| Middleware.ChildLinesSingle | server/notion-middleware.ts:182-185 | One child adds its title as a line exactly when that title is non-empty. With the append lemma this fixes the lines of any `content`. |
| Middleware.PageLines | server/notion-middleware.ts:170-186 | There are no lines when the root resolves under neither the normalised nor the raw id. It throws exactly when the root's `content` cannot be iterated. Otherwise the lines are the child lines of the root's `content`. |
| Middleware.PageText | server/notion-middleware.ts:170-189 | `""` when the root resolves under neither id. It fails exactly when the lines fail. Otherwise it is the assembly of the page's lines, empty exactly when there are none, with no three newlines in a row and no surrounding whitespace. |
| Middleware.PageTextPlain | server/notion-middleware.ts:188 | When no title holds a newline, the page text is the titles joined with single newlines. |
| RichText.AssembleLines | server/notion-middleware.ts:188 | The joined, collapsed, trimmed text never holds three newlines in a row and has no surrounding whitespace. The client copy (src/lib/notion.ts:97-100) uses this definition. |
| RichText.AssembleLinesEmpty | server/notion-middleware.ts:188 | Non-empty trimmed lines assemble to `""` exactly when there are none: the first line's first character survives the join, the collapse and the trim. The client copy (src/lib/notion.ts:97-100) uses this too. |
| RichText.AssemblePlainLines | server/notion-middleware.ts:188 | When the lines are non-empty, trimmed and free of newlines, collapsing and trimming change nothing. |
| JsText.Trim | server/notion-middleware.ts:62 | `trim()` gives a slice of its input with only whitespace cut away, and no whitespace at either end. |
| JsText.TrimIdempotent | server/notion-middleware.ts:62 | Trimming twice is trimming once. |
| JsText.RemoveDashes | server/notion-middleware.ts:103 | `.replace(/-/g, "")` leaves no dash, adds no character, and leaves a dash-free string unchanged. |
| JsText.ToLower | server/notion-middleware.ts:49 | ASCII capitals become lower case and every other character is kept, so no ASCII capital is left. |
| JsText.ToLowerIdempotent | server/notion-middleware.ts:49 | Lower-casing twice is lower-casing once. |
| JsText.NonEmpty | server/notion-middleware.ts:185 | `if (text) lines.push(text)` keeps only non-empty strings of the input, and every non-empty one. |
| JsText.NonEmptySingle | server/notion-middleware.ts:185 | One string is kept exactly when it is non-empty. |
| JsText.NonEmptyAppend | server/notion-middleware.ts:181-186 | The filter works element by element across a concatenation. |
| JsText.CollapseNewlines | server/notion-middleware.ts:188 | `/\n{3,}/g → "\n\n"` leaves no three newlines in a row, never lengthens the text, and keeps a leading character that is not a newline. |
| JsText.CollapseSteps | server/notion-middleware.ts:188 | The replacement works run by run. A character other than a newline is kept, a run of three or more newlines becomes exactly `"\n\n"`, and a shorter run is kept. |
| JsText.CollapseKeepsText | server/notion-middleware.ts:188 | Only newlines are removed: the other characters stay, in order. |
| JsText.CollapseNoTriple | server/notion-middleware.ts:188 | Collapsing changes nothing in a string without three newlines in a row. |
| JsText.TrimNoTriple | server/notion-middleware.ts:188 | Trimming keeps that property. |
| JsText.JoinPlainLines | server/notion-middleware.ts:188 | Joining non-empty, trimmed, newline-free lines with `"\n"` gives a trimmed text with no three newlines in a row. |
| ClientNotion.NormStr | src/lib/notion.ts:12-14 | `""` for any non-string. For a string it is the string with only surrounding whitespace cut, and no whitespace at either end. |
| ClientNotion.NormType | src/lib/notion.ts:16-19 | A journal exactly when the trimmed value is `"journal"`, and a quote exactly otherwise. |
| ClientNotion.NormTypePadded | src/lib/notion.ts:16-19 | Whitespace around the word does not matter and letter case does: a padded word is a journal exactly when the word is `"journal"`. |
| ClientNotion.NormRow | src/lib/notion.ts:39-46 | `id`, `author`, `date` and `pageTitle` are `normStr` of the row's `id`, `author`, `date` and `title`. The type is a journal exactly when `normStr` of `type` is `"journal"`. No field has surrounding whitespace. |
| ClientNotion.NormRowClean | src/lib/notion.ts:39-46 | A row whose five properties are already trimmed strings keeps them as they are; only the exact word `journal` makes a journal. |
| ClientNotion.NormRowNonStrings | src/lib/notion.ts:39-46 | A row whose properties are missing or not strings gives empty fields and the quote type. |
| ClientNotion.MapRows | src/lib/notion.ts:38-47 | The map gives one normalised record per row, in order. |
| ClientNotion.KeepWithId | src/lib/notion.ts:48 | The filter keeps exactly the records with a non-empty id, each from the input. |
| ClientNotion.KeepWithIdAppend | src/lib/notion.ts:48 | The filter works record by record, so order is kept. |
| ClientNotion.NormalizeRows | src/lib/notion.ts:38-48 | It throws exactly when a row is `null`. Otherwise every record has a non-empty id and trimmed fields, and every row with a non-empty trimmed id is kept. |
| ClientNotion.NormalizeRowsSingle | src/lib/notion.ts:38-48 | A single row is kept, normalised, exactly when its trimmed id is non-empty. |
| ClientNotion.NormalizeRowsAppend | src/lib/notion.ts:38-48 | Normalising a concatenation normalises the parts in order. With the single-row case this fixes the whole output. |
| ClientNotion.EntryMetaList | src/lib/notion.ts:33-48 | A body that is not an array is rejected. Otherwise the result is the normalised rows, and it fails exactly when they throw. |
| ClientNotion.ClientChildTitle | src/lib/notion.ts:89-92 | A child whose `value` is missing or falsy has title `""`. Otherwise the title is the flattened `properties.title` of that `value`. Titles have no surrounding whitespace. |
| ClientNotion.ClientLines | src/lib/notion.ts:87-95 | Lines are non-empty and trimmed, at most one per child. Every child with a non-empty title has it among the lines. |
| ClientNotion.ClientLinesAppend | src/lib/notion.ts:88-95 | The loop visits children in `content` order: the lines of a concatenation are the lines of its parts. |
| ClientNotion.ClientLinesSingle | src/lib/notion.ts:89-94 | One child adds its title as a line exactly when that title is non-empty. |
| ClientNotion.ClientLinesSkipsMissing | src/lib/notion.ts:89-90 | A child without a truthy `value` adds no line. |
| ClientNotion.ExtractPlainText | src/lib/notion.ts:78-101 | `""` when `blockMap[pageId].value` is missing or falsy. It throws exactly when the page's `content` cannot be iterated. Otherwise it is the assembly of the child lines of `content`, which hold each child's flattened title, and it is empty exactly when there are none, with no three newlines in a row and no surrounding whitespace. |
| ClientNotion.PageContent | src/lib/notion.ts:111-117 | A body that is not a non-null object is rejected. Otherwise the result is the extracted text. |
| ClientNotion.ClientSingleDepthExample | src/lib/notion.ts:82-87 | Unlike the server, there is no second unwrapping: a double-wrapped page reads as `""`. |
| MetaCache.LoadMetaCache | src/hooks/useEntries.ts:11-22 | The cache is accepted exactly when `at` is truthy, `meta` is an array and `now - at` is not above ten minutes. Then the result is `meta`. |
| MetaCache.SaveMetaCache | src/hooks/useEntries.ts:24-33 | The payload holds `at = now` and one encoded record per entry, in order. |
| MetaCache.SaveThenLoadFresh | src/hooks/useEntries.ts:11-33 | A payload saved at a non-zero time loads back for up to ten minutes, the exact limit included. |
| MetaCache.SaveThenLoadExpired | src/hooks/useEntries.ts:17 | One millisecond past the limit it is rejected. |
| MetaCache.SavedAtZeroRejected | src/hooks/useEntries.ts:16 | `at = 0` is falsy, so it is never accepted. |
| MetaCache.LoadMetaCacheRejectsShapes | src/hooks/useEntries.ts:14-16 | A missing or null payload is rejected, and so is one whose `meta` is not an array. |
| BatchFetch.Chunk | src/hooks/useEntries.ts:87-90 | The chunks concatenate back to the ids, and there are ⌈n/5⌉ of them. None is empty and all but the last have exactly five ids. |
| BatchFetch.ChunkResults | src/hooks/useEntries.ts:93-106 | Results name exactly the ids that are not in flight (an earlier repeat in the chunk included) and whose fetch succeeds. Each id appears once with its fetched text. |
| Assoc.Merge | src/hooks/useEntries.ts:108-114 | Assigning pairs in order adds exactly their keys. Each key gets the value of its last pair and every other key is unchanged. |
| BatchFetch.MergeChunk | src/hooks/useEntries.ts:108-114 | Merging a chunk's results gives the reference content map: refetched ids get their text, and every other key is unchanged. |
| BatchFetch.FetchChunk | src/hooks/useEntries.ts:92-114 | One chunk gives the reference content map and leaves the in-flight set as it was. |
| BatchFetch.RefreshedTwice | src/hooks/useEntries.ts:92-115 | Fetching two id lists one after the other is fetching their concatenation. |
| BatchFetch.FetchBatch | src/hooks/useEntries.ts:86-116 | Every id that is not in flight and whose fetch succeeds gets its text. Every other key is unchanged and the in-flight set is restored. |
| BatchFetch.ContentOnlyGrows | src/hooks/useEntries.ts:108-114 | No key is lost, and a key changes only when it was fetched again. |
| BatchFetch.EmptyTextRecorded | src/hooks/useEntries.ts:111 | An empty page text is stored as `""`. |
| BatchFetch.ChunkExample | src/hooks/useEntries.ts:95 | An in-flight id and a repeated id are each skipped. |
| JournalOrder.StrLeTotal | src/hooks/useEntries.ts:58 | The date order relates any two dates. |
| JournalOrder.StrLeTrans | src/hooks/useEntries.ts:58 | The date order is transitive. |
| JournalOrder.StrLeAntisym | src/hooks/useEntries.ts:58 | Only equal dates are ordered both ways. |
| JournalOrder.EmptyIsLeast | src/hooks/useEntries.ts:58 | The empty date is below every other date. |
| JournalOrder.OfKind | src/hooks/useEntries.ts:50 | The filter keeps exactly the entries of the kind. |
| JournalOrder.OfKindAppend | src/hooks/useEntries.ts:50 | The filter works entry by entry, so table order is kept. |
| JournalOrder.OfKindPartition | src/hooks/useEntries.ts:49-59 | Quotes and journals together number the whole table. |
| JournalOrder.Insert | src/hooks/useEntries.ts:58 | Insertion keeps a newest-first list sorted and adds exactly one entry. |
| JournalOrder.SortByDateDesc | src/hooks/useEntries.ts:57-58 | The sort gives a newest-first permutation of its input. |
| JournalOrder.QuotesMeta | src/hooks/useEntries.ts:49-52 | Exactly the quotes, in table order. |
| JournalOrder.JournalsMeta | src/hooks/useEntries.ts:54-59 | A newest-first permutation of exactly the journal entries. |
| JournalOrder.EmptyDatesLast | src/hooks/useEntries.ts:58 | Journals without a date come after every dated journal. |
| EntriesHook.PlanLoad | src/hooks/useEntries.ts:120-127 | A no-op when `want` is not above the loaded count. Otherwise it targets exactly the ids of `list[already..min(want, len)]`. The kind's count becomes `max(already, min(want, len))` and the other kind's count is unchanged. |
| EntriesHook.PlanLoadAgain | src/hooks/useEntries.ts:122-123 | Asking again for no more than before does nothing, so the count never decreases. |
| EntriesHook.LoadThreeThenTwo | src/hooks/useEntries.ts:122-130 | Loading 3 and then asking for 2 leaves the count at 3. |
| EntriesHook.EnsureLoaded | src/hooks/useEntries.ts:118-133 | The content map is the batch fetch of the planned target. The count is raised per the plan and the other kind's count is untouched. |
| EntriesHook.Prime | src/hooks/useEntries.ts:135-139 | Nothing happens for an empty table. Otherwise each kind's count becomes at least `min(5, len)`. The texts are one batch fetch of the quote target followed by the journal target. |
| EntriesHook.PrimeTargetLoaded | src/hooks/useEntries.ts:122-127 | A kind whose first five entries are loaded gets no fetch from the prime. |
| EntriesHook.Missing | src/hooks/useEntries.ts:145 | The filter keeps exactly the ids absent from the content map. |
| EntriesHook.MissingNone | src/hooks/useEntries.ts:145-146 | When every id has a text, nothing is fetched. |
| EntriesHook.EnsureContentByIds | src/hooks/useEntries.ts:143-150 | Exactly the absent ids are fetched, so an id whose text is `""` is not fetched again. Existing texts are kept. |
| EntriesHook.EnsureContentSettles | src/hooks/useEntries.ts:143-150 | After one successful call, the same call fetches nothing. |
| Pager.JsRem | src/hooks/usePager.ts:35 | JavaScript `%` takes the dividend's sign and is the remainder of truncating division. |
| Pager.SafeIdx | src/hooks/usePager.ts:33-36 | 0 when `total ≤ 0`. Otherwise it lies in `[0, total)` and is congruent to `idx`, negative `idx` included. |
| Pager.SafeIdxExamples | src/hooks/usePager.ts:33-36 | With three entries, −1 shows the last entry and 4 the second. |
| Pager.Next | src/hooks/usePager.ts:56-59 | +1 on the raw index, and a no-op when `total = 0`. |
| Pager.Prev | src/hooks/usePager.ts:61-64 | −1 on the raw index, and a no-op when `total = 0`. |
| Pager.PrevUndoesNext | src/hooks/usePager.ts:56-64 | The two moves undo each other. |
| Pager.NextWraps | src/hooks/usePager.ts:56-59 | Forward from the last entry shows the first, and otherwise the next one. |
| Pager.PrevWraps | src/hooks/usePager.ts:61-64 | Back from the first entry shows the last, and otherwise the previous one. |
| Pager.Prefetch | src/hooks/usePager.ts:43-52 | A request is made exactly when the list is non-empty, the reader is within one entry of the loaded end, and more exist. It asks for `min(loaded + 5, total)`, which is above `loaded` and at most `total`. |
| Pager.CanShowUnlessPrefetching | src/hooks/usePager.ts:43-54 | For an index inside a non-empty list, `canShow` (`safeIdx < loaded`) fails only while the prefetch effect is requesting more entries. |
| Pager.SettledLoaded | src/hooks/usePager.ts:43-54 | Repeating the prefetch until it stops ends with the current entry showable and no further request. |
| Pager.PrefetchExample | src/hooks/usePager.ts:43-52 | The first screen of a 12-entry list asks for 5, then 10, then 12. |
| Pager.PersistedValue | src/hooks/usePager.ts:38-41 | Nothing is written without a non-empty key. Otherwise the normalised index is written, never the raw one. |
| Pager.LoadIdx | src/hooks/usePager.ts:10-18 | A missing, empty, unreadable or non-numeric stored index loads as 0. A numeric one loads as its value. |
| Pager.InitialIdx | src/hooks/usePager.ts:29-31 | The stored index is used only with a non-empty key. |
| Pager.PersistRoundTrip | src/hooks/usePager.ts:10-41 | The persisted index loads back unchanged. |
| Pager.IntStringRoundTrip | src/hooks/usePager.ts:10-26 | Every integer survives `String` followed by the load. |
| Likes.Toggle | src/hooks/useLikes.ts:32-39 | Toggling flips whether the id is liked and leaves every other id's presence and value unchanged. |
| Likes.IsLiked | src/hooks/useLikes.ts:30 | `!!likedMap[id]`: the id is present with a value other than `null`, `false`, `0` or `""`. On a map whose values are all `true`, that is presence. |
| Likes.LikedIds | src/hooks/useLikes.ts:41 | The id set is exactly the key set. |
| Likes.ToggleWellFormed | src/hooks/useLikes.ts:32-39 | A map whose values are all `true` stays that way. |
| Likes.LikedIdsAgree | src/hooks/useLikes.ts:30-41 | On such maps, membership in the id set and `isLiked` agree. |
| Likes.ToggleTwice | src/hooks/useLikes.ts:32-39 | Toggling twice restores a map whose values are all `true`. In general it deletes an unliked id or resets a liked id's value to `true`. |
| Likes.ToggleAbsentIsLiked | src/hooks/useLikes.ts:35-41 | After toggling an absent id it is liked and in the id set. |
| Likes.FalsyValueListedButNotLiked | src/hooks/useLikes.ts:30-41 | A stored falsy value is listed in the id set without being liked. |
| Likes.LoadLikes | src/hooks/useLikes.ts:6-13 | Nothing stored gives the empty map. A stored `null` throws on first use. Otherwise the map has exactly the parsed value's own keys, each with its last value. |
| Likes.LoadLikesObject | src/hooks/useLikes.ts:6-21 | A saved map of `true` values loads back with exactly its keys, all `true`. |

## Left out

- HTTP routing, `sendJson` and status codes are not modelled; they are I/O. The document-store client's `getPage` call is a foreign library. The tree arrives as a parsed JSON value.
- `fetch`, the response status check, `res.json()` and URL building in the client library are not modelled; they are network I/O. The endpoint's parsed body is the input.
- `localStorage`, `JSON.parse`, `JSON.stringify` and `Date.now()` are host facilities. The loads take the parsed value, with `None` for a missing, empty, unparsable or unreadable item, and the time as a parameter. `saveLikes` and `saveIdx` are covered only through the values they write.
- React scheduling (`useEffect`, `useMemo`, `useCallback`), the `alive` teardown flag, the list-refresh effect with its loading and error flags, and `getText` are not modelled; they are framework plumbing.
- `Promise.all` concurrency is not modelled. A chunk's fetches are taken one by one in chunk order, which is also the order in which their in-flight checks run. The two prime calls run one after the other.
- `localeCompare` is not modelled because it is locale-sensitive. Journal dates are compared in code-point order, and sort stability is not stated.
- The video-player files, the UI pages, the tab component, the app shell, the build configuration and the shared type file are not part of this model. `EntryTypes` mirrors the entry type.
- Property reads of arrays and strings by name read as absent, so `length` and inherited members such as `constructor` are not modelled. Non-integral numeric keys are not modelled either. Array and object keys read as absent, although JavaScript converts them to text, so `blockMap[["c"]]` reads key `"c"`. Integers of 1e21 or more are spelt in decimal, not as `"1e+21"`.
- MetaCache.LoadMetaCache: `now - at` converts `at` with `JsValues.ToNumber`, whose strings are limited to `-?digits` and the empty string. Strings with surrounding whitespace, fractions, exponents or hexadecimal count as NaN. The hook itself only writes numbers.
- Middleware.GetRowBlockIds: an object `blockIds` is accepted when its `length` converts by `JsValues.ToNumber` to a positive number. That conversion has the same string limits as above. An object `length` counts as NaN, although one with a non-function own `toString` throws in JavaScript.
- JsText.ToLower: only ASCII letters are lower-cased. JavaScript's `toLowerCase` is Unicode-wide: `"Σ"` becomes `"σ"`, and `"İ"` becomes two code units. So the name index can differ from the program's for non-ASCII column names, and the length is kept only in this model.
- Objects are ordered association lists with distinct keys in the order the data gives them. JavaScript lists integer-like own keys first, in ascending order, which can change which collection or view comes first and which column wins a name. `JSON.parse` keeps the last of duplicate keys and `Lookup` reads the first. The likes load goes through `Assoc.Merge` and keeps the last, as JavaScript does.
- Pager.LoadIdx: `Number(raw)` is modelled for `-?digits` only. Other spellings, such as surrounding whitespace, fractions, exponents or hexadecimal, load as 0. A fractional index is not modelled because the index is an `int`.
- Pager.SettledLoaded: it assumes every prefetch request is granted in full, that is, the list is as long as `total`.
- Likes.LoadLikes: inherited members of a parsed object (`isLiked("constructor")` on `{}`) are not modelled.
- Likes.Toggle: an id naming an inherited member, such as `constructor`, reads as liked in JavaScript, so toggling it only deletes a nonexistent own key. The model treats it like any other id.
- EntriesHook.Missing: `content[id] === undefined` is false in JavaScript for an id naming an inherited member, such as `constructor`, so such an id is never fetched. The model fetches it.
