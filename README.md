# Offline indexing pipeline of the archive search engine

This project models, in Dafny, the offline indexing pipeline of
`allthethings/cli/views.py` and the Elasticsearch node selector of
`allthethings/extensions.py`. It also proves properties of that model. It
covers these pieces:

- **Archive-file indexing** (`mysql_build_aac_tables_internal`):
  - choosing the newest `annas_archive_meta__aacid__*` file of each
    collection and re-indexing it only when it differs from the recorded one;
  - `build_insert_data` applied to each line (skip, raise or row);
  - the running byte offset;
  - `INSERT` vs `REPLACE`;
  - recording the file only after a full pass;
  - the loop over collections, which stops at the first collection that
    raises.
- **The content-hash union** (`mysql_build_computed_all_md5s_internal`): a
  table seeded from source 1, then `INSERT IGNORE` steps with priorities 2 to
  14. Priority 10 is commented out.
- **Keyset paging** (`query_yield_batches` and the per-source
  `elastic_build_aarecords_*_internal` loops), and the id rewriting done for
  each source.
- **One job** (`elastic_build_aarecords_job`):
  - the three filters (denylist, bad ISBN, DOI already seen);
  - collecting search operations, cross-reference rows and code rows;
  - routing codes by `AARECORD_ID_PREFIX_TO_CODES_TABLE_NAME`;
  - the bulk write with at most three attempts;
  - the length checks;
  - the rule that any exception makes the job report failure.
- **The main driver's bounded `futures` set** and its abort on a failing
  job; also the order of `elastic_build_aarecords_all_internal`.
- **The rank-number build** (`mysql_build_aarecords_codes_numbers_internal`):
  - `ROW_NUMBER` and `DENSE_RANK` over `code`, globally and partitioned by
    id prefix;
  - the slow-import sanity check;
  - the drop-then-rename swap, modelled as a sequence of committed states.
- **`FallbackNodeSelector`**: the first preferred configuration that some
  live node carries wins. The random reverse coin is an input.

Database tables are values: maps, sets and sequences. The resolvers and the
helpers of `allthethings.utils` are function-typed parameters. Text is
`seq<char>`. Keys are ordered lexicographically on code points. That is Python's `<` on `str`, and the byte order of binary columns on UTF-8 text.

Loops that update state are methods proved against a specification
function. These are:

- `IndexCollection`, `BuildAacTables`, `RebuildCollections`;
- `InsertIgnore`, `QueryYieldBatches`, `RunDriver`;
- `ElasticBuildAarecordsJob`, `TakeOutDone`, `ElasticBuildAarecordsMain`;
- `Select`.

The database and the selector are classes whose methods state their new
state.

## Model

| member | source | states |
|---|---|---|
| `AacFiles.FilesOfMembers` | allthethings/cli/views.py:143-148 | a name is among a collection's files exactly when it is listed, has the AAC prefix and suffix, and has that collection as its third `__` field |
| `AacFiles.CollectionsMembers` | allthethings/cli/views.py:143-149 | a collection is a key exactly when some listed AAC file names it |
| `AacFiles.CollectionOrderIsCollections` | allthethings/cli/views.py:143-149 | the key order names every collection exactly once and nothing else |
| `AacFiles.FilesOfNonEmpty` | allthethings/cli/views.py:148-149 | a collection has a file list exactly when it is a key (`filenames[-1]` never fails) |
| `AacFiles.LatestIsNewest` | allthethings/cli/views.py:160-164 | `filenames.sort(); filenames[-1]` is a kept file of that collection, and no kept file of it sorts after it |
| `AacFiles.NeedsIndexingIff` | allthethings/cli/views.py:159-164 | a collection is re-indexed exactly when its newest file differs from the recorded filename (`''` when none is recorded); the file to index is that newest file |
| `AacFiles.SecondRunIndexesNothing` | allthethings/cli/views.py:159-164 | once the chosen files are recorded, the same listing re-indexes no collection |
| `AacFiles.GroupByCollection` | allthethings/cli/views.py:143-149 | the listing loop builds exactly `FilesOf` for each collection, with keys in `CollectionOrder` |
| `AacFiles.NeedsIndexingByMembers` | allthethings/cli/views.py:159-164 | a map holding, for exactly the collections whose newest file changed, that file is `collections_need_indexing` |
| `AacFiles.SingleFileSummary` | allthethings/cli/views.py:143-165 | a listing of one kept file has that file's collection as its only key, and its summary line raises exactly when the name has no fourth `__` field |
| `AacFiles.ShortNameIsKept` | allthethings/cli/views.py:143-148 | `annas_archive_meta__aacid__x.jsonl.seekable.zst` is kept by the listing filter yet has no fourth `__` field |
| `AacFiles.ShortNameRaises` | allthethings/cli/views.py:165 | so the listing holding just that file raises `IndexError` in `filenames[-1].split('__')[3]` |
| `AacFiles.SelectedMembersStep` | allthethings/cli/views.py:159-164 | one more collection examined: it joins `collections_need_indexing` exactly when its newest file changed |
| `AacFiles.NoneRaisedStep` | allthethings/cli/views.py:165 | one more summary line printed without raising |
| `AacFiles.SelectedValuesStep` | allthethings/cli/views.py:163-164 | the file stored for a collection is its newest file |
| `AacFiles.SelectedStep` | allthethings/cli/views.py:159-165 | one pass of the comparison loop keeps the loop's meaning: no earlier summary raised, and the map holds exactly the changed collections seen so far, with their newest files |
| `AacFiles.SelectedAll` | allthethings/cli/views.py:159-165 | a loop that passed every key without raising built exactly `collections_need_indexing`, and no collection's summary raises |
| `AacFiles.SelectCollectionsToIndex` | allthethings/cli/views.py:143-165 | the listing and comparison loops return the key order; they raise exactly when some collection's summary line has no fourth field, and then at the first such collection in key order; otherwise they return exactly `collections_need_indexing` |
| `Lex.Greatest` | allthethings/cli/views.py:160-161 | the last element once sorted: a member of the list that no element exceeds |
| `Lex.GreatestUnique` | allthethings/cli/views.py:160-161 | an element that no other exceeds is the one `sort()[-1]` picks |
| `Lex.LexIrreflexive` | allthethings/cli/views.py:160 | code-point order (Python `str` `<`) is irreflexive |
| `Lex.LexTransitive` | allthethings/cli/views.py:160 | the order is transitive |
| `Lex.LexTotal` | allthethings/cli/views.py:160 | any two distinct names are ordered one way or the other |
| `Lex.LexAsymmetric` | allthethings/cli/views.py:160 | no two names each sort before the other |
| `Lex.LexLeTransitive` | allthethings/cli/views.py:160 | the reflexive order is transitive |
| `Lex.EmptyIsLeast` | allthethings/cli/views.py:161-162 | every non-empty filename sorts after the default `''` and `''` after nothing, so a collection with no recorded file always needs indexing |
| `AacLines.CollectionRule` | allthethings/cli/views.py:183-196 | the rule raises exactly for an `ebscohost_records` line without a `plink` id; it skips exactly worldcat lines with a not-found or redirect title and nexusstc lines of type wiki or the known bad record |
| `AacLines.StoredMd5` | allthethings/cli/views.py:211-213 | a candidate is kept exactly when it is 32 characters of `[0-9a-f]`, unchanged; anything else becomes null |
| `AacLines.LowerOfHexIsIdentity` | allthethings/cli/views.py:211-222 | the `.lower()` applied after the hex check changes no kept md5, so upper-case hashes are never lowered into validity |
| `AacLines.BuildInsertData` | allthethings/cli/views.py:174-234 | a line not in canonical shape raises; a row carries the line's `aacid`, the byte offset given and the line's length; a stored md5 is canonical hex; every multiple-md5 value passed the validator |
| `AacLines.SkipIff` | allthethings/cli/views.py:176-192 | `build_insert_data` returns `None` exactly for a canonical line caught by the worldcat or nexusstc skip rule |
| `AacLines.RaiseIff` | allthethings/cli/views.py:176-234 | it raises exactly for: a non-canonical line; an ebscohost line without `plink`; or, on a line that is not skipped, a present `original_md5`/`md5_reported` key whose value pattern fails, or a `filename_decoded` that is not text |
| `AacLines.OriginalMd5Overrides` | allthethings/cli/views.py:198-213 | in a `duxiu_files` collection with `original_md5`, the stored md5 is `original_md5` when it is canonical hex, else null |
| `AacLines.Md5FieldBeforeReported` | allthethings/cli/views.py:198-213 | otherwise the `md5` field wins; `md5_reported` is used only when `md5` is absent; the chosen value is kept only if canonical hex |
| `AacLines.UppercaseMd5IsDropped` | allthethings/cli/views.py:211-222 | an upper-case hex digit anywhere in the chosen md5 makes the stored md5 null |
| `AacIndex.ExtractorKeepsPosition` | allthethings/cli/views.py:224-225 | `build_insert_data` fixed to one collection gives rows carrying their line's `aacid`, offset and length |
| `AacIndex.LastYieldExtends` | allthethings/cli/views.py:290-293 | a line that yields no row with key `a` keeps an earlier row the last one yielded for `a` |
| `AacIndex.LastYieldAt` | allthethings/cli/views.py:290-293 | a line that yields a row makes it the last one yielded for its key |
| `AacIndex.ProvenanceSkip` | allthethings/cli/views.py:279-281 | a line yielding nothing leaves every stored row traceable to a line before it |
| `AacIndex.ProvenanceAdd` | allthethings/cli/views.py:279-286 | writing a line's row and its md5 pairs keeps every stored row and pair traceable to the line that yielded it |
| `AacIndex.CompleteAdd` | allthethings/cli/views.py:279-293 | writing a line's row keeps every yielded key stored, with `REPLACE` keeping the last row per key |
| `AacIndex.StepKeepsSkip` | allthethings/cli/views.py:279-281 | a skipped line leaves the tables and both invariants as they were |
| `AacIndex.StepKeepsEntry` | allthethings/cli/views.py:279-293 | a written line's step is the write, and keeps both invariants |
| `AacIndex.IndexUpToInvariant` | allthethings/cli/views.py:274-293 | the tables after any prefix of the file hold only rows yielded by its lines, every yielded key, and (under `REPLACE`) the last row per key |
| `AacIndex.OffsetsIncrease` | allthethings/cli/views.py:274-289 | the offset of a later line is at least the end of an earlier one: offsets count every line's bytes, skipped lines included |
| `AacIndex.RowPosition` | allthethings/cli/views.py:224-225 | a yielded row's offset is the sum of the lengths of all earlier lines, and its length is its line's |
| `AacIndex.StoredRowLine` | allthethings/cli/views.py:274-293 | each stored row was yielded by some line of the file and is stored under its own `aacid` |
| `AacIndex.RowPointsAtItsLine` | allthethings/cli/views.py:224-225 | each stored row's `byte_offset`/`byte_length` are those of a line with that `aacid` |
| `AacIndex.RowsDisjoint` | allthethings/cli/views.py:274-289 | stored rows with different keys point at non-overlapping byte ranges |
| `AacIndex.LastDuplicateWins` | allthethings/cli/views.py:290-293 | the row kept for a key is the one from the last line yielding that key (the `REPLACE` behaviour for `duxiu_records`) |
| `AacIndex.EveryRowStored` | allthethings/cli/views.py:274-293 | every yielded row's key is stored; under `INSERT` a successful pass means no two lines yielded the same `aacid` |
| `AacIndex.WriteNoSideCollision` | allthethings/cli/views.py:283-299 | while every side-table pair refers to a stored row, an `INSERT` never fails on a duplicate `__multiple_md5` pair |
| `AacIndex.NoDuplicateMultipleMd5` | allthethings/cli/views.py:274-299 | indexing never fails on a duplicate `(md5, aacid)` in `__multiple_md5` |
| `AacIndex.PrefixErrorStays` | allthethings/cli/views.py:274-299 | once a line raises, indexing the whole file raises the same error |
| `AacIndex.IndexCollection` | allthethings/cli/views.py:274-299 | the line loop with its running `byte_offset` yields exactly `IndexUpTo` over the whole file: the tables, or the first error |
| `AacIndex.RebuildTables` | allthethings/cli/views.py:166-304 | exactly the collections the loop reached are rebuilt, each from its chosen file; every other collection's tables are unchanged |
| `AacIndex.RebuildRecords` | allthethings/cli/views.py:302-304 | the chosen file is recorded for each rebuilt collection except the one that raised; nothing else changes, and only listed collections are rebuilt |
| `AacIndex.RebuildOutcome` | allthethings/cli/views.py:166-304 | without a failure, exactly the listed collections that need indexing are rebuilt, all successfully; after a failure, the failing collection's tables hold its error |
| `AacIndex.RecordsAll` | allthethings/cli/views.py:302-304 | a run without a failure records exactly the files of `collections_need_indexing` over the old records |
| `AacIndex.RebuildThenNothingToDo` | allthethings/cli/views.py:143-304 | after a run without a failure, the same listing needs indexing of no collection |
| `AacIndex.RebuildStops` | allthethings/cli/views.py:166-304 | once a collection has raised, the remaining collections change nothing |
| `AacIndex.AacDatabase.constructor` | allthethings/cli/views.py:154-156 | the database starts from the recorded filenames, with no tables rebuilt |
| `AacIndex.AacDatabase.RebuildOne` | allthethings/cli/views.py:166-304 | one collection: its tables become what indexing its file gives; its file is recorded only when that succeeded |
| `AacIndex.AacDatabase.RebuildCollections` | allthethings/cli/views.py:166-304 | the loop over `collections_need_indexing` leaves tables, records and outcome as `Rebuild` says |
| `AacIndex.AacDatabase.BuildAacTables` | allthethings/cli/views.py:137-304 | the whole build: when no summary line raises, selection then rebuild loop, as `Rebuild` over the collection order and `NeedsIndexing` of the old records; when one raises, nothing is indexed or recorded and the failure names a collection whose summary raises |
| `Md5Union.ApplyAllKeys` | allthethings/cli/views.py:333-384 | after seeding and the steps, a hash is in the table exactly when the seed or some step contains it |
| `Md5Union.AscendingPrefix` | allthethings/cli/views.py:339-384 | dropping the last step keeps the priorities ascending |
| `Md5Union.FirstSourceKept` | allthethings/cli/views.py:339-384 | a hash's minimum priority is unchanged by a later step |
| `Md5Union.FirstSourceNew` | allthethings/cli/views.py:339-384 | a hash seen first in the last step has that step's priority as its minimum |
| `Md5Union.FirstSourceIsMinimum` | allthethings/cli/views.py:333-384 | with steps in ascending priority, each hash's `first_source` is the smallest priority among the sources containing it |
| `Md5Union.StepsAscending` | allthethings/cli/views.py:339-384 | the enabled steps have strictly ascending priorities 2 to 14, with 10 left out |
| `Md5Union.ComputedAllMd5sMeaning` | allthethings/cli/views.py:333-384 | `computed_all_md5s` holds exactly the hashes of `libgenli_files` and the enabled steps; `first_source` is 1 exactly for `libgenli_files` hashes, never 10, and at most every priority of a step containing the hash |
| `Md5Union.Md5Table.constructor` | allthethings/cli/views.py:333 | `CREATE TABLE … SELECT`: the table is seeded with priority 1 |
| `Md5Union.Md5Table.InsertIgnore` | allthethings/cli/views.py:339-384 | one `INSERT IGNORE … SELECT` changes the table as `InsertIgnored` |
| `Md5Union.BuildComputedAllMd5s` | allthethings/cli/views.py:324-384 | the rebuilt table is `ComputedAllMd5s` of the sources |
| `Paging.Skip` | allthethings/cli/views.py:103-106 | the number of leading rows that fail `pk > firstid` is at most the table size |
| `Paging.AboveMembers` | allthethings/cli/views.py:103-106 | every row the `WHERE` passes is a table row past the cursor |
| `Paging.SkipFacts` | allthethings/cli/views.py:103-106 | the skipped rows fail the `WHERE` and the first row after them passes it |
| `Paging.BeyondPersists` | allthethings/cli/views.py:103-106 | in key order, once a row passes `key > cursor` every later row does |
| `Paging.AboveAll` | allthethings/cli/views.py:103-106 | when every row passes the `WHERE`, it keeps them all |
| `Paging.AboveIsSuffix` | allthethings/cli/views.py:103-106 | in key order, the rows past the cursor are a suffix of the table |
| `Paging.SkipPastFailing` | allthethings/cli/views.py:103-106 | a row failing the `WHERE` lies before the first row that passes |
| `Paging.FetchSlice` | allthethings/cli/views.py:103-106 | a page is a contiguous slice of the table starting at the first row past the cursor |
| `Paging.NextCursorAdvances` | allthethings/cli/views.py:110 | moving `firstid` to the page's last key skips at least that page, so the loop terminates |
| `Paging.QueryYieldBatches` | allthethings/cli/views.py:93-110 | the generator, from no cursor, yields exactly the pages of `Batches` |
| `Paging.BatchesUnfold` | allthethings/cli/views.py:101-110 | an empty page ends the paging; a non-empty page is followed by the pages after its last key |
| `Paging.BatchesSizes` | allthethings/cli/views.py:106-108 | every yielded page is non-empty and at most `maxrq` rows |
| `Paging.BeyondChain` | allthethings/cli/views.py:103-110 | a row past the last key of a row past the cursor is itself past the cursor |
| `Paging.BatchesBeyond` | allthethings/cli/views.py:93-110 | every yielded row is a table row past the starting cursor |
| `Paging.ConsBeyond` | allthethings/cli/views.py:103-110 | a page of rows past the cursor, followed by pages past its last key, gives pages past the cursor |
| `Paging.BatchesKeyset` | allthethings/cli/views.py:93-110 | pages are non-empty, at most `maxrq` rows, and every key of a page is strictly greater than the previous page's last key |
| `Paging.ConsKeyset` | allthethings/cli/views.py:103-110 | prepending a page to pages past its last key keeps the strict key order between pages |
| `Paging.BatchesStop` | allthethings/cli/views.py:107-108 | the loop stops at the first empty page: the query after the last page (or the first query, when there is none) is empty |
| `Paging.NoPagesWithoutLimit` | allthethings/cli/views.py:106-108 | with `maxrq` zero, the first page is empty and nothing is yielded |
| `Paging.StrictlySortedIsSorted` | allthethings/cli/views.py:106 | a table in strict key order is in key order |
| `Paging.NextCursorExact` | allthethings/cli/views.py:110 | on a unique key, the cursor after a page is exactly where that page ends |
| `Paging.PageSplit` | allthethings/cli/views.py:103-110 | on a unique key, the rows past the cursor are the page followed by the rows past its last key |
| `Paging.FetchEmpty` | allthethings/cli/views.py:106-108 | a non-zero limit returns an empty page only when no row is past the cursor |
| `Paging.BatchesCoverAll` | allthethings/cli/views.py:93-110 | on a unique key, the yielded pages concatenated are exactly the rows past the cursor, in order |
| `Paging.QueryYieldBatchesReadsTable` | allthethings/cli/views.py:93-110 | on a unique key, paging from no cursor reads every row of the table once, in order |
| `Paging.TiesAtPageBoundaryAreSkipped` | allthethings/cli/views.py:873-874 | on a non-unique key, rows tied with a page's last key are never fetched: two `"a"` rows with pages of one give only one page |
| `Paging.Chunks` | allthethings/cli/views.py:834 | `ichunked(ids, n)`: non-empty chunks of at most `n` ids whose concatenation is the ids |
| `Paging.IdBatches` | allthethings/cli/views.py:834 | each page's ids are built from that page's rows |
| `Paging.FirstFailingPage` | allthethings/cli/views.py:827-834 | the first page one of whose chunks reports an error; no earlier page has one |
| `Paging.ChunksUpToShift` | allthethings/cli/views.py:834 | the chunks of the first `n` pages are those of the first page followed by those of the next `n - 1` |
| `Paging.DriveOutcome` | allthethings/cli/views.py:822-836 | without a failing page the run hands over every page's chunks and does not abort; otherwise it aborts after the chunks up to and including the first failing page |
| `Paging.DriveWithoutFailure` | allthethings/cli/views.py:822-836 | without a failing page, every page's chunks are handed over and the run does not abort |
| `Paging.DriveUpToFailure` | allthethings/cli/views.py:822-836 | with a failing page, the run aborts after handing over the chunks up to that page |
| `Paging.DriveAbortsIff` | allthethings/cli/views.py:827-834 | a run exits on an error exactly when some page has a job that reports one |
| `Paging.DriveSubmitsEverything` | allthethings/cli/views.py:822-836 | a run that does not abort hands every id of every page to a job exactly once, in order, in chunks of at most `CHUNK_SIZE` that all succeeded |
| `Paging.FlattenAppend` | allthethings/cli/views.py:834 | the ids of two runs of chunks are the ids of the first then of the second |
| `Paging.DriveFromStep` | allthethings/cli/views.py:822-836 | one iteration: an empty fetch ends the run without error; a page's chunks are handed over and a failing page ends it, otherwise the run continues from the page's last key |
| `Paging.DriverStepKeeps` | allthethings/cli/views.py:822-836 | the driver loop's invariant survives an iteration that fetches a non-empty page |
| `Paging.RunDriver` | allthethings/cli/views.py:822-836 | the `while True` driver loop, with the `last_map` check after the next fetch, ends as `Drive` over the pages that paging from its starting cursor yields |
| `Paging.EmptyKeyNeverFetched` | allthethings/cli/views.py:793-825 | the drivers start from the cursor `''`, so no row with empty key is ever fetched |
| `IdRewrite.AarecordIdSplits` | allthethings/cli/views.py:606 | `"{prefix}:{id}".split(':', 1)` gives back the prefix and the id, whatever the id holds |
| `IdRewrite.PrefixedIds` | allthethings/cli/views.py:834 | a page's ids are `{prefix}:{key}`, one per row, in row order |
| `IdRewrite.PrefixedIdsRoundTrip` | allthethings/cli/views.py:834 | a job splitting these ids recovers each row's key |
| `IdRewrite.MagzdbIds` | allthethings/cli/views.py:1129 | one `magzdb:` id per row, in order |
| `IdRewrite.MagzdbStripsRecordPrefix` | allthethings/cli/views.py:1129 | `record_<n>` becomes `magzdb:<n>` |
| `IdRewrite.MagzdbShortIdIsEmpty` | allthethings/cli/views.py:1129 | a primary id of at most seven characters gives `magzdb:` with an empty id |
| `IdRewrite.OlIdsMembers` | allthethings/cli/views.py:927 | an `ol:` id is emitted exactly for the keys whose edition validates, as `ol:<edition>` |
| `IdRewrite.OlEditionOfKey` | allthethings/cli/views.py:927 | `/books/<e>` gives the edition `<e>` |
| `IdRewrite.IsbndbIdSetMembers` | allthethings/cli/views.py:883-887 | an id is in the page's set exactly when some row with an isbn10 other than `0000000000` gives it, from its isbn13 or as the EAN-13 of its isbn10 |
| `IdRewrite.IsbndbAllZeroPageIsEmpty` | allthethings/cli/views.py:883-887 | a page whose isbn10s are all zeros gives no ids |
| `IdRewrite.ListOfSet` | allthethings/cli/views.py:888 | `list(set)`: every element once, in some order |
| `IdRewrite.IsbndbPageIds` | allthethings/cli/views.py:883-888 | the isbndb page loop then `list(isbn13s)` lists every id of the page's set once |
| `IdRewrite.DuxiuKeptMembers` | allthethings/cli/views.py:969-989 | an id is kept exactly when some row that none of the five skip rules matches gives it |
| `IdRewrite.DuxiuPageIds` | allthethings/cli/views.py:967-992 | the duxiu page loop then `list(set(ids))` lists every kept id once |
| `IdRewrite.ReplaceAllOfPlain` | allthethings/cli/views.py:989 | a suffix without `d` or `c` passes through either `.replace` unchanged |
| `IdRewrite.LeadingThenUntouched` | allthethings/cli/views.py:989 | replacing a leading pattern, then a second one that cannot occur in the result, touches only the start |
| `IdRewrite.DuxiuSsidRewrite` | allthethings/cli/views.py:989 | `duxiu_ssid_<n>` becomes `duxiu_ssid:<n>` |
| `IdRewrite.CadalUntouchedBySsid` | allthethings/cli/views.py:989 | the first `.replace` does not touch a `cadal_ssno_` id |
| `IdRewrite.DalUntouchedBySsid` | allthethings/cli/views.py:989 | nor its tail after `ca` |
| `IdRewrite.CadalSsnoRewrite` | allthethings/cli/views.py:989 | `cadal_ssno_<n>` becomes `cadal_ssno:<n>` |
| `IdRewrite.HexDigit` | allthethings/cli/views.py:1272 | a hex digit value gives a lower-case hex character |
| `IdRewrite.HexOf` | allthethings/cli/views.py:1272 | `bytes.hex()`: two lower-case hex digits per byte |
| `IdRewrite.HexDigitValue` | allthethings/cli/views.py:1272 | a digit character reads back as its value |
| `IdRewrite.ByteHexRoundTrip` | allthethings/cli/views.py:614 | a byte's two hex digits decode back to the byte |
| `IdRewrite.DigitsOfByte` | allthethings/cli/views.py:614 | the two digits of a byte value recombine to it |
| `IdRewrite.FromHexOfHex` | allthethings/cli/views.py:614 | `bytes.fromhex(b.hex()) == b`: the `md5:` id a driver builds decodes back to the hash in the job |
| `IdRewrite.Md5IdCanonical` | allthethings/cli/views.py:1272 | a 16-byte hash gives `md5:` followed by a canonical md5, and distinct hashes give distinct ids |
| `Text.FirstIndexOf` | allthethings/cli/views.py:606 | the position of the first occurrence of the separator, or none when it does not occur |
| `Text.NoMatchShift` | allthethings/cli/views.py:606 | no occurrence at the start nor in the first `n` positions of the rest is no occurrence in the first `n + 1` positions |
| `Text.SplitOnce` | allthethings/cli/views.py:606 | `s.split(sep, 1)`: the text before the first separator and, when there is one, the rest, which put back together give `s` |
| `Text.ReplaceAllSkipsPrefix` | allthethings/cli/views.py:989 | `.replace` passes over text none of whose characters can begin the pattern |
| `Text.ReplaceAllLeading` | allthethings/cli/views.py:989 | a text starting with the pattern starts with the replacement once replaced |
| `Text.BeforeLast` | allthethings/cli/views.py:233 | `s.rsplit(c, 1)[0]`: the text before the last `c`, or all of `s` without one |
| `Text.NatToDecimal` | allthethings/cli/views.py:632 | `str(n)`: a non-empty string of digits |
| `Text.DigitValue` | allthethings/cli/views.py:632 | a digit's value is below ten |
| `Text.DigitsValueOfDecimal` | allthethings/cli/views.py:632 | the value of `str(n)` read as digits is `n` |
| `Text.FirstIndexOfMissingStart` | allthethings/cli/views.py:165 | text none of whose characters starts the separator does not hold it, so `split` gives one field |
| `Text.StripStart` | allthethings/cli/views.py:632 | the leading run of whitespace (`str.isspace()`) that `int()` skips, ending at a non-space or the end |
| `Text.StripEnd` | allthethings/cli/views.py:632 | the trailing run of whitespace that `int()` skips |
| `Text.StripPadded` | allthethings/cli/views.py:632 | whitespace around text that neither starts nor ends with whitespace is stripped to that text |
| `Text.WithoutUnderscores` | allthethings/cli/views.py:632 | removing the underscores of digits and underscores leaves digits, and leaves text without underscores unchanged |
| `Text.ParseIntOfDigits` | allthethings/cli/views.py:632 | `int()` reads digits with single underscores, inside whitespace, as the number the digits spell |
| `Text.ParseIntPadded` | allthethings/cli/views.py:632 | `int()` reads `str(n)` with any whitespace around it as `n` |
| `Text.ParseIntOfDecimal` | allthethings/cli/views.py:632 | `int(str(n)) == n` |
| `Text.ParseIntRejects` | allthethings/cli/views.py:632 | `int()` raises on text holding any character that is not whitespace, a sign, an underscore or an ASCII digit |
| `Text.ParseIntStripsSpace` | allthethings/cli/views.py:632 | `int(" 7") == 7` |
| `Text.ParseIntDoubleUnderscore` | allthethings/cli/views.py:632 | `int("1__0")` raises |
| `Text.NatToDecimalInjective` | allthethings/cli/views.py:632 | different numbers give different numerals |
| `Text.Utf8LengthBounds` | allthethings/cli/views.py:727-730 | `len(s.encode())` lies between the character count and four times it, and equals it for ASCII |
| `Text.Utf8LengthAppend` | allthethings/cli/views.py:727-730 | the UTF-8 length of a concatenation is the sum of the lengths |
| `Text.AsciiLower` | allthethings/cli/views.py:217-222 | `.lower()` on ASCII: same length, each letter lowered |
| `Job.CodesTableOfCoversDrivers` | allthethings/cli/views.py:549-562 | the prefix map covers the twelve id prefixes the drivers produce and names exactly the nine codes tables |
| `Job.StrippedMembers` | allthethings/cli/views.py:579-584 | a value is taken from the ids exactly when `tag:value` is one of them (the isbn13s and dois looked up) |
| `Job.KeptMembers` | allthethings/cli/views.py:592 | an id survives exactly when it is in the chunk and in none of the bad-ISBN, DOI-seen and denylist sets |
| `Job.AddToGroupShape` | allthethings/cli/views.py:646-659 | appending to a `defaultdict(list)` keeps the keys in place and adds a new key at the end |
| `Job.AddToGroupDistinct` | allthethings/cli/views.py:646-659 | appending keeps the keys distinct |
| `Job.AddToGroupPairs` | allthethings/cli/views.py:646-659 | appending adds exactly the one pair |
| `Job.AddToGroupSize` | allthethings/cli/views.py:646-659 | appending adds one value |
| `Job.AddAllDistinct` | allthethings/cli/views.py:646-659 | grouping keeps each key once |
| `Job.AddAllPairs` | allthethings/cli/views.py:646-659 | grouping holds exactly the pairs added |
| `Job.AddAllSizes` | allthethings/cli/views.py:646-659 | grouping neither loses nor duplicates a value |
| `Job.CollectErrorStays` | allthethings/cli/views.py:605-659 | once a record raises, collecting the whole list raises the same error |
| `Job.CollectLast` | allthethings/cli/views.py:605-659 | records collected without raising are their start collected without raising, then the last record's cross-reference rows, index operations and code rows |
| `Job.CollectEsOps` | allthethings/cli/views.py:646-648 | `operations_by_es_handle` keeps each handle once, holds exactly the operations the records ask for, one per (record, target index) |
| `Job.CollectCodes` | allthethings/cli/views.py:650-659 | the code rows keep each codes table once, are exactly those the records ask for, one per (record, code) |
| `Job.OpsOfMeaning` | allthethings/cli/views.py:646-648 | every index operation is `{index}__{virtshard}` for one of its record's target indexes, sent to that index's handle with the record's id |
| `Job.CodeRowsOfMeaning` | allthethings/cli/views.py:650-659 | every code row is `name:value` of its record, bound for the codes table of the record's id prefix |
| `Job.RecordCrossRefsFails` | allthethings/cli/views.py:605-641 | a record raises exactly when it is an `md5:` record whose id is not hex, or an `oclc`/`edsebk` record listing 1 to 9 isbn13s whose id has no integer value |
| `Job.Md5RecordAllMd5Row` | allthethings/cli/views.py:612-622 | the `aarecords_all_md5` row of the record built for a hash is `(md5, json_compressed)`: the hash decoded back from the id, and the compressed search-only fields |
| `Job.SpacedSourceIdIsRead` | allthethings/cli/views.py:626-641 | an `oclc`/`edsebk` id ` 7` listing one isbn13 gives that isbn13's row with id 7 |
| `Job.SpacedOclcIdIsRead` | allthethings/cli/views.py:605-633 | the record `oclc: 7` listing one isbn13 writes exactly `(isbn13, 7)` to `isbn13_oclc` and nothing else |
| `Job.ExcessiveIsbnListsDropped` | allthethings/cli/views.py:626-641 | a record listing ten or more isbn13s adds no isbn13 rows, and only an `md5` record can then raise |
| `Job.CollectIsbnRows` | allthethings/cli/views.py:626-641 | every `isbn13_oclc` (`isbn13_edsebk`) row is an isbn13 of an `oclc` (`edsebk`) record listing fewer than ten, with that record's numeric id |
| `Job.IsbnFromShortListGrows` | allthethings/cli/views.py:626-641 | a row drawn from some records stays so drawn from more records |
| `Job.IsbnTableOfRecord` | allthethings/cli/views.py:626-641 | a record with isbn13 rows for `oclc` (`edsebk`) has that prefix, one to nine isbn13s and an integer id, and its rows pair each isbn13, in order, with that id |
| `Job.IsbnRowOfRecord` | allthethings/cli/views.py:626-641 | each isbn row of one record is drawn from a short list of that record |
| `Job.EarlierIsbnRowsStay` | allthethings/cli/views.py:626-641 | rows drawn from the earlier records stay drawn from the longer list of records |
| `Job.IsbnRowsAppend` | allthethings/cli/views.py:626-641 | the rows of the earlier records followed by those of the last record are all drawn from short lists of the records |
| `Job.BulkAttemptFacts` | allthethings/cli/views.py:663-664 | one attempt calls `bulk` per handle in order until one fails, and succeeds exactly when all do |
| `Job.BulkRunSucceeds` | allthethings/cli/views.py:662-680 | the bulk write succeeds exactly when one of the three attempts does |
| `Job.RetriedConcat` | allthethings/cli/views.py:662-680 | adding attempt `b` after failures of the earlier ones keeps the retry discipline |
| `Job.BulkRunAttempts` | allthethings/cli/views.py:662-680 | at most three attempts, each later one only after every earlier one failed |
| `Job.BulkRunSendsAll` | allthethings/cli/views.py:662-680 | on success the successful attempt's calls come last and send every group; a third failure propagates |
| `Job.SuccessfulAttemptLast` | allthethings/cli/views.py:663-664 | a successful attempt appends one call per group, in order |
| `Job.CodesWritesFacts` | allthethings/cli/views.py:724-737 | the codes step raises exactly when some row exceeds a column width; every insert it makes is a group whose rows all fit |
| `Job.RunJobResolves` | allthethings/cli/views.py:596-741 | once the resolver is called, the rest of the job is resolving, collecting and writing |
| `Job.ResolveFinishes` | allthethings/cli/views.py:597-741 | once the records are collected, the rest of the job is the bulk write and the inserts |
| `Job.JobFiltersBeforeResolving` | allthethings/cli/views.py:577-597 | the resolver, when called, sees only ids of the chunk that none of the denylist, bad-ISBN and DOI-seen filters holds back |
| `Job.SeenDoiIsHeldBack` | allthethings/cli/views.py:583-592 | a `doi:` id already seen with a file is among the ids held back |
| `Job.KeptNone` | allthethings/cli/views.py:592 | a chunk made only of held-back ids keeps none |
| `Job.JobOfHeldBackChunk` | allthethings/cli/views.py:592-594 | a chunk none of whose ids survives succeeds without resolving, sending or writing |
| `Job.FinishBulkRetries` | allthethings/cli/views.py:662-747 | the bulk sends follow the retry discipline, and three failures fail the job with nothing written |
| `Job.JobBulkRetries` | allthethings/cli/views.py:662-747 | the same for the whole job, once it has collected the resolved records |
| `Job.CallGroups` | allthethings/cli/views.py:663-664 | the groups a run of calls sends, in order |
| `Job.FinishSendsAll` | allthethings/cli/views.py:662-680 | a job that gets past the bulk write sent, in its last attempt, one call per group, in order |
| `Job.JobLastAttempt` | allthethings/cli/views.py:596-680 | a successful job's last attempt sent, in order, every group the collection step built |
| `Job.JobSendsEveryOperation` | allthethings/cli/views.py:597-680 | a successful job sent exactly the operations its records ask for, once per (record, target index) |
| `Job.FinishCodesChecked` | allthethings/cli/views.py:724-737 | every code insert is a collected group, all of whose rows fit the columns |
| `Job.JobCodesRoutedAndChecked` | allthethings/cli/views.py:650-737 | every code row a job inserts goes to the codes table of its record's id prefix and fits the columns |
| `Job.PairsHas` | allthethings/cli/views.py:646-659 | every value of a group is among the grouping's pairs |
| `Job.CollectInsertData` | allthethings/cli/views.py:605-659 | the loop over the resolved records gives `Collect`, stopping at the first record that raises |
| `Job.BulkAttemptFailureStays` | allthethings/cli/views.py:663-664 | once a call fails, the rest of the attempt does nothing |
| `Job.BulkAttemptCalls` | allthethings/cli/views.py:663-664 | the `for es_handle, operations in …: bulk(…)` loop makes the calls of `BulkAttempt` |
| `Job.CodesWritesFailureStays` | allthethings/cli/views.py:724-737 | once a group fails its check, the remaining groups write nothing |
| `Job.WriteCodesTables` | allthethings/cli/views.py:724-737 | the per-table check-then-insert loop makes the inserts of `CodesWrites`, or raises |
| `Job.ElasticBuildAarecordsJob` | allthethings/cli/views.py:564-747 | the whole job's result and effects are those of `RunJob` |
| `Backpressure.ConfigFor` | allthethings/cli/views.py:749-757 | positive `THREADS`, `CHUNK_SIZE`, `BATCH_SIZE` with chunk at most batch; `THREADS` is 1 exactly under slow imports |
| `Backpressure.ChunksWithinSnoc` | allthethings/cli/views.py:1272-1273 | one more chunk of at most `CHUNK_SIZE` ids keeps every submitted chunk within `CHUNK_SIZE` |
| `Backpressure.IdsAtMost` | allthethings/cli/views.py:1272-1275 | at most `n` chunks of at most `width` ids each hold at most `n * width` ids |
| `Backpressure.OutstandingIds` | allthethings/cli/views.py:749-757 | a `futures` set of at most `2*THREADS + 1` chunks of at most `CHUNK_SIZE` ids holds at most 80200 ids in production, 30 with slow imports |
| `Backpressure.Indices` | allthethings/cli/views.py:1272-1275 | the futures submitted so far, named by position |
| `Backpressure.ChunksUpToPrefix` | allthethings/cli/views.py:1272-1275 | the chunks of earlier pages come before those of later pages |
| `Backpressure.FlattenSnoc` | allthethings/cli/views.py:1272 | the ids of chunks plus one more are the earlier ids then the new chunk |
| `Backpressure.FlattenChunksUpTo` | allthethings/cli/views.py:1272 | the chunks of the first pages hold every id of those pages, in order |
| `Backpressure.PrefixOfAppend` | allthethings/cli/views.py:1272-1275 | the chunks of a page submitted so far start the page's chunks |
| `Backpressure.PrefixTrans` | allthethings/cli/views.py:1272-1275 | submitting is always a start of all chunks |
| `Backpressure.PrefixWithinPage` | allthethings/cli/views.py:1272-1275 | what has been submitted inside a page is a start of all chunks |
| `Backpressure.PrefixFailed` | allthethings/cli/views.py:1253-1256 | a failure among submitted chunks is a failure among all chunks |
| `Backpressure.SubmitKeeps` | allthethings/cli/views.py:1273 | submitting a chunk keeps the futures bookkeeping |
| `Backpressure.TakeOutKeeps` | allthethings/cli/views.py:1246-1256 | taking a done future out keeps the bookkeeping; the run quits if its job reported an error |
| `Backpressure.MoveKeeps` | allthethings/cli/views.py:1246-1247 | removing a done future keeps the known futures and grows the removed ones |
| `Backpressure.FinishedRun` | allthethings/cli/views.py:1260-1280 | a run that took every chunk out without quitting saw no error and handed every id to a job |
| `Backpressure.QuitRun` | allthethings/cli/views.py:1253-1256 | a run that quit did so on an error of a submitted chunk, which is one of all the chunks |
| `Backpressure.TakeOutStep` | allthethings/cli/views.py:1246-1256 | one iteration of the loop over the done futures |
| `Backpressure.TakeOutDone` | allthethings/cli/views.py:1244-1256 | `process_future`: removes at least one done future, each only once, and stops when a result is truthy |
| `Backpressure.MainDriver.constructor` | allthethings/cli/views.py:1241 | `futures = set()` with nothing submitted |
| `Backpressure.MainDriver.Submit` | allthethings/cli/views.py:1273 | `futures.add(executor.submit(…))`: one more chunk submitted and outstanding |
| `Backpressure.MainDriver.ProcessFuture` | allthethings/cli/views.py:1242-1256 | `process_future()`: at least one outstanding future is taken out; the run quits on a failure |
| `Backpressure.MainDriver.AddChunk` | allthethings/cli/views.py:1273-1275 | after submitting, a set larger than `THREADS*2` is shrunk: at most `2*THREADS` stay outstanding unless the run quit; the ids outstanding never exceed `(2*THREADS + 1)` chunk widths |
| `Backpressure.MainDriver.SubmitAll` | allthethings/cli/views.py:1272-1275 | every chunk of a page is submitted unless the run quit; the `futures` set never exceeds `2*THREADS + 1` chunks, nor their ids `(2*THREADS + 1)` chunk widths |
| `Backpressure.MainDriver.SubmitPages` | allthethings/cli/views.py:1260-1278 | every chunk of every page is submitted unless the run quit, in which case a start of them was; at no time are more than `(2*THREADS + 1) * CHUNK_SIZE` ids outstanding |
| `Backpressure.MainDriver.Drain` | allthethings/cli/views.py:1279-1280 | `while len(futures) > 0: process_future()` empties the set unless the run quit |
| `Backpressure.ElasticBuildAarecordsMain` | allthethings/cli/views.py:1241-1280 | the md5 phase aborts exactly when some chunk's job fails; otherwise every chunk is submitted and taken out and every id handed over; at most `2*THREADS + 1` futures, holding at most `(2*THREADS + 1) * CHUNK_SIZE` ids, are outstanding |
| `BuildOrder.ReadsAfterCreation` | allthethings/cli/views.py:770-781 | every cross-reference table a step reads is created by that step or an earlier one |
| `BuildOrder.CreatesDisjoint` | allthethings/cli/views.py:770-781 | no two steps create the same table, so no step drops what an earlier one filled |
| `BuildOrder.CodesGoToOwnTable` | allthethings/cli/views.py:549-562 | every code row a step's jobs write goes to the codes table that step has just created |
| `BuildOrder.EveryPrefixHasAStep` | allthethings/cli/views.py:770-781 | every prefix with a codes table is submitted by one of the steps |
| `CodesNumbers.InsertByCodePermutes` | allthethings/cli/views.py:1372 | inserting a row into sorted rows adds exactly that row |
| `CodesNumbers.SortedCons` | allthethings/cli/views.py:1372 | a row before sorted rows with codes at least its own gives sorted rows |
| `CodesNumbers.InsertByCodeSorted` | allthethings/cli/views.py:1372 | inserting keeps the rows in code order |
| `CodesNumbers.SortByCodeSortsAndPermutes` | allthethings/cli/views.py:1372 | `ORDER BY code` yields the same rows, in code order |
| `CodesNumbers.SortByCodeOfSorted` | allthethings/cli/views.py:1372 | sorting rows already in code order leaves them in place |
| `CodesNumbers.CodeSet` | allthethings/cli/views.py:1372 | the distinct codes of the rows |
| `CodesNumbers.EntriesOfNumber` | allthethings/cli/views.py:1372 | numbering keeps every row's code and id in place |
| `CodesNumbers.CodeSetAtMostLength` | allthethings/cli/views.py:1372 | there are no more distinct codes than rows |
| `CodesNumbers.DenseRankCountsDistinct` | allthethings/cli/views.py:1372 | in code order, `DENSE_RANK` counts the distinct codes at or before the row |
| `CodesNumbers.DenseRankAtMostRowNumber` | allthethings/cli/views.py:1372 | `dense_rank_order_by_code` never exceeds `row_number_order_by_code` |
| `CodesNumbers.DenseRankFollowsCodes` | allthethings/cli/views.py:1372 | two rows share a dense rank exactly when they share a code, and a smaller code has a smaller rank |
| `CodesNumbers.BelowGrows` | allthethings/cli/views.py:1372 | strictly more codes sort before a larger code |
| `CodesNumbers.FirstDenseRankIsOne` | allthethings/cli/views.py:1372 | the first row in code order has dense rank 1 |
| `CodesNumbers.CodeSetSnoc` | allthethings/cli/views.py:1372 | one more row adds its code to the distinct codes |
| `CodesNumbers.ChangedCodeIsNew` | allthethings/cli/views.py:1372 | in code order, a code unlike the previous row's is new |
| `CodesNumbers.NextDenseRank` | allthethings/cli/views.py:1372 | the next row's dense rank is the same when the code repeats and one more when it changes |
| `CodesNumbers.PartAppend` | allthethings/cli/views.py:1372 | a partition of concatenated rows is the concatenation of the partitions |
| `CodesNumbers.PartIsSubsequence` | allthethings/cli/views.py:1372 | a partition holds only rows of the table with that key |
| `CodesNumbers.PartSorted` | allthethings/cli/views.py:1372 | a partition of rows in code order is in code order |
| `CodesNumbers.SortedSnoc` | allthethings/cli/views.py:1372 | a row after sorted rows with codes at most its own gives sorted rows |
| `CodesNumbers.PartSnoc` | allthethings/cli/views.py:1372 | one more row joins its own partition at the end |
| `CodesNumbers.PartSplit` | allthethings/cli/views.py:1372 | a partition splits at any position of the table |
| `CodesNumbers.PartitionNumberedAlone` | allthethings/cli/views.py:1372 | a row's partition numbers are its numbers within its partition taken alone, whose window functions restart at 1 |
| `CodesNumbers.PartitionNumbers` | allthethings/cli/views.py:1372 | within its id-prefix partition, a row's row number is its 1-based position and its dense rank counts the distinct codes up to it, never more than the row number |
| `CodesNumbers.CodePrefixes` | allthethings/cli/views.py:1373 | `aarecords_codes_prefixes_new` holds exactly the distinct parts of the codes before their first `:` |
| `CodesNumbers.ImageSnoc` | allthethings/cli/views.py:1373 | the prefixes of all rows are those of all but the last, plus the last row's |
| `CodesNumbers.SanityCheckOnFreshTable` | allthethings/cli/views.py:1379-1384 | on the table just built, the sanity check passes exactly when it has rows: `MIN` over no rows is `NULL` |
| `CodesNumbers.SanityCheckMissesEarlyRows` | allthethings/cli/views.py:1382-1384 | the sanity check compares only the ten rows with the largest codes: a table of more than ten rows passes with its first row misnumbered |
| `CodesNumbers.UnionReadsEveryCodesTable` | allthethings/cli/views.py:1372 | the union reads exactly the nine codes tables the jobs write |
| `CodesNumbers.UnionReadsEachOnce` | allthethings/cli/views.py:1372 | the union reads no table twice |
| `CodesNumbers.UnionAllOutcome` | allthethings/cli/views.py:1372 | the `CREATE … SELECT` fails exactly when a unioned table is missing, and names the first one |
| `CodesNumbers.UnionAllRows` | allthethings/cli/views.py:1372 | every row of every unioned table is in the union, and nothing else |
| `CodesNumbers.Swap` | allthethings/cli/views.py:1386-1395 | the swap is four committed states |
| `CodesNumbers.BuildCodesNumbers` | allthethings/cli/views.py:1360-1396 | the build's states start from the database it was given |
| `CodesNumbers.SwapSteps` | allthethings/cli/views.py:1386-1395 | after the first commit no `aarecords_codes` exists; after the second and later it is the new table; the prefixes table is swapped the same way two steps later; nothing else changes |
| `CodesNumbers.UnionAllIgnoresOthers` | allthethings/cli/views.py:1366-1372 | dropping or setting a table the union does not read changes nothing about the union |
| `CodesNumbers.FromUnionOutcome` | allthethings/cli/views.py:1372-1384 | from the union on, the build fails exactly when rows repeat (the primary key), the prefixes table already exists, or, under slow imports, the union is empty |
| `CodesNumbers.FromUnionResult` | allthethings/cli/views.py:1372-1395 | a successful build from the union creates the numbered table, then the prefixes table, then the four swap states |
| `CodesNumbers.BuildOutcome` | allthethings/cli/views.py:1360-1396 | the build succeeds exactly when: the `_new` tables are absent outside slow imports; every codes table exists; no row repeats; and, under slow imports, the union is not empty |
| `CodesNumbers.BuildStates` | allthethings/cli/views.py:1360-1396 | a successful build is the cleaning followed by the run from the union on |
| `CodesNumbers.BuildResult` | allthethings/cli/views.py:1360-1396 | a successful build leaves `aarecords_codes` as the numbered union and `aarecords_codes_prefixes` as its code prefixes, no `_new` tables, every other table as it was, and, mid-swap, a committed state without `aarecords_codes` |
| `NodeSelector.Reversed` | allthethings/extensions.py:29-30 | `list.reverse()`: the same length with the elements last to first |
| `NodeSelector.ReversedSameElements` | allthethings/extensions.py:29-30 | reversing keeps the same configurations |
| `NodeSelector.FirstCarrierFinds` | allthethings/extensions.py:32-36 | the inner loop finds a node exactly when some node has that configuration, and returns the first in pool order |
| `NodeSelector.FirstLiveIsEarliest` | allthethings/extensions.py:31-37 | a node is found exactly when some node carries one of the configurations; it is the first node of the earliest such configuration |
| `NodeSelector.FirstLiveIsMember` | allthethings/extensions.py:31-36 | the returned node is a live node and its configuration is one of `node_configs`, whichever way round they were tried |
| `NodeSelector.ReverseKeepsAvailability` | allthethings/extensions.py:28-37 | the reverse coin changes which node is picked, never whether one is |
| `NodeSelector.ReverseInPlace` | allthethings/extensions.py:29-30 | the in-place reversal of the local copy gives `Reversed` of it |
| `NodeSelector.FallbackNodeSelector.constructor` | allthethings/extensions.py:24-25 | `__init__` stores `node_configs` |
| `NodeSelector.FallbackNodeSelector.Select` | allthethings/extensions.py:26-37 | returns the first node of the earliest carried configuration in (possibly reversed) preference order, a member of the nodes with a configuration of `node_configs`; raises exactly when no node carries any configuration; `node_configs` is not modified |

## Left out

- SQL, DDL, `LOCK TABLES`, `LOAD INDEX`, connection pings and reconnects, and every Elasticsearch index call (create, delete, `put_mapping`, forcemerge): tables are values, and the engines' behaviour is not modelled.
- `Md5Union.Md5Table.constructor`: the `libgenli_files` hashes are a set of decoded hashes. `CREATE TABLE computed_all_md5s … SELECT UNHEX(md5)` fails on a duplicate `libgenli_files` md5 (primary key) and stores `NULL` or fails on text that is not hex; neither engine failure is modelled.
- The `aacid` columns are `CHARACTER SET ascii` with that character set's case-insensitive default collation, so the engine treats two aacids differing only in letter case as the same primary key. `AacIndex` compares keys exactly; that collision is not modelled.
- `AacIndex.IndexCollection`: the 100000-line write batches of the archive indexer are not modelled; rows are written line by line. The tables are the same on success, and a failing file fails either way, but the error reported can differ. The source runs `build_insert_data` over a whole batch before its `INSERT`, so within one batch a later line's extraction error is raised ahead of an earlier line's duplicate-`aacid` error; the model reports the duplicate.
- `AacLines.BuildInsertData`: a line is `seq<char>`, so the `UnicodeDecodeError` that `.decode()` of `aacid`, `primary_id` or `md5` raises on bytes that are not UTF-8 is not modelled.
- `Paging.Fetch`, `Paging.Skip`, `Paging.BatchesCoverAll` and `Paging.TiesAtPageBoundaryAreSkipped` compare keys in code-point order. The driver queries page over `VARCHAR` columns with the `utf8mb4_bin` collation, which is PAD SPACE: trailing spaces are ignored (`'x' = 'x '`), and control characters then sort below a missing character (`'x\t' < 'x'`). That comparison is not modelled, so on keys that differ only in trailing spaces the model reads a row that the source skips as a tie with the cursor.
- `BuildOrder.Creates`: the main step's final `DROP TABLE temp_md5_with_doi_seen` is not modelled. The table counts as created by the main step, and no later step reads it. The ia step's scratch table `temp_ia_ids`, which that step creates and drops itself, is not listed.
- Progress bars, `time.sleep` countdowns and the prints have no effect on the model, except the summary print of each collection, whose `filenames[-1].split('__')[3]` raises `IndexError` on a name with only three `__` fields; `AacFiles.SelectCollectionsToIndex` and `AacIndex.AacDatabase.BuildAacTables` model that failure.
- The regular expression engine: a line is a structured record, with fields saying whether it is in canonical shape and which markers and md5 fields it holds. `aac_spot_check_line_bytes`, `validate_canonical_md5s`, `validate_ol_editions`, `virtshard_for_hashed_aarecord_id`, `isbnlib.ean13`, `get_aarecords_mysql`, `get_isbndb_dicts` and `get_lines_from_aac_file` are function parameters, because their code is not part of this model.
- `hashlib.md5`, zstd, `orjson`: the hashed id, the decoded `filename_decoded` and the compressed JSON of the search-only fields are inputs. The record's `searchOnlyCompressed` field is that JSON, which the `aarecords_all_md5` row stores beside the md5 (`Job.Md5RecordAllMd5Row`).
- Process pools, `map_async`, `os._exit` and real concurrency. Job completion is sequential nondeterminism. An exception raised inside a future is not modelled, because a job catches every exception and returns `True`.
- The md5 phase's `last_map` check (`Backpressure.ElasticBuildAarecordsMain`): there it stays `None`, because that phase's `map_async` is commented out. The doi and `nexusstc_download` phases do submit with `map_async` and check `last_map` after the next fetch; `Paging.RunDriver` models that loop.
- `elastic_build_aarecords_main_internal`'s deletion and creation of indexes, and its `before_first_*` restart constants. These are fixed to `''`, so only that path is modelled.
- `Backpressure.ElasticBuildAarecordsMain`: it takes the md5 pages as input rather than paging `computed_all_md5s` itself. `Paging.RunDriver` models the paging.
- `Backpressure.ElasticBuildAarecordsMain`: its `peak` result and its ghost `peakIds` result (the most ids outstanding at once, also kept by `Backpressure.MainDriver`) are observations that the source does not return.
- The approximate row total and the progress counters.
- The `FallbackNodeSelector` warning `print` for a fallback node. `random.randint` becomes the `reverse` input.
- The widths `AARECORDS_CODES_CODE_LENGTH` and `AARECORDS_CODES_AARECORD_ID_LENGTH` are parameters, because they live in `allthethings.utils`. Code lengths are counted in UTF-8 bytes.
- The `VARCHAR(250)` limits and the `BINARY(16)` conversion of the other tables are left out.
- SQL `LIKE` filters in the driver queries (`"/books/OL%"`, `"record%"`, `"duxiu_ssid_%"`) are left out: the page rows are taken as already filtered.
- `AacIndex.RebuildRecords`: it requires the collection order to be free of repeats. This always holds, because the order is that of a dictionary's keys.
- `CodesNumbers.SortByCode`: among rows with equal codes, the engine's order is unspecified. The model sorts stably, and the rank lemmas are stated for any rows in code order, so they hold whatever order the engine gives ties. `CodesNumbers.SanityCheckOnFreshTable` passes exactly on a non-empty table only because the check's own `ROW_NUMBER() OVER (ORDER BY code)` is taken to order ties as the build did; an engine that numbers equal codes differently the second time can fail the check on a correct table, which is not modelled.
- `Job.ExcessiveIsbnListsDropped`: it states only that no isbn13 rows are added. The other rows of such a record are covered by `Job.RecordCrossRefsFails`.
- `Job.JobOfHeldBackChunk`: stated for a chunk of which nothing survives the filters. This includes a chunk made only of denylisted, bad-ISBN or DOI-seen ids (`Job.KeptNone`).
- `IdRewrite.ListOfSet`: the iteration order of a Python set is not fixed, so only that each element appears once is stated.
- `Text.ParseInt` and `Text.ParseIntRejects`: model `int()` on ASCII digits, with surrounding Unicode whitespace, a sign and single underscores between digits. The non-ASCII decimal digits `int()` also accepts (Arabic-Indic, full-width and the like) are rejected here.
- `Text.AsciiLower`: lowers only `A` to `Z`. Python's `.lower()` also lowers non-ASCII letters, and a few of them (such as `İ`) change length; the model leaves those characters unchanged.
- `Job.RecordCrossRefsFails`: an `md5:` record whose id is not lower-case hex raises. Python's `bytes.fromhex` also accepts upper-case digits and whitespace; that leniency is not modelled. The driver only builds lower-case ids (`IdRewrite.Md5IdCanonical`).
- The docstring of `query_yield_batches` speaks of LIMIT/OFFSET, but the code pages by keyset. The model follows the code.
- The codes-table swap is not atomic. The code drops `aarecords_codes` and renames the new table in with separate commits. The model exposes the committed state in between (`CodesNumbers.BuildResult`, `CodesNumbers.SwapSteps`) rather than claiming atomicity.
