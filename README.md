# GeoPulse CSV ingestion, modelled in Dafny

GeoPulse collects client records (`name`, `country`, `city`, `date`, and
sometimes an `id`) from CSV files. It stores them in a PostgreSQL `clients`
table keyed by `client_id`, or shows them directly on a Streamlit dashboard.
This project models the ingestion logic of five Python files and proves what
that logic guarantees:

- `simple_processor.py` is the stand-alone processor (module `SimpleProcessor`,
  class `Processor`). It waits for the database with a bounded retry, then
  scans the input directory. For each file it maps the required fields to
  columns by substring match, resolves each date through a three-step chain,
  and upserts every row, synthesising `auto_<n>` ids when the file has no `id`
  column. A file that went through is moved to the processed directory under
  a time-stamped name.
- `spark/data_processor.py` is the Spark processor (module `SparkProcessor`,
  class `DataProcessor`). It applies a strict header check, keeps the complete
  and distinct five-column records, writes them as one all-or-nothing batch,
  and moves the file under its own name. The watcher callback reacts only to
  `.csv` paths.
- `streamlit_app.py` is the upload dashboard (module `UploadPipeline`). Each
  upload has its columns renamed through an alias table and must carry the
  four fields. Rows with a missing identity field are dropped, each file is
  deduplicated on `(name, country, city)`, and the files are combined and
  deduplicated again. This file also holds the country-code lookup for the map.
- `streamlit_app/simple_dashboard.py` is the directory dashboard (module
  `DirectoryDashboard`). Columns are renamed in place by substring match,
  files missing a field are skipped, and the combined rows are deduplicated
  once on the triple.
- `streamlit_app/main.py` is the database dashboard's session cache (module
  `DashboardCache`): a 30-second time-to-live and the refresh button.

Shared modules:

- `Text`: ASCII case mapping, `strip`, substring, and decimal rendering.
- `Dates`: the strict `%m/%d/%Y` parse with leap years and the pandas
  `Timestamp` range, the date chain, and the archive stamp.
- `Tables`: a parsed file, header normalisation, and row cleaning.
- `Schema`: the three column-mapping variants and the Spark check.
- `Dedup`: keep-first `drop_duplicates` against an independent reference
  definition.
- `ClientStore`: the upsert as a map update.

Everything outside the program is a parameter:

- `pd.read_csv` and the Spark reader yield `Option<Table>`, with `None` when
  reading raises.
- The free-form date parser, "today", the wall clock and the transaction
  time are inputs.
- Whether a connection, a commit or a rename succeeds is an input too, and
  so is the server's verdict on each INSERT the file processor sends (a
  constraint or type error makes it raise).

## Model

| member | source | states |
|---|---|---|
| Tables.NormalizeHeader | simple_processor.py:66 | each column name is lower-cased and stripped of surrounding blanks, position by position |
| Tables.CleanRowOf | streamlit_app.py:77-78 | a row is dropped exactly when its name, country or city cell is missing; a kept row carries those cells and its source file; a present date cell becomes the parser's result for it, and a missing or unparseable date stays a missing date (NaT) rather than dropping the row |
| Tables.CleanRows | streamlit_app/simple_dashboard.py:92-95 | the cleaned rows never outnumber the input rows, all carry the file's name, and none is lost when every row has its three identity cells |
| Tables.KeptPositions | streamlit_app/simple_dashboard.py:92-95 | a row filter yields its values from increasing row positions, in row order, and chooses every row that yields a value |
| Tables.KeptMembers | streamlit_app/simple_dashboard.py:92-95 | a row filter keeps a value exactly when some row yields it |
| Tables.CleanRowsAreKept | streamlit_app/simple_dashboard.py:92-95 | the cleaned rows are the row-wise cleaning applied to each row and kept in order |
| Tables.CleanRowsKept | streamlit_app.py:77-78 | the cleaned rows are, in file order, the cleaned values of an increasing choice of input rows, and every row that has its three identity cells is chosen |
| Tables.CleanRowsMembers | streamlit_app.py:77-78 | a cleaned row is exactly the cleaned value of some input row |
| Dates.ParseMonthDayYear | simple_processor.py:98 | the strict `%m/%d/%Y` parse yields NaT exactly for the missing-value markers; any day it yields is a real calendar date (leap years included) inside the pandas Timestamp range |
| Dates.ParseFormatted | simple_processor.py:98 | an `MM/DD/YYYY` spelling is read back to its date exactly when that date exists and fits a Timestamp, and is rejected otherwise |
| Dates.ParseFormattedValid | simple_processor.py:98 | round trip: every representable calendar date is parsed back from its `MM/DD/YYYY` spelling |
| Dates.LeapDay | simple_processor.py:98 | `02/29/YYYY` passes the strict parse exactly in leap years |
| Dates.ResolveDate | simple_processor.py:95-104 | the chain yields NaT exactly for a missing-value marker; it yields the strict parse's result when there is one, else the free-form parse's day when that succeeds, else today |
| Dates.ResolveFormatted | simple_processor.py:95-98 | a well-formed date cell is taken as written, whatever the free-form parser and the clock say |
| Dates.StampText | simple_processor.py:141 | the archive stamp has fifteen characters: digits around an underscore at position 8 |
| Dates.StampTextFields | simple_processor.py:141 | the stamp's digit groups read back as the clock's year, month, day, hour, minute and second |
| Schema.FirstMatch | simple_processor.py:73-77 | the index found is the first column, in column order, that contains the field or is contained in it; `None` means no column matches |
| Schema.ExactNameIsFound | simple_processor.py:74 | a column named exactly like the field always matches it |
| Schema.SubstringMapping | simple_processor.py:70-81 | a mapping exists exactly when every required field has a matching column; it maps each of the four fields, and only those, to its first matching column |
| Schema.CanonicalHeaderAccepted | simple_processor.py:70-81 | a header holding the four canonical names is always accepted |
| Schema.EarlierPartialMatchWins | simple_processor.py:73-77 | the tie-break is column order: `full_name` before `name` is chosen for `name` |
| Schema.RenameColumn | streamlit_app/simple_dashboard.py:77 | every column called `from` becomes `to`, and all other columns keep their names and positions |
| Schema.ResolveFields | streamlit_app/simple_dashboard.py:71-81 | the renaming loop keeps the number of columns, and it reports as missing only fields it was asked about |
| Schema.RequiredNamesDisjoint | streamlit_app/simple_dashboard.py:68 | no required field's name contains another's |
| Schema.ResolveField | streamlit_app/simple_dashboard.py:72-79 | one step of the renaming loop keeps the column count, reports success exactly when the field is then a column, which is when it already was one or some column matches it, and renames columns only to the field |
| Schema.ResolveFieldKeeps | streamlit_app/simple_dashboard.py:72-79 | renaming for one field neither creates nor removes a column named after a different, non-matching name |
| Schema.ResolveFieldsExact | streamlit_app/simple_dashboard.py:71-81 | for pairwise non-matching fields, a field is among the renamed columns exactly when it is not reported missing, and unrelated column names are untouched |
| Schema.ResolvedIffNotMissing | streamlit_app/simple_dashboard.py:71-85 | after the loop, a required field is present exactly when it is not in `missing_cols` |
| Schema.ApplyAliases | streamlit_app.py:60-66 | each listed synonym is renamed to its field, and every other column keeps its name |
| Schema.MissingFrom | streamlit_app.py:70 | the result lists exactly the fields absent from the columns |
| Schema.MissingRequired | streamlit_app.py:69-72 | a required field is reported exactly when it is absent; nothing is reported exactly when all four are present |
| Schema.AliasClosure | streamlit_app.py:60-66 | replacing a canonical column by one of its synonyms gives the same renamed header |
| Schema.ValidateSchema | spark/data_processor.py:82-91 | the check passes exactly when `{id, name, country, city, date}` is a subset of the columns; otherwise the error names exactly the absent ones, and at least one |
| Dedup.DropDuplicatesFrom | streamlit_app.py:83 | the walk keeps only rows whose key is unseen, keeps no key twice, and covers every key of the input that is not yet seen |
| Dedup.DropDuplicates | streamlit_app.py:83 | every kept row comes from the input, no two kept rows share a key, and it has the same set of keys as the input |
| Dedup.DropDuplicatesIsKeepFirst | streamlit_app.py:99 | `drop_duplicates` equals the reference definition: a row survives exactly when no earlier row has its key |
| Dedup.DropDuplicatesConcat | streamlit_app/simple_dashboard.py:111-114 | deduplicating a concatenation is deduplicating the first part, then the second part against the first part's keys |
| Dedup.DropDuplicatesTwice | streamlit_app.py:83 | deduplicating twice against two key sets is deduplicating once against their union |
| Dedup.DropDuplicatesIdempotent | streamlit_app.py:99 | deduplication is idempotent |
| Dedup.Flatten | streamlit_app.py:97 | `pd.concat` of the frames is empty exactly when every frame is, and holds at least as many rows as any frame (the layout in `FlattenAt`, membership in `FlattenMembers`) |
| Dedup.FlattenAt | streamlit_app.py:97 | `pd.concat` lays the frames one after another: frame `i` sits, unchanged, right after the concatenation of the frames before it |
| Dedup.FlattenMembers | streamlit_app.py:97 | a row is in the concatenation exactly when it is in one of the frames |
| Dedup.DropDuplicatesEach | streamlit_app.py:83 | each frame is deduplicated on its own |
| Dedup.FlattenEachKeys | streamlit_app.py:83-97 | per-frame deduplication keeps the key set of the concatenation |
| Dedup.PerFileDedupRedundant | streamlit_app.py:83-99 | deduplicating each file before the combined deduplication changes nothing in the combined result |
| ClientStore.Upsert | simple_processor.py:106-121 | a new id is inserted; an existing id gets its name, country, city and date overwritten and `updated_at` refreshed, but keeps `created_at`; no other record changes |
| ClientStore.UpsertKeepsKeyed | simple_processor.py:109 | every record stays under its own `client_id` |
| ClientStore.UpsertAgain | simple_processor.py:106-121 | upserting the same values again moves only `updated_at` |
| ClientStore.UpsertAll | spark/data_processor.py:139-150 | the ids after a batch are the old ids plus the batch's ids |
| ClientStore.UpsertAllKeepsKeyed | spark/data_processor.py:142 | a batch keeps every record under its own id |
| ClientStore.UpsertAllRecord | spark/data_processor.py:139-148 | under each key, a batch leaves the attributes of the last row with that key, the old `created_at` (or the batch time for a new id) and the batch time as `updated_at`; keys the batch does not name are untouched |
| ClientStore.UpsertAllKeepsCreated | simple_processor.py:109-114 | `created_at` of a stored id survives any batch |
| ClientStore.UpsertAllAgain | simple_processor.py:106-121 | replaying a batch changes no key and no attribute, only `updated_at` of the ids it writes |
| SimpleProcessor.WaitForDatabase | simple_processor.py:31-45 | success exactly when one of the 30 attempts connects; it stops at the first that does; after 30 failures it reports failure |
| SimpleProcessor.BuildColumnMapping | simple_processor.py:70-81 | the nested loop builds exactly the first-match mapping, or gives up when a field has no column |
| SimpleProcessor.AutoId | simple_processor.py:116 | a generated id is `auto_` followed by the counter in decimal digits, with no leading zero |
| SimpleProcessor.AutoIdInjective | simple_processor.py:116 | distinct counters give distinct generated ids |
| SimpleProcessor.RowWrite | simple_processor.py:95-121 | a row's INSERT fails exactly when its date resolves to NaT or the server refuses its values; when it succeeds it writes those values; without an `id` column the id is `auto_<n>` for the counter passed in |
| SimpleProcessor.RowValues | simple_processor.py:116-120 | the INSERT tuple: `auto_<n>` as id when the file has no `id` column, stripped name, country and city, and the resolved date (each field in `RowWriteFields`) |
| SimpleProcessor.RowWriteFields | simple_processor.py:116-120 | a written row is keyed by its `id` cell when the file has an `id` column and by `auto_<n>` otherwise, carries its name, country and city cells stripped, and its resolved date |
| SimpleProcessor.WritesAllRows | simple_processor.py:123-124 | when no row's INSERT fails, every row is written |
| SimpleProcessor.Writes | simple_processor.py:91-124 | the per-row fold: the rows that yield a write, in order, each numbered by the count of writes before it; never more writes than rows |
| SimpleProcessor.WritesSomeRow | simple_processor.py:123-124 | a row that always writes is among the writes, under the counter it reached, whatever the other rows do |
| SimpleProcessor.WritesNumbered | simple_processor.py:116-122 | when the row writer names each write after the counter it is given (`auto_<n>` for this processor), the write at position `i` is named after `i + 1`, because only written rows advance the counter |
| SimpleProcessor.WritesStripped | simple_processor.py:117-119 | the writes inherit the writer's guarantee of stripped text fields |
| SimpleProcessor.FileWrites | simple_processor.py:91-124 | the writes of a file's rows under the processor's row writer; never more writes than rows |
| SimpleProcessor.FileWritesStripped | simple_processor.py:117-119 | every stored name, country and city is stripped |
| SimpleProcessor.FileWritesAllRows | simple_processor.py:92-124 | with usable dates and a server that refuses nothing, every row is written: no row is dropped for a missing name, country or city |
| SimpleProcessor.AutoIdsDistinct | simple_processor.py:91-122 | without an `id` column the writes are `auto_1`, `auto_2`, and so on, restarting for every file, so no two writes of one file share an id |
| SimpleProcessor.MissingNameWrittenAsNan | simple_processor.py:117 | an empty name cell does not stop the row: it is stored as the text `nan` |
| SimpleProcessor.DateChainFails | simple_processor.py:95-104 | the run's date chain yields NaT exactly when the date text is a missing-value marker, whatever the free-form parser and the day |
| SimpleProcessor.ProcessFile | simple_processor.py:56-135 | the verdict is true exactly when the file was read, every field found a column, and the connection and commit went through; a false verdict leaves the table unchanged; ids stay keyed |
| SimpleProcessor.ReprocessOnlyRefreshes | simple_processor.py:106-131 | processing the same file twice, with the server giving the same verdicts, adds no record and changes no attribute except `updated_at` |
| SimpleProcessor.ArchiveName | simple_processor.py:141-142 | the new name is the 15-character stamp, `_`, then the original name |
| SimpleProcessor.ArchiveNamesDistinct | simple_processor.py:142-144 | files with different names never share an archive name |
| SimpleProcessor.ScanInput | simple_processor.py:166-170 | after a pass, a file is still waiting exactly when it was waiting and was not both processed successfully and renamed; a failed file is retried on the next pass |
| SimpleProcessor.ScanProcessed | simple_processor.py:141-144 | after a pass, the processed directory holds what it held before plus the stamped name of each waiting file that was processed and renamed |
| SimpleProcessor.Scan | simple_processor.py:158-170 | one pass over the listed files, in order; the table stays keyed |
| SimpleProcessor.ScanStep | simple_processor.py:166-170 | one file: processed, and moved when processing returned `True` and the rename went through; the table stays keyed |
| SimpleProcessor.StageRows | simple_processor.py:91-124 | the row loop with its success counter, given the file's row writer, leaves in the transaction exactly the file's writes applied in order |
| SimpleProcessor.Processor.constructor | simple_processor.py:28-29 | the processor starts with an empty table, the given input files and nothing processed |
| SimpleProcessor.Processor.ProcessCsvFile | simple_processor.py:56-135 | the verdict and the new table are those of `ProcessFile`; the directories are untouched |
| SimpleProcessor.Processor.MoveProcessedFile | simple_processor.py:137-147 | a rename that succeeds moves the file to its stamped name; a failed one changes nothing |
| SimpleProcessor.Processor.ScanFile | simple_processor.py:167-170 | the state after one file is `ScanStep` of the state before |
| SimpleProcessor.Processor.ScanOnce | simple_processor.py:158-170 | the state after a pass is `Scan` of the state before, and the table stays keyed |
| SimpleProcessor.ProcessFileAsWritten | simple_processor.py:106-131 | as PostgreSQL runs the code: the same verdict as `ProcessFile`, and an unchanged table when it is false |
| SimpleProcessor.OneBadDateLosesFile | simple_processor.py:123-131 | as written, a single row with an empty date discards the whole file, yet the verdict is true |
| SimpleProcessor.GoodRowCommitted | simple_processor.py:123-128 | with rows failing one by one, an accepted file commits its writes: the new table is the old one with every successful row upserted in order, every id the file writes is present and stamped with the file's transaction time, and a row whose INSERT succeeds is among the writes |
| SimpleProcessor.GoodRowInsertWritten | simple_processor.py:92-124 | in an accepted file, a row whose INSERT succeeds is among the file's writes |
| SimpleProcessor.GoodRowWritten | simple_processor.py:92-124 | a row whose INSERT succeeds whatever its counter is among the file's writes |
| SparkProcessor.CompleteRecord | spark/data_processor.py:105-108 | a row yields no record only when one of the five cells is null, and a record carries the row's `id` and `date` cells (all five cells in `CompleteRecordCells`) |
| SparkProcessor.CompleteRecordCells | spark/data_processor.py:105-108 | a row yields a record exactly when none of its five cells is null, and the record carries those cells |
| SparkProcessor.CompleteRecords | spark/data_processor.py:105-108 | the complete records of a file, in file order; never more than the rows |
| SparkProcessor.CompleteRecordsAreKept | spark/data_processor.py:105-108 | the complete records are the row-wise projection applied to each row and kept in order |
| SparkProcessor.CompleteRecordsMembers | spark/data_processor.py:105-108 | a record is kept exactly when some row yields it |
| SparkProcessor.CleanRecords | spark/data_processor.py:109 | the cleaned batch holds no record twice |
| SparkProcessor.CleanRecordsExact | spark/data_processor.py:105-109 | the batch holds exactly the complete records of the file; rows that share a triple but differ in `id` or `date` are all kept |
| SparkProcessor.ToIncoming | spark/data_processor.py:136-147 | a record is written exactly when its date converts, and the write is the record's id, name, country and city with the converted date |
| SparkProcessor.Incomings | spark/data_processor.py:136 | one write per record, in order |
| SparkProcessor.InsertBatch | spark/data_processor.py:129-163 | an exception escapes exactly when the connection fails; when the connection opens, the statement executes and every date converts, the whole batch is upserted in order under one transaction time; in every other case (no connection, a failing statement, a date that does not convert) the table is unchanged, as the rollback leaves it |
| SparkProcessor.InsertBatchWrites | spark/data_processor.py:139-151 | after a committed batch, each record's id holds that record (the last one when ids repeat), stamped with the transaction time |
| SparkProcessor.InsertBatchLast | spark/data_processor.py:139-151 | after a committed batch, every id the batch carries holds the last record with that id, stamped with the transaction time |
| SparkProcessor.InsertAsWritten | spark/data_processor.py:150-158 | as PostgreSQL runs it, a statement page holding an id twice stores nothing |
| SparkProcessor.InsertAgreesOnDistinctIds | spark/data_processor.py:150 | with distinct ids, the code as written and the intended batch agree |
| SparkProcessor.RepeatedIdLosesBatch | spark/data_processor.py:150-158 | two records sharing an id in one page make the written code store nothing, while the intended upsert keeps the later one |
| SparkProcessor.ProcessFileMoves | spark/data_processor.py:114-127 | the file leaves exactly when it was read, passed the check, had a complete record, connected and was renamed, even if the batch was rolled back |
| SparkProcessor.ProcessFile | spark/data_processor.py:93-127 | a file either stays in the input directory or leaves it, and nothing else leaves; what leaves is added to the processed directory under its own name, and nothing else is added there; the table stays keyed |
| SparkProcessor.ProcessFileInserts | spark/data_processor.py:102-116 | a valid file with a non-empty batch leaves the table `insert_to_database` leaves |
| SparkProcessor.ProcessFileStores | spark/data_processor.py:102-116 | a file that is read, passes the check, connects, executes and whose dates convert leaves under the id of each complete row the last cleaned record with that id, stamped with the transaction time |
| SparkProcessor.InvalidSchemaChangesNothing | spark/data_processor.py:102-127 | a file that fails the check changes nothing |
| SparkProcessor.ProcessAll | spark/data_processor.py:165-172 | the input directory only shrinks, the processed directory gains exactly the files that left it, under their own names, and the table stays keyed |
| SparkProcessor.ProcessAllInput | spark/data_processor.py:165-172 | after the pass a file is still waiting exactly when it was waiting and is not a listed file that was read, validated, had a complete row, connected and was renamed; it is in the processed directory exactly when it was there before or is such a file |
| SparkProcessor.ProcessAllOnlyListed | spark/data_processor.py:168-172 | a file that was not listed stays in the input directory |
| SparkProcessor.DataProcessor.constructor | spark/data_processor.py:165-167 | an empty table, the given input files and nothing processed |
| SparkProcessor.DataProcessor.InsertToDatabase | spark/data_processor.py:129-163 | the new table and the escape flag are those of `InsertBatch`; the directories are untouched |
| SparkProcessor.DataProcessor.ProcessCsvFile | spark/data_processor.py:93-127 | the new state is `ProcessFile` of the old one, and the table stays keyed |
| SparkProcessor.DataProcessor.ProcessExistingFiles | spark/data_processor.py:165-172 | without an input directory nothing changes; otherwise the new state is `ProcessAll` over the listed files |
| SparkProcessor.DataProcessor.OnCreated | spark/data_processor.py:31-35 | only a non-directory path ending in `.csv` is processed; any other event changes nothing |
| UploadPipeline.FileFrame | streamlit_app.py:51-90 | an upload is taken exactly when it was read and, after renaming, lacks none of the four fields; its rows have distinct triples and carry its name |
| UploadPipeline.Infos | streamlit_app.py:86-90 | one `file_info` entry per accepted upload, whose record count is the size of its deduplicated frame |
| UploadPipeline.Frames | streamlit_app.py:48-85 | `all_data`: the frames of the accepted uploads in upload order; never more frames than uploads |
| UploadPipeline.RawFrames | streamlit_app.py:77-78 | the accepted uploads' cleaned rows before their own deduplication, one per accepted frame |
| UploadPipeline.UploadResult | streamlit_app.py:95-102 | with no accepted upload both the rows and the info list are empty; otherwise the info list has one entry per accepted upload; the combined rows have distinct triples |
| UploadPipeline.FramesAreDeduplicatedRaw | streamlit_app.py:77-85 | the accepted frames are the raw frames, each deduplicated |
| UploadPipeline.CombinedIgnoresPerFileDedup | streamlit_app.py:83-99 | the combined rows are the first occurrence of each triple over all accepted uploads, as if no file had been deduplicated first |
| UploadPipeline.CombinedKeepsEveryTriple | streamlit_app.py:97-99 | every triple of an accepted upload appears in the combined rows |
| UploadPipeline.ProcessUploadedFiles | streamlit_app.py:46-102 | the loop with its per-file `continue` returns exactly `UploadResult` |
| UploadPipeline.TableCode | streamlit_app.py:106-131 | every code in the table has three letters |
| UploadPipeline.CountryCode | streamlit_app.py:104-132 | a listed name gives its table code; any other name gives its first three characters (fewer for a shorter name), each upper-cased |
| UploadPipeline.UnitedKingdomSpellings | streamlit_app.py:107 | `UK` and `United Kingdom` both give `GBR` |
| UploadPipeline.FallbackByPrefix | streamlit_app.py:132 | two unlisted names that begin with the same three characters share a code |
| DirectoryDashboard.ResolveColumn | streamlit_app/simple_dashboard.py:72-81 | one pass of the inner loop with its `break` renames exactly as `ResolveField` does |
| DirectoryDashboard.ResolveColumns | streamlit_app/simple_dashboard.py:69-81 | the renaming loop yields exactly the renamed columns and missing fields of `ResolveFields` |
| DirectoryDashboard.FileRows | streamlit_app/simple_dashboard.py:60-102 | a file is taken exactly when it was read and no field is missing after renaming; its rows carry its name |
| DirectoryDashboard.FileTakenIffFieldsPresent | streamlit_app/simple_dashboard.py:83-85 | a file is taken exactly when all four fields are among its renamed columns |
| DirectoryDashboard.PresentFieldStays | streamlit_app/simple_dashboard.py:71-79 | a field already among the columns survives the renaming of the other fields |
| DirectoryDashboard.RequiredPairwise | streamlit_app/simple_dashboard.py:68 | the four field names are distinct and none contains another |
| DirectoryDashboard.CanonicalFileTaken | streamlit_app/simple_dashboard.py:65-85 | a readable file whose header already has the four names, in any case and with any blanks, is taken |
| DirectoryDashboard.Infos | streamlit_app/simple_dashboard.py:98-102 | one entry per taken file, counting its rows before the combined deduplication |
| DirectoryDashboard.Frames | streamlit_app/simple_dashboard.py:60-105 | `all_data`: the rows of the taken files in listing order; never more frames than files |
| DirectoryDashboard.Load | streamlit_app/simple_dashboard.py:41-123 | file info is stored exactly when the directory exists and some file was taken, and what is stored is the taken files' `Infos`; otherwise the result is empty; the combined rows have distinct triples |
| DirectoryDashboard.LoadKeepsFirstOfEachTriple | streamlit_app/simple_dashboard.py:111-114 | the combined rows are the first row of each triple in listing order, and every triple of a taken file is represented |
| DirectoryDashboard.ReadFiles | streamlit_app/simple_dashboard.py:60-105 | the per-file loop collects exactly the frames and file infos of the taken files |
| DirectoryDashboard.Dashboard.constructor | streamlit_app/simple_dashboard.py:117 | the session starts with no file info |
| DirectoryDashboard.Dashboard.LoadDataFromCsv | streamlit_app/simple_dashboard.py:41-123 | it returns `Load`'s rows and stores the file info only when `Load` produces one |
| DashboardCache.LoadData | streamlit_app/main.py:45-64 | a consistent session stays consistent; within the window the session is unchanged; the timestamp is either kept or set to the time after the queries |
| DashboardCache.Refresh | streamlit_app/main.py:234-237 | the refresh button leaves no timestamp |
| DashboardCache.FirstLoadFetches | streamlit_app/main.py:49-61 | without a timestamp, a load returns freshly fetched results |
| DashboardCache.FreshResultsServed | streamlit_app/main.py:49-61 | results at most 30 seconds old are served from the session without querying; only strictly more than 30 seconds refetches |
| DashboardCache.FetchReplacesAll | streamlit_app/main.py:52-55 | a successful fetch replaces all three results and stamps them with the time after the last query |
| DashboardCache.FailedFetchKeepsTimestamp | streamlit_app/main.py:52-64 | a failing query keeps the timestamp and returns three empty frames, so the next load tries again |
| DashboardCache.RefreshForcesFetch | streamlit_app/main.py:233-237 | after the refresh button, the next load fetches whatever the clock says |
| DashboardCache.CachedWithinWindow | streamlit_app/main.py:49-61 | after a fetch, any load within the next 30 seconds returns the same results and session |
| DashboardCache.Dashboard.constructor | streamlit_app/main.py:49 | a new browser session holds nothing |
| DashboardCache.Dashboard.Load | streamlit_app/main.py:45-64 | the new session and the returned frames are those of `LoadData`, and consistency is kept |
| DashboardCache.Dashboard.RefreshButton | streamlit_app/main.py:234-236 | the timestamp is dropped and nothing else changes |

## Left out

- Reading files (`pd.read_csv`, the Spark CSV reader), the free-form `pd.to_datetime`, the wall clock and psycopg2 are inputs. A read that raises is `None`. The database outcomes (connect, commit) and renames are per-file booleans, the server's verdict on each INSERT of the file processor is a per-file predicate on the inserted values, and the transaction time is an integer.
- The `while True` / `time.sleep` monitor loop is modelled as one pass over the listed files. The watchdog observer thread is modelled only as its callback, `OnCreated`. `time.sleep` is left out.
- `connect_to_db` is not modelled on its own. Its outcome is the `connects` input.
- The `exit(1)` at startup is not modelled. `WaitForDatabase` returns the verdict that decides it.
- The model takes the code's intended per-row isolation as its main semantics for `simple_processor.py`: each failed INSERT only loses its own row. The way PostgreSQL actually behaves is modelled beside it; see Findings.
- The processor's `id` cell is rendered as text as a string cell would be. `str()` of a numeric pandas value (for example `1.0` for an integer column with gaps) is not modelled.
- Duplicate column labels are not modelled. The first column with a name is the one that is read. In the upload dashboard the alias table creates such labels on ordinary files (for example one with both `date` and `timestamp`); the program then fails at `pd.to_datetime` on the two-column selection and skips the file, while the model takes it.
- `IsSpace` and `Strip` treat as whitespace only the ASCII characters Python counts as blanks: space, tab through carriage return, and the four separators U+001C to U+001F. Python's `str.strip` also removes Unicode spaces such as U+00A0.
- `Scan`, `ScanOnce`, `ProcessAll` and `ProcessExistingFiles` take the list that `glob("*.csv")` returns as an input. The model does not tie that list to the input directory's contents or to the `.csv` suffix.
- `Lower` and `Upper` map ASCII letters only. Python's `str.lower` and `str.upper` also map other Unicode letters.
- Cells are strings. pandas dtype inference, including `errors='coerce'` on a whole column, is a date-parse parameter on each cell.
- Spark's `distinct()` gives no order. The model keeps the first occurrence of each record.
- `ResolveDate` can yield NaT: a missing-value marker in the date cell stops the chain, because the strict parse returns NaT instead of raising. The date fallback is therefore not total, and the model follows the code.
- `SimpleProcessor.Processor.ScanOnce` does not model the per-pass `except` in the monitor loop. Nothing in the modelled pass can raise past `process_csv_file` and `move_processed_file`.
- `CleanRow` keeps name, country, city, date and `source_file`; the directory dashboard's `file_modified`, the upload dashboard's `upload_time` and any other column of the file (an `id` column, say) are dropped, while the source's frames keep them. The `file_info` entries keep the clock reading as given.
- The directory dashboard's `st.cache_data(ttl=10)` memoisation is not modelled. Each call recomputes.
- The `streamlit_app/database.py` query wrappers are not modelled. They return an empty frame on error, so in practice `load_data`'s `except` fires only for a failure outside them. A failing query is still modelled as `None` in `Fetch`.
- `UploadPipeline.Infos`: the `upload_time` stamp is taken as an input per upload. The two separate clock reads in the source (one for the frame, one for `file_info`) are not distinguished.
- Rendering is not modelled: Streamlit, Plotly, the group-by statistics views, `run_local.py` and `test_app.py`.
- `SparkProcessor.ProcessFile`: the one-second sleep before processing is left out, and so is the log output.

## Findings

| source | as written | input that shows it | evidently intended | confidence | as-written member | corrected member |
|---|---|---|---|---|---|---|
| simple_processor.py:106-131 | every row is executed in one transaction, and the per-row `except` swallows a failed INSERT; PostgreSQL then aborts the transaction, every later INSERT fails, and `commit()` rolls everything back while the function still returns `True` and the file is moved | an accepted file with one row whose date cell is empty (`str` gives `nan`, the strict parse gives NaT, and the INSERT of NaT raises) | a failing row loses only itself; the other rows are committed | not executed | SimpleProcessor.OneBadDateLosesFile | SimpleProcessor.GoodRowCommitted |
| spark/data_processor.py:150-158 | one `execute_values` statement upserts a page of up to 1000 records; `distinct()` removes only identical 5-tuples, so two records with one id can share a statement, which PostgreSQL rejects ("cannot affect row a second time"); the batch is rolled back, the error swallowed, and the file moved anyway | a file with rows `1,Ann,France,Paris,01/01/2024` and `1,Ann,France,Lyon,01/01/2024` | the later record for the id is stored, as a per-key upsert would | not executed | SparkProcessor.RepeatedIdLosesBatch | SparkProcessor.InsertBatchWrites |
