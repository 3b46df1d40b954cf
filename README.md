# photo-statistics: ingestion core in Dafny

photo-statistics catalogues a photo library. It walks a folder and hands the
file list to the worker. The worker cuts the list into chunks of 50 and runs
`exiftool -json` on each chunk. It then upserts one row per file into the
SQLite table `metadata` inside one transaction per chunk. The statistics
module later reports nine grouped counts over that table: photos per year,
camera model, lens, ISO, shutter speed, aperture, focal length, white balance
and flash.

This project models that path in Dafny and proves properties of it:

- `Text`: the ASCII string operations the normalisers use: trim, lower-case,
  replace and decimal digits.
- `Utils`: `normalize_focal_length` and `normalize_white_balance`.
- `Exiftool`: what `run_exiftool` makes of a tool run. The run itself, with
  its exit status, stderr, stdout and parsed JSON, is a parameter.
- `Database`: `format_date`, the row `insert_metadata` writes, and a `Store`
  class standing for one connection. The class holds whether the table
  exists, its committed rows and the rows of an open transaction.
- `Statistics`: the nine `GROUP BY` counts, the `Statistics` record, and
  `generate_statistics` as a loop over the query list.
- `Worker`: chunking, zipping files with records, the mod-time lookup, and
  the three processing methods. Each method is proved against a
  specification function of the old rows and the faults the world injects.

`Wrappers` holds `Option`, `Result` and `Outcome`. `Errors` holds
`AppError` and the storage errors.

Things outside the program's control become parameters of the model:

- the exiftool run;
- whether opening the database, creating the table, beginning, inserting a
  given row or committing fails;
- the file system's modification times.

Where the description of the system and the code disagree, the model follows
the code, with one exception: the stored focal length uses the corrected
rounding (see Findings and Left out).

- Focal-length normalisation is not idempotent as written; see Findings.
- A failed run does not aggregate chunk errors. The first error ends the run,
  and chunks already committed stay committed.
- An empty file list is accepted before the database is even opened.
- A transaction over zero pairs passes even without the table.

## Model

| member | source | states |
|---|---|---|
| Text.Trim | src/utils.rs:4 | `str::trim`: the result neither starts nor ends with whitespace, and `TrimSplit` shows it is the input with only whitespace cut from both ends. |
| Text.Lower | src/utils.rs:5 | `to_lowercase` on ASCII: each letter A-Z is mapped to its lower case, every other character is kept, and the length is unchanged. |
| Text.ReplaceAll | src/utils.rs:6-7 | `str::replace`: every non-overlapping occurrence of the pattern, searched from the left, is replaced. |
| Text.NatToString | src/utils.rs:12 | The `{}` spelling of a non-negative integer: decimal digits, with no leading zero except for 0 itself. |
| Text.TrimEmpty | src/exiftool.rs:45 | The trimmed text is empty exactly when every character is whitespace. |
| Text.TrimMap | src/utils.rs:3-9 | Trimming commutes with any character map that sends whitespace to whitespace and nothing else to whitespace. |
| Text.TrimLower | src/utils.rs:4-5 | `trim` then `to_lowercase` equals `to_lowercase` then `trim`. |
| Text.LowerIdempotent | src/utils.rs:5 | Lower-casing twice is lower-casing once. |
| Text.ReplaceAllChar | src/utils.rs:7 | Replacing a one-character pattern is a character map. |
| Text.ReplaceAllMap | src/utils.rs:6-7 | Replacing a pattern commutes with a character map that fixes the characters of the pattern and of its replacement and maps no other character into the pattern. |
| Text.NatToStringValue | src/utils.rs:12 | The decimal spelling of `n` reads back as `n`. |
| Text.NatToStringInjective | src/utils.rs:12 | Different numbers have different spellings. |
| Utils.CleanFocal | src/utils.rs:3-9 | The cleaning chain: trim, lower-case, drop "mm", comma to point, trim again. |
| Utils.ParseDecimal | src/utils.rs:10 | A parsed decimal is a digits[.digits] literal whose spelling is exactly the input. |
| Utils.ParseSpelling | src/utils.rs:10 | Parsing a well-formed literal's spelling gives that literal back. |
| Utils.NormalizeFocalLength | src/utils.rs:1-19 | The result is "N/A" exactly when there is no input or the cleaned text is not a decimal; otherwise it is `<n> mm` or `<n>.<d> mm`. |
| Utils.FocalLengthRenderFixpoint | src/utils.rs:10-15 | Every rendered value normalises to itself. |
| Utils.FocalLengthIdempotent | src/utils.rs:1-19 | Normalising a normalised focal length changes nothing. |
| Utils.FocalLengthIgnoresCase | src/utils.rs:5 | Upper or lower case in the input does not change the result, for the corrected and the as-written normaliser alike. |
| Utils.FocalLengthIgnoresPadding | src/utils.rs:4 | Whitespace around the input does not change the result, for the corrected and the as-written normaliser alike. |
| Utils.FocalLengthCommaIsPoint | src/utils.rs:7 | A comma and a point as decimal separator give the same result, for the corrected and the as-written normaliser alike. |
| Utils.FocalLengthExamples | src/utils.rs:42-63 | The eleven test vectors: "50mm" and "50 mm" give "50 mm", "50.5mm" and "50,5mm" give "50.5 mm", " 85 MM " gives "85 mm", "70.0 mm" gives "70 mm", "100,5" gives "100.5 mm", and "abc" and no input give "N/A". |
| Utils.RenderAsWritten | src/utils.rs:11-15 | The two `format!` branches as written: a whole value as its integer and " mm", otherwise rounded to tenths with one decimal; its shape is `<digits> mm` or `<digits>.<digit> mm`, with a point exactly when the value is not whole. |
| Utils.NormalizeFocalLengthAsWritten | src/utils.rs:1-19 | The code as written: "N/A" exactly on no input or no decimal; otherwise `<digits> mm` or `<digits>.<digit> mm`, with a fraction printed exactly when the parsed value is not whole. |
| Utils.FocalLengthAsWrittenExamples | src/utils.rs:42-63 | The same eleven test vectors hold for the code as written. |
| Utils.FocalLengthAsWrittenAgrees | src/utils.rs:10-15 | The code as written and the corrected one differ only on a decimal with a non-zero fraction whose tenths round to a whole number. |
| Utils.AsWrittenDiffersOnlyWhenRoundedWhole | src/utils.rs:11-14 | The code as written differs from the corrected one exactly on a value with a non-zero fraction that rounds to a whole number of millimetres. |
| Utils.FocalLengthAsWrittenNotIdempotent | src/utils.rs:10-15 | As written, "49.96" gives "50.0 mm", and normalising that again gives "50 mm". |
| Utils.FocalLengthRoundsUp | src/utils.rs:10-15 | Corrected, "49.96" gives "50 mm" at once. |
| Utils.WhiteBalanceOfKey | src/utils.rs:24-32 | Each known mode maps to itself and "auto (ambience priority)" to "auto"; anything else is "manual". |
| Utils.NormalizeWhiteBalance | src/utils.rs:21-36 | The result is in the seven-word vocabulary; no input is "manual"; otherwise it is the match of the trimmed, lower-cased text. |
| Utils.WhiteBalanceIdempotent | src/utils.rs:21-36 | Normalising a normalised white balance changes nothing. |
| Utils.WhiteBalanceIgnoresCase | src/utils.rs:23 | Case in the input does not change the result. |
| Utils.WhiteBalanceIgnoresPadding | src/utils.rs:23 | Whitespace around the input does not change the result. |
| Utils.WhiteBalanceExamples | src/utils.rs:65-94 | The fifteen test vectors, including "DaYLiGhT", "\tshade\n" and " AUTO (AMBIENCE PRIORITY) ". |
| Exiftool.Index | src/database.rs:42-57 | `metadata[key]` is the member's value on an object that has it, and null otherwise. |
| Exiftool.AsStr | src/database.rs:43 | `as_str` gives a value exactly for a JSON string. |
| Exiftool.Field | src/database.rs:42-57 | A record's field reads as text exactly when the record is an object whose member is a string. |
| Exiftool.RunExiftool | src/exiftool.rs:31-51 | No paths fail with "No files provided to ExifTool". A spawn failure is an I/O error. A non-zero exit is "ExifTool failed: " followed by stderr. Bad UTF-8 is a UTF-8 error, blank output is "ExifTool returned empty output", and bad JSON is a serialization error. It succeeds exactly when none of these applies, with the parsed records. |
| Database.IsTimestamp | src/database.rs:64 | What `parse_from_str` with `%Y:%m:%d %H:%M:%S` accepts: fixed-width fields with the given date separator, a month 1-12, a day within that month of the Gregorian calendar, and a time up to 23:59:59. |
| Database.FormatDate | src/database.rs:63-68 | A valid `YYYY:MM:DD HH:MM:SS` timestamp keeps every digit and gets dashes in the date; anything else is "N/A"; every result is a storable timestamp. |
| Database.SeparatorKeepsTimestamp | src/database.rs:64-65 | Changing the date separator keeps a timestamp valid. |
| Database.FormatDateRoundTrip | src/database.rs:63-68 | Putting colons back into the formatted date recovers the input. |
| Database.StoredTimestampIsNotToolForm | src/database.rs:63-68 | A stored value is never accepted as an exiftool timestamp again. |
| Database.FormatDateExample | src/database.rs:95-113 | "2023:06:12 15:30:00" becomes "2023-06-12 15:30:00". |
| Database.FormatDateRejects | src/database.rs:63-68 | 29 February 2023, month 13 and a text without colons are "N/A". |
| Database.MakeRow | src/database.rs:37-58 | The row has the given path and mod time; the date is `format_date` of the date field, or "N/A" without one; the focal length and white balance are normalised. |
| Database.TextOr | src/database.rs:45-57 | `as_str().unwrap_or("N/A")`: the field's text when it is a string, "N/A" otherwise. |
| Database.MakeRowVerbatim | src/database.rs:45-57 | Each of the eight copied columns holds the record's text or "N/A". |
| Database.EmptyRecordRow | src/database.rs:125-140 | A record without fields gives "N/A" in every column except white balance, which is "manual". |
| Database.NullMetadataExample | src/database.rs:125-140 | The empty record stores "N/A" as its focal length. |
| Database.MakeRowWellFormed | src/database.rs:37-58 | Every written row has a storable date, a canonical focal length and a white balance in the vocabulary. |
| Database.Upsert | src/database.rs:37-38 | `INSERT OR REPLACE` keyed on the path: the path's row becomes the one built from the record. |
| Database.UpsertAt | src/database.rs:38 | After `INSERT OR REPLACE` the path has exactly the new row and every other row is unchanged. |
| Database.UpsertKeepsInvariant | src/database.rs:38 | Upserts keep every row keyed by its own path and well formed. |
| Database.UpsertReplaces | src/database.rs:38 | A second insert of the same path replaces the first. |
| Database.UpsertCommutes | src/database.rs:38 | Inserts of different paths commute. |
| Database.Store.constructor | src/database.rs:76-80 | A fresh database has no table and no rows. |
| Database.Store.CreateTablesIfNeeded | src/database.rs:6-29 | When the statement succeeds the table exists afterwards and the rows are kept, so a repeat call changes nothing; when it fails the result is that error and nothing changes. |
| Database.Store.InsertMetadata | src/database.rs:31-61 | Without the table the insert fails with no such table (the test at 142-150); a rejected row fails; otherwise the row is upserted into what the connection sees. Nothing changes on failure. |
| Database.Store.Begin | src/worker.rs:41 | A transaction starts from the committed rows, unless beginning fails. |
| Database.Store.Commit | src/worker.rs:45 | The transaction's rows become the committed ones; a failed commit keeps the old rows. |
| Database.Store.Rollback | src/worker.rs:43 | Dropping an uncommitted transaction discards its rows. |
| Statistics.YearOf | src/statistics.rs:38 | `strftime('%Y')` of a stored timestamp is its first four characters; "N/A" gives "N/A". |
| Statistics.Key | src/statistics.rs:38-46 | The selected column of each query: the year of the timestamp for photos per year, the column itself for the other eight. |
| Statistics.Grouped | src/statistics.rs:38-58 | `GROUP BY` with `COUNT(*)`: every key that occurs, mapped to its number of rows. |
| Statistics.GroupedAt | src/statistics.rs:38-46 | A value is reported exactly when some row has it, with the number of such rows. |
| Statistics.GroupedPositive | src/statistics.rs:38-46 | Every reported count is at least 1. |
| Statistics.GroupedTotal | src/statistics.rs:38-46 | The counts of one dimension add up to the number of rows. |
| Statistics.GroupedInsert | src/statistics.rs:38-46 | Adding a row adds one to its own group and leaves the others unchanged. |
| Statistics.SetField | src/statistics.rs:62-73 | Assigning one field of the record leaves the other eight unchanged. |
| Statistics.StatisticsOfGet | src/statistics.rs:11-22 | Field `d` of the full report is the grouping by `d`. |
| Statistics.FieldOfTitle | src/statistics.rs:62-73 | Each of the nine query titles selects its own field. |
| Statistics.Queries | src/statistics.rs:37-47 | The `queries` vector: the nine titles in order, each with the grouping its SQL computes. |
| Statistics.QueryOf | src/statistics.rs:37-47 | Each dimension has exactly one query in the list. |
| Statistics.GenerateStatistics | src/statistics.rs:24-77 | Without the table the first query fails with no such table; otherwise the result is the nine groupings of the rows the connection sees. |
| Statistics.GroupedUpsertNew | src/statistics.rs:38-46 | Inserting a new path adds one to its row's group. |
| Statistics.PhotosPerYearExample | src/statistics.rs:94-114 | One photo from 2021 and two from 2022 give {"2021": 1, "2022": 2}. |
| Statistics.UndatedPhotoExample | src/statistics.rs:116-131 | A photo without a date is counted under "N/A". |
| Statistics.EmptyTableStatistics | src/statistics.rs:133-138 | An empty table gives nine empty maps. |
| Worker.Chunks | src/worker.rs:73 | `par_chunks(50)`: consecutive slices of the list of the chunk size, the last one possibly shorter. |
| Worker.ChunksFlatten | src/worker.rs:73 | The chunks put back together are the file list. |
| Worker.ChunksSizes | src/worker.rs:73 | Every chunk holds 1 to 50 files, and all but the last hold exactly 50. |
| Worker.ChunksCount | src/worker.rs:73 | There are `|files| / 50` chunks, rounded up. |
| Worker.ChunksExample | src/worker.rs:73 | 120 files give chunks of 50, 50 and 20. |
| Worker.Zip | src/worker.rs:51 | The i-th pair is the i-th file with the i-th record, up to the shorter list. |
| Worker.ZipIgnoresExtra | src/worker.rs:51 | Extra files and extra records are both ignored. |
| Worker.ModTimeSecs | src/worker.rs:22-34 | The seconds since the epoch of a readable file modified after the epoch; 0.0 otherwise, so never negative (the test at 162-177). |
| Worker.Latest | src/worker.rs:51-55 | The record of the last pair for a path, or none when the path does not occur. |
| Worker.UpsertAll | src/worker.rs:51-55 | The loop's effect on the rows: each pair upserted in order, with the file's own mod time. |
| Worker.UpsertAllAt | src/worker.rs:51-55 | After the loop a path has a row exactly when it had one or occurs in the pairs; an occurring path's row is built from its last record and its own mod time; other rows stay. |
| Worker.UpsertAllAppend | src/worker.rs:51-55 | Upserting two lists in turn is upserting their concatenation. |
| Worker.UpsertAllKeepsInvariant | src/worker.rs:51-55 | The loop keeps every row well formed. |
| Worker.FirstIn | src/worker.rs:54 | The first pair index that is refused, if any. |
| Worker.TransactionSpec | src/worker.rs:50-58 | The specification of `process_files_in_transaction`: with no pairs it passes; without the table it fails with no such table; otherwise the pairs are upserted in order up to the first refused insert, which fails the transaction. |
| Worker.TransactionPasses | src/worker.rs:50-58 | The transaction passes exactly when there are no pairs, or the table exists and no row is refused; then every pair is upserted. |
| Worker.ProcessFilesInTransaction | src/worker.rs:50-58 | The outcome and the transaction's rows are those of its specification: upsert in order and stop at the first refused insert, keeping the earlier upserts in the transaction. Committed rows are untouched. |
| Worker.ChunkSpec | src/worker.rs:36-48 | The specification of `process_chunk`: an exiftool error, a failed begin, a failed transaction or a failed commit is the chunk's error with the committed rows kept; otherwise every pair of the chunk is committed. |
| Worker.ChunkAllOrNothing | src/worker.rs:36-48 | A failed chunk leaves the committed rows as they were. A chunk passes exactly when extraction, begin, every insert and the commit succeed, and then every file is upserted with its own record. |
| Worker.ChunkExtractionFails | src/worker.rs:37 | When exiftool fails, its error is the chunk's error and nothing is written. |
| Worker.ProcessChunk | src/worker.rs:36-48 | Outcome and committed rows are those of the chunk's specification; no transaction is left open. |
| Worker.RunChunks | src/worker.rs:73-75 | `try_for_each` over the chunks in list order: each chunk runs on the rows the previous ones committed, and the first failure ends the run. |
| Worker.RunChunksPasses | src/worker.rs:73-75 | A passing run has upserted every file of every chunk, in order. |
| Worker.RunChunksFails | src/worker.rs:73-75 | A failing run stopped at some chunk k. Every earlier chunk passed, chunk k failed with the run's error, and the rows are those the earlier chunks committed. |
| Worker.ProcessFilesSpec | src/worker.rs:60-78 | The specification of `process_files_in_parallel`: an empty list passes untouched, a failed open fails with cannot open, otherwise the chunks of 50 are run. |
| Worker.ProcessFilesInParallel | src/worker.rs:60-78 | An empty list passes and touches nothing, before the database is opened (61-63). A failure to open the database fails with cannot open (65). Otherwise the outcome and rows are those of the chunks run in order, up to the first failure. |

## Left out

- Floating point. Focal lengths are exact decimals rounded to tenths, and ties round up: `{:.1}` on an `f64` can round a tie such as 50.25 either way. Exponent forms, "inf" and "nan" and signs that `f64` parsing accepts are not parsed. Mod times are exact reals.
- Utils.NormalizeFocalLength: the value is an exact decimal, so `f64` rounding of long inputs is not modelled: "0.04999999999999999999" parses to 0.05 in the program and prints "0.1 mm", where the model gives "0 mm".
- Utils.NormalizeFocalLengthAsWritten: the same `f64` rounding is not modelled ("0.0 mm" here for that input), nor the saturating `value as i64` cast: "12345678901234567890123" prints "9223372036854775807 mm" in the program and its own digits here.
- Utils.NormalizeFocalLength: states the corrected rounding; the code as written is `NormalizeFocalLengthAsWritten`, see Findings.
- Database.MakeRow: stores the corrected focal length, where the program stores the text of `NormalizeFocalLengthAsWritten`. By `Utils.FocalLengthAsWrittenAgrees` the two differ only on a decimal with a non-zero fraction that rounds to whole millimetres: "49.96" is stored as "50 mm" here and as "50.0 mm" by the program.
- Database.MakeRowWellFormed: the canonical focal length it states holds for the corrected store; a row the program writes for "49.96" holds "50.0 mm", which is not canonical. `WellFormedRow`, `TableInvariant` and `Store.Valid` describe the corrected table.
- Unicode. Trimming, lower-casing and digits are ASCII only. Rust's `trim` and `to_lowercase` also act on non-ASCII whitespace and letters.
- Database.FormatDate: chrono's parser is modelled as the fixed-width form only. It also accepts one-digit fields and a 60th second and these are rejected here.
- SQL evaluation. Each query is modelled by the grouping it computes. `strftime` is only ever applied to the stored timestamp form. The "Unknown" and 0 fallbacks for undecodable cells and the skipped bad rows are left out, because stored cells are always text.
- Statistics.GenerateStatistics: counts are unbounded. In the program a count above the `i32` range makes `row.get(1)` fail, and `unwrap_or(0)` reports it as 0. A query that fails half-way for another reason than the missing table is not modelled.
- Concurrency. `par_chunks` with rayon runs chunks in any order and may stop others when one fails. Here chunks run one after another in list order, and the behaviour of the `Mutex` is not modelled. The "Database mutex poisoned" processing error therefore cannot occur.
- Worker.ProcessFilesInParallel: with concurrency, other chunks than the earlier ones may have committed when a run fails; the model fixes list order.
- `init_database_connection` is modelled only as whether opening fails. The connection's file, and the schema an existing file already has, are parameters.
- The exiftool process, its command line and the JSON parser are not modelled. The run is a parameter, so whether the tool's records line up with the files is not checked. JSON numbers are represented as integers only (`JNumber`); fractions and exponents are not, and no numeric member is ever read as a field.
- The directory walk (src/files.rs), configuration (src/config.rs), the command line (src/main.rs) and the desktop shell (src-tauri/src/lib.rs) are not part of this model.
- The `Display` texts of `AppError` other than the three exiftool messages, and the `println!` progress output.
- The tests of `process_files_in_parallel` at src/worker.rs:115-146 are not modelled as examples: all four build their configuration with `Config::new()`, and src/config.rs defines no such constructor (only `From<Cli>` at src/config.rs:23), so they do not compile.

## Findings

| source | as written | input that shows it | evidently intended | confidence | as-written member | corrected member |
|---|---|---|---|---|---|---|
| src/utils.rs:10-15 | Wholeness is tested on the parsed value before `{:.1}` rounds it, so a value just below a whole number is printed with a trailing ".0". | "49.96" gives "50.0 mm", and normalising "50.0 mm" again gives "50 mm". | Round to one decimal first, then drop a ".0", so that normalisation is idempotent. | not executed | Utils.FocalLengthAsWrittenNotIdempotent | Utils.FocalLengthIdempotent |
