# A verified model of the SQL-over-CSV engine

The engine runs a script of `INSERT` and `SELECT` statements on a directory of CSV files. This project
models its three cores and proves, for all inputs and all runs, what they promise.

- **The executor** (`src/execute.c`). A script with an `INSERT` runs on lazily made copies in a stage
  directory; the touched CSVs are then swapped into the data directory one at a time through a temp and a
  backup, and swapped back in reverse order when a swap or the final output fails. `FileSystem` is a class
  over the two directories in which every operation may fail, and in which the existence probe, itself an
  `fopen`, may miss a file that is there; ghost counters count the failures and the misses, a ghost field keeps
  the last call that has failed, and a ghost trace keeps every state the directories pass through. The methods in `Execute`, `CommitIo` and
  `Script` are the C functions with their loops; `Semantics` says what a script means when its statements
  run one after the other directly on the data directory.
- **The CSV storage engine** (`src/storage.c`). `Csv`, `Schema` and `Storage` give the format, the schema
  mapping and the two operations as functions of file contents; the loops over streams in `CsvIo`,
  `StorageIo` and `TableIo` are proved equal to them, and `StorageTheorems` proves what the functions
  guarantee. `CsvExact` and `SchemaFiles` say exactly which records, rows, files and schemas are read, and as
  what; `Inserts` and `Statements` say which statements succeed, with which code the others fail, and which
  value is stored and printed under which column. Quoting follows section 2 of RFC 4180, rules 5 to 7, with LF
  row ends and lenient unquoted fields.
- **The SQL parser** (`src/parser.c`). The class `Parser` is the mutable cursor; it is proved equal to the
  functions in `Grammar` in its statements and in the code and position of every error. `ParseTheorems` and
  `RoundTrip` prove soundness, concatenation and the print/parse round trip; `Language` defines the accepted
  texts as sequences of tokens, without the parser, and proves that the parser accepts them and nothing else. String literals double the
  quote as in section 5.3 of SQL-92; integers follow `strtoll`, section 7.22.1.4 of C11; the byte order mark
  is that of section 6 of RFC 3629.

`EndToEnd` and `FreshTable` join the three; `Samples` holds the queries and the table that the repository ships;
`Limits` holds SQL texts and directories at which the code does not do what one would like. Bytes are `char` values and files are strings of them; 64-bit integers are
subset types, so that a value out of range is a failed proof.

## What the code does not promise

Some statements one would like to make are false of the code. Each comes with an input and with the exact
condition under which it holds. A run is called honest when no existence probe has missed a file.

- **A missed file.** `file_exists` (`src/execute.c:178-188`, `src/storage.c:286-296`) takes every failed `fopen`
  for an absent file. When the probe at `src/execute.c:656` misses a target and the replace then works, the
  original is neither at its target nor in its backup, and a later rollback that reports success leaves no
  table (`Commit.MissedOriginalIsGone`); up to the clean-up nothing else loses an original
  (`Commit.OriginalLostIffMissed`, and `CommitIo.CommitTable` for every run). The two probes of
  `ensure_staged_table` (`src/execute.c:407`, `420`) decide what is committed: when a staged CSV is missed, the
  data version is copied over it and an earlier INSERT is dropped (`Limits.MissedStagedCsvDropsInsert`); when
  the CSV in the data directory is missed, an INSERT with a column list starts a fresh one
  (`Limits.MissedDataCsvDropsRows`). Both runs can report success, and the clean-up then removes the backup.
  A miss in `storage_append_row` truncates the CSV (`TableIo.StorageAppendRow`); one in
  `remove_file_if_exists` leaves the file (`CommitIo.RemoveTarget`). What is proved of honest runs says so;
  what is proved of all runs names the tables that a probe has missed.
- **Early exits of the commit.** The exits at `src/execute.c:630-667` do not undo the tables committed before,
  although `docs/EDGE_CASE_FIXES.md:19` states the intent to roll back on any failure during the commit.
  They all restore the data directory if and only if the script writes at most one table, whatever its
  tables are called (`Script.EarlyExitsRestoreIffOneTable`); `Limits.EarlyExitKeepsFirstTable` gives a text with
  two. A failed replace, a failed statement and a failed output do restore it: when a single call has failed
  before the clean-up, the initial directory is left unless that call was the copy or the backup of a table's
  commit (`Script.ExecuteScript`, `Script.OneFailureRestores`).
- **Colliding names.** Temps and backups share the stage directory with staged tables, and the parser accepts
  names such as `__commit_0`. A commit leaves the directory of the direct run if and only if no table is
  overwritten by a temp or by a backup with other bytes before it is read (`Script.CommitIsRightIff`, for
  every accepted script and every directory); the text in `Limits.TempNamedTextEmptiesTable` reports
  success and empties its table. Safety and rollback hold whatever the names are.
- **One file per table.** `s.t` and `s__t` are the same file. A name has its CSV for itself if and only if it
  is unqualified and is not two identifiers with `__` between them (`EndToEnd.OwnsCsvIff`).
- **No trace of a failed INSERT.** `docs/EDGE_CASE_FIXES.md:68` wants none. A failed header write
  (`src/storage.c:933-971`) has no clean-up, so it may leave part of a CSV; a single failure after it leaves
  no trace (`TableIo.CreateAndAppend`). A failed append to a CSV that was there (`src/storage.c:893-931`,
  `1374-1381`) is not undone either, so it may leave part of a row; a failure before the write leaves
  everything as it was (`TableIo.AppendToCsv`, `TableIo.StorageAppendRow`).
- **Byte order marks.** `parse_csv_record` strips one from the first field of every record, so a row reads back
  as written if and only if its first field has none (`Csv.RowRoundTrip`,
  `StorageTheorems.AppendAddsOneRecord`); and two accepted SQL texts concatenate if and only if the second
  has none (`ParseTheorems.ConcatenatedInputs`).
- **Raw INT fields.** A projection prints them without quotes, so its output does not always read back, nor does
  it always hold the rows of SELECT *. It does if and only if every single line does
  (`StorageTheorems.ProjectionReadsIff`, `StorageTheorems.SelectPathsAgreeIff`), and
  `StorageTheorems.ProjectedRowReadsIff` says which lines do.

## Model

| member | source | states |
|---|---|---|
| Script.ExecuteScript | src/execute.c:721-890 | for every script and directory: an honest run that succeeds prints the bytes of the direct run, so each SELECT sees the INSERTs before it, and leaves its files exactly when no name collides; without failing calls it fails with the direct run's error code or, if no name collides, succeeds with the direct run's files; a failed statement, replace or output (with working undo) leaves the initial directory; when exactly one call has failed before the clean-up, an honest run that does not succeed leaves the initial directory unless the failed call is the copy or the backup of a table's commit; an undo is only reported as failed, or left out, when a second call has failed; an early commit exit leaves the rounds done before, without a collision exactly the first i tables, and with at most one table the initial directory; a failed output has printed a prefix; in every run, up to the clean-up, every original is at its target or in its backup but for tables replaced after their probe had missed them, at most one for each miss; a clean-up whose removals work empties the stage |
| Script.OneFailureRestores | src/execute.c:669-715 | a settled run in which one call has failed leaves the initial directory, unless that call was the copy or the backup of a table's commit and the run has stopped there |
| Script.ExecuteStaged | src/execute.c:765-878 | the same for the staged mode, at the moment the clean-up begins, with everything in the stage known to the clean-up |
| Script.ExecuteUnstaged | src/execute.c:772-889 | a script of SELECTs changes no file but its buffer file, which is gone afterwards if no call fails |
| Script.CommitAndPrint | src/execute.c:831-878 | after statements that ran in step with the direct run, each outcome of an honest commit leaves the directory that belongs to it; a failed output has printed a prefix; in every run the trace loses no original but those missed and replaced |
| Script.CopyOutput | src/execute.c:851-867 | a failed output has printed a prefix, and an honest undo brings back every original that was backed up and removes every new table; the undo is always tried, so that it is reported as failed only after a second failing call |
| Script.CommitFollowsDirect | src/execute.c:588-719 | if the stage over the data equals the direct run, then any number of rounds, with any answers of the probes, does to the data directory what it would do from the direct run's directory |
| Script.CommitIsPartial | src/execute.c:588-719 | without a collision i rounds give the direct run's contents on the first i tables and the initial contents elsewhere |
| Script.CommitIsRightIff | src/execute.c:615-715 | for every script that the direct run accepts and every directory, a full commit leaves the direct run's directory if and only if no table is overwritten in the stage by other bytes before it is read |
| Script.EarlyExitRestoresIffFirst | src/execute.c:630-667 | for every accepted script, whatever its tables are called, the directory left by an early commit exit after i rounds is the initial one if and only if i is 0 |
| Script.EarlyExitsRestoreIffOneTable | src/execute.c:630-667 | for every accepted script, whatever its tables are called, all early exits of its commit leave the initial directory if and only if it writes at most one table |
| Script.SettledMeans | src/execute.c:831-878 | what an honest run leaves, in the terms of a caller: success and the direct run's directory, the first i tables, or the initial directory |
| Script.FaultlessMeans | src/execute.c:831-889 | without failing calls, missed files and collisions, a script that the direct run accepts succeeds and leaves the direct run's directory; one that it refuses fails with its code and changes nothing |
| Limits.MissedStagedCsvDropsInsert | src/execute.c:407-410 | for every schema and all rows: when the probe of the staged CSV misses it, the next INSERT is stored without the one before |
| Limits.MissedDataCsvDropsRows | src/execute.c:407-410 | for every schema and all rows: when the probe of the CSV in the data directory misses it, an INSERT with a column list is stored without the rows that were there |
| Limits.EarlyExitKeepsFirstTable | src/execute.c:646-667 | an SQL text and a directory of two tables at which an early exit leaves a changed directory |
| Limits.TempNamedTextEmptiesTable | src/execute.c:627-669 | an SQL text and a directory on which a run without failures reports success and leaves the table empty |
| Commit.RollbackInvertsCommit | src/execute.c:532-719 | for every number of rounds, all table names and all contents, rolling back a commit gives back the data directory, tables that did not exist gone again, but for the originals that a probe had missed |
| Commit.RunSwaps | src/execute.c:615-715 | whatever the probes answer, the rounds change no other file and back up every original that was seen |
| Commit.SwapAllCommits | src/execute.c:615-715 | without a collision every round is done and k rounds write exactly their tables' staged contents |
| Commit.UnswapAllRestores | src/execute.c:541-583 | the reverse loop leaves exactly the originals that were backed up, from any state in which the first k tables are swapped, whatever else the stage holds |
| Commit.SwappedIsSafe | src/execute.c:615-715 | between two rounds, and inside one while the target is away, every original that was seen or is still to come is at its target or in its backup, with no condition on names or contents |
| Commit.OriginalLostIffMissed | src/execute.c:656-669 | a round that replaces a table loses its original if and only if the probe has missed it |
| Commit.MissedOriginalIsGone | src/execute.c:656-669 | one table whose probe misses it: after the round the original exists nowhere, after the rollback there is no table |
| Commit.HonestRemains | src/execute.c:656-657 | when no probe has missed a file, a rollback can bring back everything |
| Commit.ReservedNamesDiffer | src/execute.c:627-628 | backups and temps of different rounds never share a name, for any index |
| Collision.CommitWorksIffNoCollision | src/execute.c:615-715 | on given directories with non-empty staged tables, the commit of distinct tables goes through and writes their staged contents if and only if none is overwritten by a temp, or by a backup with other bytes, before it is read |
| Collision.TempNamedTableIsEmptied | src/execute.c:627-646 | a touched table with the name of the first temp is committed as an empty file |
| Collision.RunAlike | src/execute.c:615-715 | a commit depends on the data directory and on the staged tables, and on nothing else in the stage |
| CommitIo.CommitStagedCsvs | src/execute.c:588-719 | for all distinct names: success means that all rounds of the commit function are done; without failing calls it stops exactly where that function stops; the early exits leave the rounds done before; an honest failed replace with working undo leaves the old data; a single failing call ends in an early exit, and then it is that table's copy or backup, or in a replace that was undone; every state passed through keeps every original but those missed and replaced |
| CommitIo.RollbackCommittedCsvs | src/execute.c:532-586 | honest success leaves exactly the originals that were backed up; every state passed through keeps them, in every run, even when the undo fails half way |
| CommitIo.CommitTable | src/execute.c:630-709 | one round does what the commit function does or, unless the restore fails, leaves the data directory as it was; the restore is tried after every failed replace of a table that was seen, so that it takes two failing calls to leave it away; its original is lost if and only if its probe has missed it and its replace has worked |
| CommitIo.BackUpTable | src/execute.c:656-667 | the probe says yes exactly when the original is there and is not missed; the original then moves to its backup or nothing changes |
| CommitIo.RollBackTable | src/execute.c:541-583 | one round of the reverse loop takes the table from swapped in back to its original; a missed target does no harm to other originals |
| CommitIo.RemoveTarget | src/execute.c:241-252 | success means that the file is gone, unless the probe has missed it: then nothing has changed |
| CommitIo.BackupNamesAligned | src/execute.c:623-631 | unique-append never drops a backup name, so backup j is at index j |
| CommitIo.StringList.AppendUnique | src/execute.c:75-113 | the list gains the text at its end exactly when it does not hold it |
| Semantics.RunConcat | src/execute.c:784-829 | two scripts in a row do what their concatenation does |
| Semantics.FailureStops | src/execute.c:784-808 | the first failing statement decides how the whole script fails |
| Semantics.ScriptChanges | src/execute.c:810-828 | a script changes no file but the CSVs in its touched list, and strictly extends each of those |
| Semantics.TouchedFacts | src/execute.c:810-828 | the touched list holds each CSV an INSERT names, once, and only grows |
| Execute.SimulatesStep | src/execute.c:784-829 | a statement run on the staged copies keeps "stage over data equals the direct directory" and prints what the direct run prints |
| Execute.StatementIsLocal | src/execute.c:459-512 | a statement's result depends on, and changes, nothing but its table's two files |
| Execute.StageFile | src/execute.c:404-426 | a file is copied into the stage exactly when the probes see it in the data directory only; in every run the data directory is left alone |
| Execute.EnsureStagedTable | src/execute.c:367-433 | when no probe misses a file, staging a table keeps the simulation and makes the stage show what the direct run would see; in every run it lists each new file for the clean-up and leaves the data directory alone |
| Execute.ExecuteStatementUnstaged | src/execute.c:459-512 | with working I/O and no missed file the outcome, file change and output of the statement's meaning; whatever fails, only the table's CSV can differ, at every step |
| Execute.RunStaged | src/execute.c:784-829 | an honest staged loop ends in step with the direct run or fails as it does; in no run is the data directory written |
| Execute.RunUnstaged | src/execute.c:784-829 | a script of SELECTs prints what the direct run prints and changes nothing |
| Execute.FlushAndCopyOutput | src/execute.c:435-457 | success appends the whole buffer; a failure appends some prefix of it |
| Execute.CleanupStageDir | src/execute.c:344-365 | if all files in the stage are listed and the removals work, the stage is empty afterwards; data is untouched |
| Csv.ScannerParity | src/storage.c:299-392 | a record ends at the first CR or LF with an even number of quotes before it and only there, so the doubled-quote look-ahead never moves a boundary; a CR that ends a record has no LF behind it |
| Csv.InQuotesIsParity | src/storage.c:318-352 | the quote state is on exactly when an odd number of quotes has been read |
| Csv.ScanLossless | src/storage.c:299-392 | a readable file is its records and their terminators, in order |
| Csv.ReadableIffQuotesPair | src/storage.c:376-384 | a file is readable to its end exactly when its quotes pair up |
| Csv.ReadRecordOf | src/storage.c:299-392 | a record text, a terminator and more bytes read as that record and leave those bytes |
| Csv.RowRoundTrip | src/storage.c:299-522 | a printed row is one record, whatever commas, quotes, CRs and LFs its strings hold, and reads back unchanged if and only if its first field has no byte order mark |
| CsvExact.FileReadsIff | src/storage.c:299-522 | a file of printed rows reads back, row for row, if and only if each row does: no split or merged line makes up for another |
| CsvExact.RowReadsOnlyWhole | src/storage.c:299-522 | no part of a printed row, and no row with lines behind it, is read as the row's fields |
| CsvExact.RowReadsIff | src/storage.c:299-522 | for all cells, printed as they are: the row is one record and reads back if and only if it is a record text, no unquoted cell has a comma or a leading quote, and the first has no byte order mark |
| CsvExact.FieldsIff | src/storage.c:394-522 | for every record, printed here or not: it is accepted, and as these fields, if and only if it consists of fields with commas between them, each quoted with its quotes doubled or unquoted without comma and leading quote |
| Csv.ParseRendered | src/storage.c:394-522 | printed fields are parsed back one for one, but for a byte order mark in the first |
| Csv.ReadRendered | src/storage.c:1091-1153 | records written with LF ends are read back as the same record list |
| CsvIo.ReadCsvRecord | src/storage.c:299-392 | the look-ahead loop returns exactly the record that quote parity delimits and leaves the stream behind its terminator |
| CsvIo.ParseCsvRecord | src/storage.c:394-522 | the index loop returns the fields of the recursive format definition, or refuses when it does |
| CsvIo.WriteCsvString | src/storage.c:764-790 | the stream gains the quoted and escaped text |
| CsvIo.DigitBuffer | src/storage.c:806-814 | for every magnitude up to 2^63 the loop fills 1 to 19 of the 32 bytes with its decimal digits, last first |
| CsvIo.WriteSignedInteger | src/storage.c:792-827 | every 64-bit value, the minimum included, is printed as its decimal text without overflow |
| Decimal.IntRoundTrip | src/parser.c:289-327 | the text printed for any 64-bit value is converted back to that value |
| Decimal.MagnitudeDigits | src/storage.c:792-827 | no 64-bit magnitude needs more than 19 digits |
| Decimal.StrtollIsExact | src/parser.c:289-327 | for every sign and every digits, zeros in front included: the number that is written, summed up from the places of its digits, or an error if and only if it is no 64-bit integer |
| Decimal.IntTextIsCanonical | src/storage.c:792-827 | the printed text has no plus sign, and no leading zero unless the value is zero |
| Schema.Pigeonhole | src/storage.c:1004-1089 | among lists as long as the schema, those of distinct known names are exactly the permutations of its names |
| Schema.MappedPairs | src/storage.c:1052-1083 | every schema slot gets the value listed beside its name; no pair is lost or repeated |
| Schema.MappedKeepsValues | src/storage.c:1004-1089 | mapping keeps the multiset of values |
| Schema.JointReordering | src/storage.c:1004-1089 | listing columns and values together in another order stores the same row |
| SchemaFiles.LoadSchemaIff | src/storage.c:538-687 | for every file: it loads as these columns if and only if its records are the title and one line for each column, in order, a name and its type, and the names are distinct and not empty |
| SchemaFiles.ParseTypeIff | src/storage.c:524-536 | a type name is taken letter for letter in any mixture of cases, and nothing else is |
| SchemaFiles.WrittenSchemaLoads | src/storage.c:538-687 | a schema written with any spelling of its types, its names with or without quotes, loads as itself if and only if no name starts with a byte order mark |
| Schema.LoadSchema | src/storage.c:538-687 | a schema that loads is non-empty, with distinct non-empty names |
| StorageIo.MapValuesToSchema | src/storage.c:1004-1089 | succeeds if and only if the count fits and the list is empty or a permutation of the schema names, and then fills every slot with the right value |
| StorageIo.ValidateValueTypes | src/storage.c:973-1002 | accepts exactly the rows whose kinds match their columns |
| StorageIo.WriteCsvValue | src/storage.c:829-843 | a validated value is written in its own form; the string arm is read only when the value is a string |
| StorageIo.FindSchemaIndex | src/storage.c:270-284 | the first index of the name, or none exactly when it is absent |
| StorageIo.LoadTableSchema | src/storage.c:538-687 | reads exactly the schema the bytes denote, or refuses |
| StorageIo.HeaderMatchesSchema | src/storage.c:731-762 | true exactly when the header is the schema's name list in order |
| StorageIo.AppendNewlineIfNeeded | src/storage.c:851-891 | a newline is added exactly when the file is not empty and does not end in CR or LF |
| StorageIo.AppendRowToFile | src/storage.c:893-931 | the file gains the repaired tail, the row and an LF, and nothing else |
| StorageIo.WriteHeader | src/storage.c:933-971 | the stream gains the raw names, comma-separated, and an LF |
| StorageIo.CopyStreamValidated | src/storage.c:1091-1153 | prints all records with LF ends if each row has the header's width, fails otherwise |
| StorageIo.WriteProjectionRow | src/storage.c:1155-1194 | prints the selected fields in order, quoted exactly for STRING columns |
| StorageIo.SelectIndices | src/storage.c:1489-1521 | accepts exactly lists of distinct known columns and gives the schema index of each |
| StorageIo.ProjectStream | src/storage.c:1559-1619 | prints the projection of every remaining record in order, or fails when a row has the wrong width |
| Storage.AppendRecord | src/storage.c:851-931 | on any CSV, appending a row adds one record to its record list, whether it ended in LF, CR, CRLF or no newline; an unreadable file stays unreadable |
| StorageTheorems.AppendAddsOneRecord | src/storage.c:1196-1381 | a successful INSERT adds exactly one record of header width that holds the inserted values, each once, and reads back as their texts if and only if the first has no byte order mark |
| Inserts.InsertOutcome | src/storage.c:1196-1381 | for every schema file, CSV, column list and value list: which INSERTs succeed (one value of the right kind for each column, the list naming every column once, and the header the schema's name list) and the code with which the others are refused, in the order of the checks |
| Inserts.InsertPlacesValues | src/storage.c:1004-1089 | a successful INSERT adds one record in which the field under each name of the header has the text of the value that was listed for that name, or stood at that place |
| Inserts.CreatedTableHolds | src/storage.c:1261-1381 | the same for an INSERT that creates its table, which then has the schema's header and that record |
| Inserts.OrderDoesNotMatter | src/storage.c:1004-1089 | two INSERTs with the same pairs of column and value, in any order, have the same result on every file, refusals included |
| StorageTheorems.AppendExtends | src/storage.c:893-931 | the old bytes are a proper prefix of the new ones |
| StorageTheorems.AutoCreateSucceeds | src/storage.c:1261-1322 | a parsed INSERT that passes mapping and types always creates a missing CSV: the header written re-reads as the schema's names, so the file has two records and the clean-up for a bad header is unreachable |
| StorageTheorems.HeaderReads | src/storage.c:933-971 | a header of identifiers written raw is read back as those names |
| StorageTheorems.SelectAllIsNormalForm | src/storage.c:1091-1153 | SELECT * keeps the record sequence, and selecting from its output gives the same bytes |
| StorageTheorems.SelectSeesInsert | src/storage.c:1196-1381 | SELECT * after an INSERT prints what it printed before and then the new row |
| StorageTheorems.CopyRendered | src/storage.c:1091-1153 | the copy loop succeeds exactly on files readable to the end whose rows have the header's width |
| StorageTheorems.ProjectRendered | src/storage.c:1559-1619 | the projection loop succeeds exactly on such files, and prints row by row |
| StorageTheorems.ProjectionReads | src/storage.c:1489-1619 | on a clean table every valid projection succeeds and reads back as the selected fields of every row, in order |
| StorageTheorems.ProjectedRowReadsIff | src/storage.c:1155-1194 | a projected line is one record that reads back as the selected fields if and only if it is a record text, no selected INT field has a comma or a leading quote, and the first selected field has no byte order mark |
| StorageTheorems.ProjectionReadsIff | src/storage.c:1489-1619 | on any file, the whole output of a projection that succeeds reads back as the selected names and the selected fields of every record, in order, if and only if the names and all rows survive being printed |
| StorageTheorems.SelectPathsAgreeIff | src/storage.c:1383-1637 | on any file that SELECT * accepts, the projection on all columns succeeds, and its output holds the same rows if and only if the names and all rows survive being printed |
| StorageTheorems.SelectPathsAgree | src/storage.c:1383-1637 | on a clean table SELECT * and the projection on all columns both succeed and read back as the same rows |
| StorageTheorems.SelectPathsFailTogether | src/storage.c:1383-1637 | on any files with a schema, a valid projection succeeds if and only if SELECT * does |
| Statements.SelectOutcome | src/storage.c:1383-1637 | for every schema file, CSV and selection: which SELECTs succeed and the code with which the others are refused; both paths accept exactly the files whose records all have the header's width |
| StorageTheorems.AppendKeepsClean | src/storage.c:1196-1381 | an INSERT of values without byte order mark keeps a table clean |
| TableIo.StorageAppendRow | src/storage.c:1196-1381 | with working I/O, exactly the append or the refusal with its code, which `Inserts.InsertOutcome` and `Inserts.InsertPlacesValues` spell out, on the files that are seen: if the probe misses the CSV, those of a table without one; a refused INSERT leaves no trace, nor does one in which a call has failed before the first write, or a single call after the CSV was created; whatever fails, only the table's CSV differs, at every step |
| TableIo.StorageSelectProjection | src/storage.c:1383-1637 | with working I/O, exactly the selected bytes or the refusal with its code |
| TableIo.AppendToCsv | src/storage.c:1289-1381 | with working I/O, exactly the checked append; the CSV is written in one step, a failure before it leaves the world alone, and a failed one is not undone |
| TableIo.CreateAndAppend | src/storage.c:1261-1378 | a single failure after the header write leaves no CSV; a failed header write is not cleaned up; a CSV that was there, its probe missed, is replaced by the header and the row |
| Files.FileSystem.Exists | src/execute.c:178-188 | never sees a file that is not there; may miss one that is, which is counted |
| Files.FileSystem.Copy | src/execute.c:190-224 | on success the target holds the source's bytes, or nothing when it is the source; on failure nothing but the target can differ |
| Files.FileSystem.Move | src/execute.c:226-239 | all or nothing |
| SqlParser.ParseSqlScript | src/parser.c:665-723 | the cursor loop returns the grammar's statements, or its error code at its position, which lies in the input; every round consumes input |
| SqlParser.Parser.MatchKeyword | src/parser.c:122-145 | moves past the keyword exactly when it is there in any case and no identifier byte follows; otherwise does not move |
| SqlParser.Parser.ParseIntegerValue | src/parser.c:289-327 | accepts exactly sign and digits in the 64-bit range; reports an error at the literal's start |
| SqlParser.Parser.ParseStringValue | src/parser.c:330-395 | the literal's text with doubled quotes made single, or an error at the end of input |
| SqlParser.Parser.ParseParenthesizedIdentifierList | src/parser.c:450-494 | the grammar's column list, or its error and position, a repeated name included |
| SqlParser.Parser.ParseValuesList | src/parser.c:527-577 | the grammar's value list, or its error and position |
| SqlParser.Parser.ParseInsert | src/parser.c:579-618 | the grammar's INSERT, a mismatch of column and value counts refused |
| SqlParser.Parser.ParseSelect | src/parser.c:633-645 | the grammar's SELECT, or its error and position |
| ParseTheorems.ParserIsSound | src/parser.c:450-723 | an accepted script is non-empty, with well-shaped identifiers, distinct columns, matching counts and in-range integers |
| Language.AcceptedIsLayout | src/parser.c:450-723 | a text is accepted, and as this script, if and only if the script is well-formed and the text is its tokens, each spelled in one of its ways, with any white space that keeps words and literals apart, behind an optional byte order mark |
| Language.LayoutIsUnambiguous | src/parser.c:450-723 | no text is the layout of two scripts |
| Language.IntegerLiteralIsExact | src/parser.c:289-327 | for every sign, digits and rest: the literal takes the sign and all digits and has the number that is written, or fails at its start if and only if that is no 64-bit integer |
| Language.PlusAndZeros | src/parser.c:289-327 | a plus sign and zeros in front change neither the value nor whether the literal is accepted |
| Language.ByteOrderMark | src/parser.c:665-690 | the three bytes EF BB BF are taken off once, and nothing else is |
| ParseTheorems.StatementsExtend | src/parser.c:665-723 | more input behind an accepted text does not change what was read from it |
| ParseTheorems.KeywordExtends | src/parser.c:122-159 | a keyword that was matched with input left is matched the same way when more follows |
| ParseTheorems.KeywordAnyCase | src/parser.c:122-145 | a keyword is accepted in any mixture of cases, and nothing else is, if and only if no identifier byte follows |
| ParseTheorems.ConcatenatedInputs | src/parser.c:665-723 | two accepted texts in a row parse to their statement lists in a row if and only if the second has no byte order mark |
| ParseTheorems.ErrorBehindAccepted | src/parser.c:665-723 | behind an accepted text the first error decides, with its code and at its position |
| RoundTrip.ScriptRoundTrip | src/parser.c:450-723 | the canonical rendering of every well-formed script, with names equal to keywords, any strings, any 64-bit integers, optional schemas and column lists, parses to that script |
| RoundTrip.RenderingIsInjective | src/parser.c:450-723 | different well-formed scripts have different renderings |
| RoundTrip.ParsePrintParse | src/parser.c:665-723 | rendering what was parsed and parsing it again changes nothing |
| RoundTrip.IntegerPrinted | src/parser.c:289-327 | the printed text of any 64-bit integer, before anything that is no digit, parses to it |
| RoundTrip.StringBodyPrinted | src/parser.c:330-395 | any text, escaped and closed, parses to itself |
| EndToEnd.StoredRowReadsBack | src/storage.c:893-931 | a stored row reads back with its types: the same 64-bit integers and the same strings |
| EndToEnd.InsertThenSelect | src/execute.c:459-512 | a script of an INSERT and a SELECT * prints the earlier rows and then the inserted one |
| Statements.InsertMessageText | src/execute.c:480-491 | an INSERT prints the table as it was named, with its schema if it had one |
| Statements.InsertRuns | src/execute.c:459-512 | a script of one INSERT into a table prints its message and adds one record with each value under its column; no other file changes |
| Statements.InsertRunsIff | src/execute.c:459-512 | which INSERTs a script may hold on which directories, and with which code it fails on the others |
| Statements.SelectRunsIff | src/execute.c:459-512 | which SELECTs a script may hold on which directories, and with which code it fails on the others; no file changes |
| Statements.ProjectionRuns | src/execute.c:498-506 | a script of one projection of a clean table prints the listed columns, in the order of the list, of every record, the header included |
| Statements.InsertThenProject | src/execute.c:459-512 | an INSERT and a projection behind it print the message and the listed columns of the earlier rows and of the inserted one |
| EndToEnd.TextsInARow | src/execute.c:721-890 | one SQL text made of two does what running the two in a row does |
| EndToEnd.RunsKeepTablesClean | src/execute.c:784-829 | after every prefix of every run of parsed statements whose strings have no byte order mark, a table that was clean is clean |
| FreshTable.FilledTableIsSelected | src/execute.c:784-829 | over any schema of identifiers without a CSV, the SQL text that inserts any rows of matching types and selects parses to that script, and the run stores and prints the header and exactly those rows, in order |
| FreshTable.FilledTableIsProjected | src/execute.c:784-829 | the same with a projection at the end of the text, which prints the selected names and the selected values of every row, quoted as they are stored, in the order of the selection |
| Samples.RoundtripRuns | queries/script_users_roundtrip.sql:1-2 | the shipped text parses, and on the shipped table and schema file it stores the row and prints the names and ages of both |
| Samples.ReorderedRuns | queries/insert_users_with_columns.sql:1 | the shipped INSERT with its columns in another order stores the same row |
| SchemaFiles.SchemaRoundTrip | src/storage.c:538-687 | every valid schema has a schema file, and it loads as that schema if and only if no name starts with a byte order mark |
| FreshTable.SchemaFileIsEnough | src/storage.c:538-687 | for every schema of identifiers a directory with its schema file alone is one that a script can fill |
| EndToEnd.CsvIsNoSchema | src/execute.c:115-153 | no parsed table's CSV is a schema file of any table |
| EndToEnd.SameCsvSameSchema | src/execute.c:145-149 | tables that share a CSV share their schema file |
| EndToEnd.OwnsCsvIff | src/execute.c:145-149 | a name shares its CSV with no other accepted name if and only if it is unqualified and is not two identifiers with `__` between them |
| EndToEnd.OrdinaryTablesCommit | src/execute.c:627-628 | a script whose tables have no reserved prefix is committed right on every directory on which it runs |

## Left out

- Script.ExecuteScript: the stage directory is taken as fresh and empty and the buffer file's name as unused, which stands for the retry loops of `create_stage_dir` and `create_temp_file_in_dir`; the clean-up that the code repeats at each exit is one call behind the two modes.
- Script.ExecuteScript: says nothing of the data directory when an undo operation itself fails, beyond what holds of every run up to the clean-up; the clean-up then removes the backups. Crashes are not modelled.
- Script.ExecuteScript: of a run in which a probe has missed a file it says what is kept, not what is printed or stored.
- Commit.ReservedNamesDiffer: the code truncates the index to `unsigned`, so it holds of the code for fewer than 2^32 touched tables.
- TableIo.StorageAppendRow: a read or write error in the middle of a stream is a failure of the open or the write as a whole, which may leave the file with any bytes.
- StorageIo.LoadTableSchema: the error exits that read `row.fields` after freeing the row are plain refusals; nothing is claimed of the message they build.
- Memory: allocation failures, the SIZE_MAX guards, buffer growth and freeing.
- NUL bytes in SQL or CSV, and locales other than C for the character classes.
- Error message texts; the error code and the parser position are modelled.
- stdio buffering, errno, directory creation and removal, process ids and clocks; concurrent processes.
- The wrappers `parse_sql`, `execute_statement` and `storage_select_all`, `src/main.c`, `src/sql_error.c`, the stubs and the Windows branches.
