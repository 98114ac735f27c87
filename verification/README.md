# pqbench in Dafny

A model of the closed core of pqbench, a pipeline of small stateless filters over record streams, and proofs about it.

Run `dafny verify dfyconfig.toml` here to check every proof.

## What is modelled

| file | component |
|---|---|
| `FlatMap.dfy` | the `flat_map` combinator as a transition system: a loop and its tasks interleave over a bounded channel |
| `Batches.dfy` | `filter_map`, `read_batch` and `drive` against the one-at-a-time map |
| `Walk.dfy` | the parallel linter: workers, an atomic claim, a shared report, a final stable sort |
| `Records.dfy`, `Mass.dfy`, `Storage.dfy`, `Rows.dfy` | what a record says on its own, the weighted column fold, the storage prices, and the rows of a summary |
| `Calendar.dfy` | the civil day count, the `--partition` flag and the day windows (sections 5.6, 5.7 and Appendix C of RFC 3339) |
| `Names.dfy`, `Utf8.dfy` | resource names: percent encoding (sections 2.1 and 2.3 of RFC 3986), patterns, the dotted shorthand |
| `Octets.dfy`, `Words.dfy`, `Hashing.dfy`, `Sample.dfy` | the name hash and the stages of `sample files` |
| `Selection.dfy` | the snapshot file selection |
| `Diff.dfy`, `Viz.dfy` | the depth roll-up of a comparison; the totals of the hierarchy |
| `Collection.dfy`, `Footer.dfy`, `Profile.dfy` | chunks to measured columns; the windowed footer read; run statistics, percentiles and top values |
| `RateLimit.dfy` | the pacing state over whole runs |
| `Generate.dfy`, `Docs.dfy` | documentation tests: unique names, `sync` and `check` over a directory |
| `Text.dfy`, `Decimal.dfy`, `Sorting.dfy`, `Sums.dfy`, `Files.dfy` | strings, decimals, the stable sort, map totals and the file record that the rest share |

## How to read it

* A string is the sequence of its UTF-8 bytes, each written as the character with that code (`Text.Text`). An id is
  valid when those bytes are valid UTF-8.
* `f64` is `real`; `u64` is `nat`, and every place where the code saturates, checks or casts is written out.
* A `BTreeMap` is a `map` walked in the order of `Text.SortedKeys`; a hash map and a directory listing are walked in an
  arbitrary order. The library sorts are the stable insertion sort of `Sorting`, which is proved to be determined by
  what a sort promises.
* An operation that works by changing state is a method with loops, and one that updates an object is a method of a
  class (`Mass.ColumnSummary`, `RateLimit.RateLimit`, `Docs.Directory`). Each ensures that it computes a function
  of its inputs or of the old state, and the properties are lemmas about those functions. What an operation comes to is
  also stated from its inputs' own fields, without the function that computes it.
* The two concurrent programs are transition systems, one step per await point or lock. A theorem over runs quantifies
  over every sequence of enabled steps.
* Reads (`read(parent)`, `lint(file)`, an object's byte ranges) and glob matching are arbitrary functions. So are the
  texts nothing depends on: what a document's tests render to, and the introduction of the aggregate.

## What turned out not to hold

* Batched output is the one-at-a-time output only under a condition: a batch writes its parse errors first
  (`Batches.ErrorOvertakesRow`). `Batches.IdenticalIff` gives the exact condition.
* The linter sorts its findings but never its read errors, so their order depends on the schedule exactly when there
  are two workers and two unreadable files (`Walk.ReadErrorOrderIff`).
* `ratelimit` promises at most N records a second, but its interval is rounded to whole nanoseconds. The promise holds
  exactly when N rounded intervals reach a second (`RateLimit.PerSecondIff`): at the default 15 it does, at 3 it does
  not.
* `check` passes when `sync` would change nothing, except that a document such as `all.md` or `support.md`, whose
  output name is the tool's own, makes it fail for ever (`Docs.CheckDocuments`, `Docs.AllDocumentNeverPasses`).
* The dotted shorthand spells only some ids: `a.b` and `c` read back as `a` and `b.c` (`Names.DottedIdsShift`,
  `Names.DottedRoundTripIff`). The name of a file reads back only under a table's name, so not under `x`
  (`Names.NoTableNoFile`, `Names.TableFileParsesIff`).

## Model

| member | source | states |
|---|---|---|
| FlatMap.EveryScheduleConserves | crates/pqbench-cli/src/source.rs:207-262 | in every reachable state each parent's delivered, buffered and unsent rows make up its whole stream in order, and neither the tasks nor the buffered rows are more than `fan_out`, or one when that is zero |
| FlatMap.EndsOnlyWhenDrained | crates/pqbench-cli/src/source.rs:207-262 | the stream ends only after every parent was taken and delivered: its rows in order, each as it was read; the failure of its read once, under the parent's name; or its own parse error |
| FlatMap.NeverStuck | crates/pqbench-cli/src/source.rs:215-262 | every reachable state short of the end has an enabled step, the hand-over where the last sender is dropped and finished tasks are still unjoined included |
| FlatMap.WorkDecreases | crates/pqbench-cli/src/source.rs:215-262 | a measure falls on every step of the tasks and the loop |
| FlatMap.EveryScheduleDelivers | crates/pqbench-cli/src/source.rs:207-262 | a run under a consumer that keeps asking is no longer than the initial work, and where nothing is enabled it has ended with every parent delivered as just said |
| FlatMap.StalledConsumerBlocksOnWrites | crates/pqbench-cli/src/source.rs:185-191 | under a stalled consumer every run of tasks alone is bounded by the work left, rests exactly when each task left waits for room in a channel that holds `fan_out` rows and none on a read, and can always be carried on to such a rest |
| FlatMap.FanOutIsReached | crates/pqbench-cli/src/source.rs:207-234 | as many reads as `fan_out` allows can be in flight at once |
| FlatMap.FillsFirst | crates/pqbench-cli/src/source.rs:214-250 | the loop waits only when it has taken every parent or has a full set of tasks |
| FlatMap.OneInFlightIsSequential | crates/pqbench-cli/src/source.rs:207-262 | with a fan-out of one (or zero, raised to one) every schedule writes exactly what the sequential program writes |
| Batches.ReadBatch | crates/pqbench-cli/src/source.rs:151-180 | the batch loop returns its parse errors first and then its replies in parent order |
| Batches.FilterMapIs | crates/pqbench-cli/src/source.rs:119-180 | from the reads alone: the output holds exactly the kept records, the parse errors bare and the read errors under their parents' names, each kind in parent order, and nothing of a filtered parent |
| Batches.RunFilterMap | crates/pqbench-cli/src/source.rs:119-286 | the command writes exactly the kept records in parent order, reports the failures, and succeeds exactly when every parent parsed and every read did |
| Batches.BatchingRefines | crates/pqbench-cli/src/source.rs:119-180 | for every fan-out the records, the parse errors and the read errors are each the one-at-a-time map's, in its order |
| Batches.BatchInOrderIff | crates/pqbench-cli/src/source.rs:151-180 | one batch is the one-at-a-time output exactly when no parse error follows a parent that yields something |
| Batches.IdenticalIff | crates/pqbench-cli/src/source.rs:119-180 | the whole output is the one-at-a-time output exactly when the fan-out is at most one or no parse error stands behind a parent of its own batch whose read fails or keeps a record |
| Batches.ErrorOvertakesRow | crates/pqbench-cli/src/source.rs:151-180 | a batch of a parent with a row and a parse error behind it writes the error first |
| Batches.Drive | crates/pqbench-cli/src/source.rs:271-286 | the sink writes every record in order, reports every failure in order and fails exactly when there is one |
| Batches.StatusIgnoresFanOut | crates/pqbench-cli/src/source.rs:119-180 | what is written and what fails, and so the exit status, do not depend on the fan-out |
| Text.LeIsByteOrder | crates/aipnaming-cli/src/walk.rs:36-37 | the order of strings that every sort here rests on: a prefix first, else the smaller byte where they first differ |
| Walk.SortFiles | crates/aipnaming-cli/src/walk.rs:36-37 | the discovered files come out strictly sorted, each once |
| Walk.DedupSorted | crates/aipnaming-cli/src/walk.rs:36-37 | dropping neighbours that repeat leaves a sorted list strictly sorted with the same members |
| Walk.FinishedOrder | crates/aipnaming-cli/src/walk.rs:70-105 | whatever the interleaving, every file is claimed and reported exactly once |
| Walk.RunsFinish | crates/aipnaming-cli/src/walk.rs:70-105 | every run of the workers is finite, and can only stop when every worker has |
| Walk.EveryScheduleAgrees | crates/aipnaming-cli/src/walk.rs:62-113 | for every schedule of any number of workers the sorted findings are the sequential program's, and the read errors are its errors as a multiset |
| Walk.ReportHolds | crates/aipnaming-cli/src/walk.rs:62-103 | the report of every schedule holds each finding of each readable file as often as the linter found it, and nothing else |
| Walk.ReportIsOrdered | crates/aipnaming-cli/src/walk.rs:99-110 | it is ordered by path, then line, then column, then rule |
| Walk.PathLeIsByComponent | crates/aipnaming-cli/src/walk.rs:99-110 | where a path comes before another when it is its start or has the smaller component where they first differ |
| Walk.ErrorsHold | crates/aipnaming-cli/src/walk.rs:91-96 | every schedule reports each unreadable file once, with its error, and no other |
| Walk.ReadErrorOrderIff | crates/aipnaming-cli/src/walk.rs:62-113 | every schedule reports the read errors in file order exactly when there is one worker or at most one unreadable file: they are never sorted |
| Calendar.NextIsOneMore | crates/pqbench-cli/src/time.rs:117-139 | stepping to the next valid date adds exactly one day in every integer year, through the truncating division of negative years |
| Calendar.EpochIsZero | crates/pqbench-cli/src/time.rs:130-139 | 1970-01-01 is day zero |
| Calendar.CivilDaysIncrease | crates/pqbench-cli/src/time.rs:130-139 | the count is strictly increasing in (year, month, day) |
| Calendar.CivilDaysInjective | crates/pqbench-cli/src/time.rs:130-139 | no two valid dates share a count |
| Calendar.DateOfDays | crates/pqbench-cli/tests/file.rs:280-298 | the repository's own inverse gives back every valid date from its count |
| Calendar.DaysOfDate | crates/pqbench-cli/tests/file.rs:280-298 | and every integer is the count of the valid date the inverse finds |
| Calendar.ParseFormat | crates/pqbench-cli/src/time.rs:86-115 | a date in ISO form parses to the first millisecond of its day, and is rejected exactly when it predates the epoch |
| Calendar.ParseDayIff | crates/pqbench-cli/src/time.rs:86-127 | the flag accepts exactly ten characters that write a valid date from 1970 on (a `+` and a digit doing for two digits), as 86,400,000 times that date's count; a valid earlier date is told apart, all else is invalid |
| Calendar.ParsedDayIsADate | crates/pqbench-cli/src/time.rs:86-115 | whatever the flag accepts, a `+` in month or day included, is the start of a valid date's day and its window fits in 64 bits |
| Calendar.WindowsAbut | crates/pqbench/src/time.rs:13-25 | a day's window ends where the next date's begins |
| Calendar.WindowHolds | crates/pqbench/src/time.rs:13-31 | a time is in a date's window exactly when the repository's own inverse gives that date for its day; a window is 24 hours |
| Calendar.WindowsTile | crates/pqbench/src/time.rs:13-31 | every millisecond from the epoch through 9999-12-31 is in the window of exactly one date |
| Calendar.PartitionsListEveryFileOnce | crates/pqbench/src/file/list/api.rs:93-106 | listing a timed set by every partition day of that range returns each dated file as often as the set holds it, and nothing else |
| Names.Encode | crates/pqbench/src/dialect.rs:36-47 | the byte loop writes the encoding that `decode` is proved to undo |
| Names.EncodedSnoc | crates/pqbench/src/dialect.rs:36-47 | byte by byte: letters, digits and `-._~` stay, and any other byte is `%` and its two upper-case hexadecimal digits |
| Names.Decode | crates/pqbench/src/v1/name.rs:236-252 | the decoder's loop reads escapes of either case, keeps malformed ones as they are, and reads the bytes as UTF-8 |
| Names.EscapeDecodes | crates/pqbench/src/v1/name.rs:241-256 | an escape with digits of either case is the byte it spells |
| Names.ByteDecodes | crates/pqbench/src/v1/name.rs:248-249 | every other byte stays, and so does a `%` that starts no escape |
| Names.DecodeEncode | crates/pqbench/src/dialect.rs:36-47 | decoding an encoded id gives the id back, for every valid UTF-8 string |
| Names.EncodedIsSegment | crates/pqbench/src/dialect.rs:36-47 | an encoded id holds nothing but unreserved bytes and `%`, so it is one path segment |
| Utf8.LossyKeepsValid | crates/pqbench/src/v1/name.rs:236-252 | the lossy reading changes no valid UTF-8 |
| Utf8.LossyIsValid | crates/pqbench/src/v1/name.rs:236-252 | and always returns valid UTF-8 |
| Utf8.ValidIff | crates/pqbench/src/v1/name.rs:236-252 | valid means: the bytes of some sequence of Unicode scalar values, by their bit layout |
| Utf8.LossyKeepsUnits | crates/pqbench/src/v1/name.rs:251 | every character is kept |
| Utf8.BadIsMaximal | crates/pqbench/src/v1/name.rs:251 | elsewhere one U+FFFD stands for the longest start of a character at that place, or for one byte where none starts |
| Names.Ids | crates/pqbench/src/v1/name.rs:92-108 | the parser's loop over segments and parts returns the ids of the path form or of the shorthand, or nothing |
| Names.ParsesIff | crates/pqbench/src/v1/name.rs:92-107 | the path form is accepted exactly when it has the pattern's segments and every literal stands in its place; its ids are the decoded parts between them, in order |
| Names.NamesAreSpelled | crates/pqbench/src/v1/name.rs:12-76 | the layouts of all eight builders, spelled out |
| Names.BuiltParses | crates/pqbench/src/v1/name.rs:92-108 | every name a builder lays out parses back to its ids, whatever they hold |
| Names.BuiltInjective | crates/pqbench/src/v1/name.rs:92-108 | whatever the pattern, different ids never build the same name |
| Names.MetastoreInjective | crates/pqbench/src/v1/name.rs:12-14 | different metastores have different names |
| Names.CatalogInjective | crates/pqbench/src/v1/name.rs:18-20 | different catalogs have different names |
| Names.SchemaInjective | crates/pqbench/src/v1/name.rs:24-26 | different (catalog, schema) ids have different names |
| Names.TableInjective | crates/pqbench/src/v1/name.rs:30-32 | different (catalog, schema, table) ids have different names |
| Names.TableFileInjective | crates/pqbench/src/v1/name.rs:36-38 | different (catalog, schema, table, file) ids have different names |
| Names.CommitInjective | crates/pqbench/src/v1/name.rs:54-60 | different (catalog, schema, table, commit) ids have different names |
| Names.UnderTableInjective | crates/pqbench/src/v1/name.rs:42-50 | under whatever table name, a file's and a commit's name tell both the table name and the id |
| Names.BlobInjective | crates/pqbench/src/v1/name.rs:64-66 | different (service, locator) ids have different names |
| Names.ColumnInjective | crates/pqbench/src/v1/name.rs:70-76 | different (service, locator, column) ids have different names |
| Names.MetastoreParses | crates/pqbench/src/v1/name.rs:80-85 | a metastore name reads back as its id |
| Names.TableParses | crates/pqbench/src/v1/name.rs:30-33 | a table name reads back as its three ids, even ids holding `/`, `%` or dots |
| Names.ColumnParses | crates/pqbench/src/v1/name.rs:70-77 | a column name reads back as its three ids |
| Names.BlobParses | crates/pqbench/src/v1/name.rs:195-200 | a blob name reads back as its service and locator |
| Names.TableFileParsesIff | crates/pqbench/src/v1/name.rs:204-209 | a file name reads back as its table and file exactly when the table part is a table's name, even when an id is itself `files` |
| Names.NoTableNoFile | crates/pqbench/src/v1/name.rs:204-209 | the name of a file under `x` does not read back |
| Names.TableFileParses | crates/pqbench/src/v1/name.rs:36-45 | so the name of a file of a table always does |
| Names.DottedRoundTripIff | crates/pqbench/src/v1/name.rs:111-131 | the dotted shorthand of some ids parses back to them exactly when none is empty or holds a slash, only the schema holds dots, and no piece of it is empty |
| Names.DotMovesOver | crates/pqbench/src/v1/name.rs:111-131 | a dot in the first of two ids always moves over into the second |
| Names.DottedIdsShift | crates/pqbench/src/v1/name.rs:111-131 | `a.b` and `c` read back as `a` and `b.c` |
| Names.DottedSingleIff | crates/pqbench/src/v1/name.rs:111-131 | a single id is its own shorthand exactly when it is not empty and holds neither dots nor slashes |
| Names.DottedTableParses | crates/pqbench/src/v1/name.rs:92-131 | the dotted form of a table's ids reads back wherever the shorthand can spell them |
| Names.Shorthands | crates/pqbench/src/v1/name.rs:92-108 | a table name that is no path of six segments is read as the shorthand, and a column name has none |
| Names.PatternNameIdempotent | crates/pqbench/src/v1/name.rs:134-153 | canonicalising a canonical name changes nothing |
| Names.BlobUriOfName | crates/pqbench/src/v1/name.rs:180-228 | the URI of a blob's name is the URI it was made from less any `file://` prefix |
| Names.BlobNameIs | crates/pqbench/src/v1/name.rs:180-219 | the scheme ends at the first `://`; a URI without one, or that starts with it, and a `file://` URI are files |
| Names.SchemeIsService | crates/pqbench/src/v1/name.rs:180-219 | `scheme://locator` is the blob `locator` of the service `scheme`, for every scheme that is not empty, not `file` and holds no colon |
| Names.FileUriIsFile | crates/pqbench/src/v1/name.rs:212-214 | `file://path` is the blob `path` of the service `file` |
| Names.BlobUriIs | crates/pqbench/src/v1/name.rs:188-229 | a blob reads back as `service://locator`, and a file as its bare path |
| Names.LocalTableIs | crates/pqbench/src/v1/name.rs:165-172 | a table read by path is named after the last segment of its root, whatever slashes follow; a root of slashes alone has an empty id |
| Records.PreparedHolds | crates/pqbench/src/mass.rs:238-257 | what a record comes to, from its own fields: skipped when its name is no column's; refused for its table and then for a rate outside (0, 1]; else held with its path, blob, table, class and file facts, and each count times the rate is the record's count (so a weight is the inverse of its rate) |
| Records.NamedIsPlaced | crates/pqbench/src/mass.rs:238-241 | a record named after a column of a blob is placed there |
| Records.FoldsIff | crates/pqbench/src/mass.rs:233-282 | a stream folds exactly when no record of it is refused and no two measure one column of one table in one file |
| Mass.ColumnSummary.AddColumn | crates/pqbench/src/mass.rs:233-282 | the whole new accumulator: the record added once on success, and nothing changed by a skipped, a bad or a duplicate record |
| Mass.ColumnSummary.AddEntry | crates/pqbench/src/mass.rs:252-282 | one checked record is added to its column, its table and its class, or refused as measured twice with nothing changed |
| Mass.FoldSucceedsIff | crates/pqbench/src/mass.rs:233-282 | among otherwise valid records the fold fails, with `Duplicate`, exactly when two share table, column path and blob |
| Mass.FoldPermutes | crates/pqbench/src/mass.rs:233-282 | with one set of facts per file any permutation of a stream that folds gives the same accumulator |
| Mass.FailurePermutes | crates/pqbench/src/mass.rs:233-282 | an otherwise valid stream that holds a duplicate fails, with `Duplicate`, in every order |
| Mass.ColumnIsWeightedSum | crates/pqbench/src/mass.rs:258-280 | a column's bytes and values are the weighted sums over exactly the records that measured it |
| Mass.ClassIsWeightedSum | crates/pqbench/src/mass.rs:258-280 | so are its bytes in each storage class, and a class appears exactly when such a record does |
| Mass.TableClassIsWeightedSum | crates/pqbench/src/mass.rs:258-280 | a table's bytes in each storage class are the weighted sum over exactly its records in that class |
| Mass.ColumnFiles | crates/pqbench/src/mass.rs:258-280 | its files are those records' files, and its uncompressed total is complete exactly when each reported one |
| Mass.TableFiles | crates/pqbench/src/mass.rs:259-263 | a table's files are those its records were measured in, each with the size, class and weight its first record gives |
| Mass.FilesAreWeighted | crates/pqbench/src/mass.rs:258-280 | the weights of a column's files are the weights of the records that measured it |
| Mass.EveryFoldBalances | crates/pqbench/src/mass.rs:258-280 | in every reachable accumulator column bytes are the sum over files, and table class bytes the sum over columns |
| Storage.TableClassCosts | crates/pqbench/src/mass.rs:442-496 | the two loops compute the class costs of a table |
| Storage.ClassCostsIff | crates/pqbench/src/mass.rs:442-496 | a class is costed exactly when it is priced, some S3 file is billed in it and every such file has a size; each tier costs its price for all the class's weighted gibibytes |
| Storage.ClassCostsAre | crates/pqbench/src/mass.rs:442-496 | a class has a cost exactly when it is priced, some file of the table is an `s3` or `s3a` object of it (none meaning `STANDARD`) and each has a size; each tier, in list order, then costs its price for every 2^30 bytes of size times weight |
| Storage.ListPricesAre | crates/pqbench/src/mass.rs:552-578 | the list prices, and that each access tier of intelligent tiering costs what the class it moves an object to costs |
| Storage.ColumnCosts | crates/pqbench/src/mass.rs:501-524 | the loop computes a column's share of every costed class in class order |
| Rows.SharesAddUp | crates/pqbench/src/mass.rs:501-524 | over a balanced table's columns the shares of every tier of a class with positive bytes add up exactly to the table's cost |
| Rows.RowsCarryTheCost | crates/pqbench/src/mass.rs:288-320 | the rows a summary returns carry, for each priced complete class with bytes and each tier, exactly the table's cost |
| Rows.Summarize | crates/pqbench/src/mass.rs:170-182 | the command: fold the stream until the first error, then build, price and round the rows |
| Rows.SummaryIff | crates/pqbench/src/mass.rs:170-371 | a stream has a summary exactly when no record is refused, none repeats another and every estimate rounds to less than 2^64; failing only in the last way is an overflow |
| Rows.SummaryFails | crates/pqbench/src/mass.rs:238-274 | the first record at fault decides the error: its table's name, its rate, or the column and blob it repeats |
| Rows.BuildRows | crates/pqbench/src/mass.rs:288-320 | the loops over tables and columns return the rows in key order or the first overflow |
| Rows.CountFiles | crates/pqbench/src/mass.rs:528-540 | the loop sums the inverse rates of a column's files |
| Rows.SummaryPermutes | crates/pqbench/src/mass.rs:170-182 | with one set of facts per file the rows do not depend on the order of the stream |
| Rows.SummaryIsSorted | crates/pqbench/src/mass.rs:288-320 | one row for each column of each table that some record measures, sorted by table and then by column |
| Rows.RowTotals | crates/pqbench/src/mass.rs:288-320 | from the records of the row's column: the bytes and values they report, each over its rate, and one over the rate for each file, rounded to the nearest; an uncompressed size exactly when each reports one; exactly their storage classes; and quotients that give their numerators back |
| Rows.RowClasses | crates/pqbench/src/mass.rs:288-320 | a row names, in ascending order, exactly the storage classes that records of its column report |
| Rows.RowShares | crates/pqbench/src/mass.rs:501-524 | a row's cost in a class is the table's cost there, times the bytes its column's records report in the class over those of all the table's records, each over its rate |
| Rows.RowPrices | crates/pqbench/src/mass.rs:501-524 | every tier of a row is one of a class it names, at a list price of that class |
| Rows.CostRangeIsTight | crates/pqbench/src/mass.rs:86-107 | a row has a range exactly when it names a class and each class it names has a tier; the range is the least and the greatest sum over a choice of one tier's cost per class, both attained |
| Viz.Fold | crates/pqbench/src/viz/mod.rs:303-389 | the four loops group rows to tables, tables to schemas and catalogs, and build the report |
| Viz.EachTableOnce | crates/pqbench/src/viz/mod.rs:303-344 | every row whose table parses sits under exactly one table of the report, and every table has a row |
| Viz.RowIsPlaced | crates/pqbench/src/viz/mod.rs:303-308 | a row sits below the catalog, schema and table of its table name's three ids, in that order; one whose table does not parse sits nowhere |
| Viz.TableRowIsPlaced | crates/pqbench/src/viz/mod.rs:303-308 | so a row of the table the builder names from a catalog, a schema and a table id |
| Viz.CatalogTotals | crates/pqbench/src/viz/mod.rs:303-389 | a catalog's bytes are min(2^64-1, exact sum of the rows below), despite saturation at every level; its cost and uncompressed size are known exactly when every row below knows them, and are then the sums; its ratio times its bytes is that size |
| Viz.SchemaTotals | crates/pqbench/src/viz/mod.rs:303-389 | the same of every schema, which like the catalog carries the name its ids build |
| Viz.TableTotals | crates/pqbench/src/viz/mod.rs:303-344 | the same of every table's bytes, cost and ratio; its columns are its rows' columns, with their figures, in name order |
| Viz.TableFactsShown | crates/pqbench/src/viz/mod.rs:303-344 | a table shows the greatest file count of its rows and, in order, every storage class they name |
| Viz.AddHolds | crates/pqbench/src/viz/mod.rs:247-265 | adding a part keeps the accumulator at the saturated, absorbing exact sum |
| Viz.TablesAscend | crates/pqbench/src/viz/mod.rs:321-360 | a schema's tables stand in name order |
| Viz.ReportAscends | crates/pqbench/src/viz/mod.rs:350-386 | catalogs stand in name order, and the schemas of each |
| Diff.Summarize | crates/pqbench/src/diff.rs:99-124 | the checked loop returns the totals or the first error in row order |
| Diff.Compare | crates/pqbench/src/diff.rs:57-96 | depth zero is refused, the left side's error wins, and the deltas come in path order |
| Diff.ComparisonHolds | crates/pqbench/src/diff.rs:57-124 | from the rows' fields: one delta, in path order, for each path some row stands at; its bytes and values are the sums of those rows' compressed bytes and value counts on each side, and the delta is right less left |
| Diff.ComparisonFails | crates/pqbench/src/diff.rs:62-66 | a depth of zero is refused, then the left side's error is reported, then the right side's |
| Diff.SummaryIff | crates/pqbench/src/diff.rs:99-124 | a summary succeeds exactly when names parse, none repeats and no rolled-up total reaches 2^64; it then holds the exact sums |
| Diff.SideIff | crates/pqbench/src/diff.rs:99-124 | in terms of the rows: every name a column's, no two alike, and every total below 2^64 |
| Diff.SideFails | crates/pqbench/src/diff.rs:103-123 | the first row at fault decides the error: no column's name, a repeated name, or an overflow |
| Diff.RollIs | crates/pqbench/src/diff.rs:110-113 | at depth d a path becomes its first d dotted pieces, or all of them when it has fewer; without a depth it stays |
| Diff.RollRoll | crates/pqbench/src/diff.rs:110-113 | taking a prefix of a prefix is taking the shorter prefix |
| Diff.FinerSucceeds | crates/pqbench/src/diff.rs:99-124 | success at a coarse depth implies success at every finer one |
| Diff.RollingUp | crates/pqbench/src/diff.rs:57-96 | rolling the finer deltas up gives exactly the comparison at the coarse depth: totals, deltas, percentages and per-value figures |
| Diff.DeltasConserve | crates/pqbench/src/diff.rs:57-96 | at every depth the deltas sum to the right total less the left total |
| Diff.DeltaFigures | crates/pqbench/src/diff.rs:73-92 | the left total changed by the percentage is the right total, and bytes per value times values is bytes; each is present exactly when its divisor is positive |
| Diff.SwapNegates | crates/pqbench/src/diff.rs:57-96 | swapping the inputs negates every delta and swaps the sides |
| Hashing.HashUnit | crates/pqbench/src/file/sample.rs:71-83 | the byte loop and the finalizer compute the unit hash |
| Hashing.UnitIsTopBits | crates/pqbench/src/file/sample.rs:82 | the unit hash times 2^53 is the hash shifted down by 11, and it lies in [0, 1) |
| Hashing.KnownHashes | crates/pqbench/src/file/sample.rs:71-82 | the FNV-1a words and the finalized hashes of the empty name and of `a` |
| Words.ShiftUndoes | crates/pqbench/src/file/sample.rs:77-81 | each shift-xor by 33 undoes itself |
| Hashing.FinalizeIsBijective | crates/pqbench/src/file/sample.rs:77-81 | the finalizer is a bijection of 64-bit words, with its inverse given |
| Hashing.StepInjective | crates/pqbench/src/file/sample.rs:73-76 | an FNV step tells apart both the hashes and the bytes it is given |
| Octets.WidenKeepsValue | crates/pqbench/src/file/sample.rs:74 | a byte widens to the word of the same value |
| Hashing.OneByteApart | crates/pqbench/src/file/sample.rs:68-83 | names that differ in one byte, anywhere, hash to different 64-bit words |
| Sample.ProbabilityIsProportional | crates/pqbench/src/file/sample.rs:14-31 | the rate is the probability at 256 MiB, and below the cap of one the probability is proportional to the size |
| Sample.KeptIff | crates/pqbench/src/file/sample.rs:26-66 | a sizable record is kept exactly when the top 53 bits of its name's hash, over 2^53, lie below the rate times its size over 2^28 bytes (no bound at rate one) and below its own earlier rate |
| Sample.StampIs | crates/pqbench/src/file/sample.rs:60-66 | a kept record changes in its rate alone, which is the least of one, its earlier rate and the stage's rate for its size |
| Sample.FailsIff | crates/pqbench/src/file/sample.rs:48-65 | a stage's rate outside (0, 1] fails on every record, then a missing or zero size, then an earlier rate outside it, and nothing else fails |
| Sample.SelectTwice | crates/pqbench/src/file/sample.rs:26-66 | two stages in a row decide and stamp one record as one stage at the smaller rate |
| Sample.RowsSnoc | crates/pqbench-cli/src/sample/files.rs:54-73 | a stage passes on its kept records, one by one and in order |
| Sample.FailuresSnoc | crates/pqbench-cli/src/sample/files.rs:54-73 | and reports its failures likewise |
| Sample.TwoStages | crates/pqbench-cli/src/sample/files.rs:54-73 | over a stream they also fail on the same records, the second stage on none |
| Sample.StagesCompose | crates/pqbench-cli/src/sample/files.rs:54-73 | any number of valid rates in any order keeps the records, and the sample rates, of one stage at the smallest, and fails on the same records, whatever the records carry |
| Sample.SmallerRateKeepsFewer | crates/pqbench/src/file/sample.rs:26-66 | what a smaller rate keeps a larger rate keeps, with no smaller a probability |
| Sample.RateOneKeepsAll | crates/pqbench/src/file/sample.rs:26-31 | rate one keeps every sizable record not sampled before |
| Selection.SelectFiles | crates/pqbench/src/table/selection.rs:24-80 | the errors in source order, then filter, sort, sample and re-sort of one list |
| Selection.BadPatternFails | crates/pqbench/src/table/selection.rs:25-34 | the first bad pattern is the error, the ones to include before the ones to exclude |
| Selection.SampleIs | crates/pqbench/src/table/selection.rs:35-52 | how the method is read: nothing or `all`; else a colon, a positive 64-bit count, and one of three words, in that order of errors |
| Decimal.ParseU64Iff | crates/pqbench/src/table/selection.rs:42-46 | a count is digits, at least one, after at most one `+`, below 2^64 |
| Selection.SelectionIs | crates/pqbench/src/table/selection.rs:24-80 | with good patterns the selection is what the method keeps of the filtered and sorted files |
| Selection.MethodHolds | crates/pqbench/src/table/selection.rs:62-79 | `first:N` is the first N of them, `every:N` the multiples of N, and `median:N` fails exactly when some size is missing or zero |
| Selection.OrderIsImmaterial | crates/pqbench/src/table/selection.rs:53-80 | with distinct (path, name) pairs the result, or the error, is the same for every permutation of the input |
| Selection.SortedHolds | crates/pqbench/src/table/selection.rs:53-60 | what remains is exactly the files that some include pattern matches, when there is one, no exclude pattern matches, and whose partition values are the ones asked for |
| Selection.MedianIsOptimal | crates/pqbench/src/table/selection.rs:64-77 | every kept file's (distance to the lower median, path, name) is below every dropped file's, and it lies within every distance of the median that a dropped one does; as many are kept as asked for; the output is in path order |
| Selection.MedianNests | crates/pqbench/src/table/selection.rs:64-77 | `median:n` is contained in `median:n+1` |
| Selection.MedianIsInTheMiddle | crates/pqbench/src/table/selection.rs:70-72 | the lower median: the sizes up to the middle rank are no larger, those from it on no smaller |
| Selection.StepsAre | crates/pqbench/src/table/selection.rs:63 | `every:N` keeps exactly the files at the multiples of N |
| Selection.SelectionIsSorted | crates/pqbench/src/table/selection.rs:24-80 | whatever the method, the output is in path order, and files of one path in name order |
| Selection.SampleReads | crates/pqbench/src/table/selection.rs:35-52 | `first:N`, `every:N` and `median:N` read back for every N that fits |
| RateLimit.IntervalIsNearest | crates/pqbench/src/ratelimit.rs:23-34 | the interval is the whole number of nanoseconds nearest a second over the rate, the even one between two, and none at a rate of zero |
| RateLimit.RateLimit.Delay | crates/pqbench/src/ratelimit.rs:39-47 | the wait ends at the kind's slot, and only that kind's next slot moves, one interval past it |
| RateLimit.RateLimit.Pace | crates/pqbench/src/ratelimit.rs:39-47 | the waits of a whole run are the slots of the run's specification |
| RateLimit.KindsAreIndependent | crates/pqbench/src/ratelimit.rs:36-47 | a mixed run projected on one kind is that kind run alone |
| RateLimit.SlotsAreServed | crates/pqbench/src/ratelimit.rs:39-47 | a kind's slots in a mixed run follow from its own arrivals |
| RateLimit.SlotIsMaximum | crates/pqbench/src/ratelimit.rs:39-47 | the k-th slot is the maximum over j <= k of arrival j plus k - j intervals |
| RateLimit.SlotsAreSpaced | crates/pqbench/src/ratelimit.rs:39-47 | slots a and b are at least b - a intervals apart |
| RateLimit.PacingIsOptimal | crates/pqbench/src/ratelimit.rs:39-47 | the pacing obeys the arrivals and the gap, and no schedule that does serves any record earlier |
| RateLimit.WindowHolds | crates/pqbench/src/ratelimit.rs:39-47 | any window of n intervals holds at most n slots |
| RateLimit.PerSecondIff | crates/pqbench/src/ratelimit.rs:1-6 | for every rate, whole or not, and every limit: at most that many a second holds of every run exactly when that many rounded intervals reach a second |
| RateLimit.ThreeASecondSlips | crates/pqbench/src/ratelimit.rs:24-34 | it fails at three a second, whose interval rounds down |
| RateLimit.ExactRatesHold | crates/pqbench/src/ratelimit.rs:24-34 | it holds at every whole rate that divides a second into whole nanoseconds |
| RateLimit.DefaultRateHolds | crates/pqbench/src/ratelimit.rs:12 | it holds at the default rate |
| RateLimit.OffNeverWaits | crates/pqbench/src/ratelimit.rs:23-34 | a rate of zero never makes a record wait under a clock that does not run backwards |
| Footer.ReadRemote | crates/pqbench/src/bytemass/remote.rs:29-65 | the two-request read, with its checks in source order; over a reader that serves an object it returns that object's own footer, or its error |
| Footer.WindowIsImmaterial | crates/pqbench/src/bytemass/remote.rs:29-124 | for every window of at least the trailer, and every object, the bytes or the error are those of cutting the footer from the whole object |
| Footer.FooterIsCut | crates/pqbench/src/bytemass/remote.rs:84-124 | an object that ends in its metadata, its length in four bytes from the least and `PAR1` has just those for its footer |
| Footer.BadFooters | crates/pqbench/src/bytemass/remote.rs:84-124 | too short, no magic, or shorter than the trailer says: each is refused with its own error |
| Footer.AcceptedIsWhole | crates/pqbench/src/bytemass/remote.rs:57-63 | whatever a reader returns, an accepted footer ends in the magic and is as long as its own trailer says |
| Collection.GroupChunks | crates/pqbench/src/bytemass/collection.rs:39-67 | the loop over chunks keeps the index and the two lists of the specification |
| Collection.GroupHolds | crates/pqbench/src/bytemass/collection.rs:39-67 | columns come in first-seen order with the first chunk's facts, and the parallel list holds exactly that column's chunks |
| Collection.FiguresAdd | crates/pqbench/src/bytemass/collection.rs:71-73 | one more chunk adds its compressed bytes, its uncompressed bytes and its values to the three totals |
| Collection.GroupConserves | crates/pqbench/src/bytemass/collection.rs:39-67 | the groups hold all the bytes and values of the chunks, none twice |
| Collection.ListColumns | crates/pqbench/src/bytemass/collection.rs:39-68 | a name that is no blob's is refused; otherwise there is one column to each path, in first-seen order, with the name, place, type and levels of the source and measured over exactly that path's chunks |
| Collection.LeavesConserve | crates/pqbench/src/bytemass/collection.rs:39-74 | the compressed bytes, uncompressed bytes and values of a blob's columns sum to those of its chunks |
| Collection.LeavesAreNamed | crates/pqbench/src/bytemass/collection.rs:51 | each column's name reads back to its blob and path, and no two columns of a blob share one |
| Collection.Measure | crates/pqbench/src/bytemass/collection.rs:70-109 | totals, unions and known sums are over all the chunks of the column, dictionary bytes over those with a dictionary page, and codec, bounds and ratios exist as the source has it |
| Collection.PartsAre | crates/pqbench/src/bytemass/collection.rs:77-84 | which count each known sum reads of a chunk, and that dictionary bytes are read of chunks with a dictionary page alone |
| Collection.MeasuredOnce | crates/pqbench/src/bytemass/collection.rs:70-118 | those facts fix the measurement: there is no other |
| Collection.MassFigures | crates/pqbench/src/bytemass/collection.rs:103-108 | each ratio exists exactly when its divisor is positive and gives its numerator back, an unknown numerator counting as zero; a column without dictionary pages has no dictionary bytes and a fraction of zero |
| Collection.KnownSum | crates/pqbench/src/bytemass/collection.rs:151-159 | known exactly when there are parts, every one is known and the total fits in 64 bits |
| Collection.SumOfSnoc | crates/pqbench/src/bytemass/collection.rs:151-159 | one more part adds its value, or makes the sum unknown when it is unknown or the total reaches 2^64 |
| Collection.KnownUnion | crates/pqbench/src/bytemass/collection.rs:130-149 | the first-seen union when every chunk reports a set and the union is not empty |
| Collection.UnionAll | crates/pqbench/src/bytemass/collection.rs:121-149 | the loop over the sets gives their first-seen union |
| Collection.UnionHolds | crates/pqbench/src/bytemass/collection.rs:121-149 | the union repeats nothing, holds exactly what some set holds and only grows at the end |
| Profile.RunStats | crates/pqbench/src/profile.rs:323-351 | equal adjacent pairs over all pairs, cells over runs, and a longest run that no stretch of equal cells exceeds and one attains |
| Profile.PercentileIsNearestRank | crates/pqbench/src/profile.rs:315-318 | at least that fraction of the values are no larger, and less than that fraction are smaller |
| Profile.CountValues | crates/pqbench/src/profile.rs:159-162 | the counts are the multiplicities |
| Profile.HashOrderIsImmaterial | crates/pqbench/src/profile.rs:264-271 | the ranking is the same whatever order the hash map iterates in |
| Profile.TopValues | crates/pqbench/src/profile.rs:264-278 | the ranked counts, cut to the requested number |
| Profile.TopHolds | crates/pqbench/src/profile.rs:264-278 | the top values are counted values, as many as asked for or as there are, by descending count and then ascending value |
| Profile.TopOutranks | crates/pqbench/src/profile.rs:264-278 | every value left out has no greater a count than any kept, and where the counts are equal no smaller a value |
| Docs.Directory.WriteAll | crates/docscheck-cli/src/main.rs:317-335 | the directory's whole new contents after a sync |
| Docs.SyncLeaves | crates/docscheck-cli/src/main.rs:317-340 | name by name: a generated file as last generated, `gen_support.rs` with the support text, no other `gen_*.rs`, and every other file as it was |
| Docs.Directory.CheckFreshness | crates/docscheck-cli/src/main.rs:343-370 | the reported names are exactly the stale ones |
| Docs.StaleIff | crates/docscheck-cli/src/main.rs:343-378 | stale is: to be written and missing or different, the support file included, or a `gen_*.rs` that a sync would remove |
| Docs.GenerateAll | crates/docscheck-cli/src/main.rs:232-258 | one file for each output name, sorted, and the aggregate after them |
| Docs.GeneratedHolds | crates/docscheck-cli/src/main.rs:232-258 | in name order one file for each output name, from the first document with a test that gives it, and the aggregate behind them when there is any |
| Docs.OutputNameIs | crates/docscheck-cli/src/main.rs:298-310 | the output name is `gen_`, the squeezed path without underscores at its ends, and `.rs` |
| Docs.SqueezedSnoc | crates/docscheck-cli/src/main.rs:304-309 | squeezing keeps ASCII letters and digits and makes any other character one underscore, however many bytes it has |
| Docs.DocumentStarts | crates/docscheck/src/generate.rs:37-55 | a document's file opens by naming the document it is generated from |
| Docs.BuildAggregate | crates/docscheck-cli/src/main.rs:264-291 | the aggregate declares a module for each file under a name no other has |
| Docs.DeclaredAs | crates/docscheck-cli/src/main.rs:284-289 | the lines the aggregate adds for one more file |
| Docs.ModuleOf | crates/docscheck-cli/src/main.rs:274-283 | its module is its name without the ending in lower case, or that with the least free number |
| Docs.StemIs | crates/docscheck-cli/src/main.rs:274-275 | the ending cut off is `.rs` |
| Docs.LowerAllAt | crates/docscheck-cli/src/main.rs:276 | ASCII capitals become small letters, and nothing else changes |
| Docs.SyncIsIdempotent | crates/docscheck-cli/src/main.rs:317-335 | a second sync changes nothing, for any list of generated files |
| Docs.SyncKeepsTheRest | crates/docscheck-cli/src/main.rs:317-340 | a sync never touches a file that does not start with `gen_` or does not end with `.rs` |
| Docs.CheckIff | crates/docscheck-cli/src/main.rs:343-378 | a check passes exactly when a sync would change nothing and no name is given two contents |
| Docs.CheckDocuments | crates/docscheck-cli/src/main.rs:232-378 | for the files of any documents: exactly when a sync would change nothing and no document with tests maps to `gen_all.rs` or `gen_support.rs` |
| Docs.CheckAfterSync | crates/docscheck-cli/src/main.rs:317-378 | a check straight after a sync passes exactly when no name is given two contents |
| Docs.AllDocumentNeverPasses | crates/docscheck-cli/src/main.rs:248-256 | a document `all.md` with a test: the check never passes, whatever the directory holds |
| Docs.ModulesAreDistinct | crates/docscheck-cli/src/main.rs:271-283 | module names are pairwise distinct |
| Docs.TestsAreDistinct | crates/docscheck/src/generate.rs:26-35 | test names are pairwise distinct |
| Generate.NameTests | crates/docscheck/src/generate.rs:26-35 | the loop over blocks names each runnable one, never twice the same |
| Generate.BlockIsNamed | crates/docscheck/src/generate.rs:26-35 | a block that runs is named after its heading's words, or `line_` and its line when it has none, or that with the least free number from 2 on; another is no test |
| Generate.FindName | crates/docscheck/src/generate.rs:59-76 | the unbounded suffix search ends, with the least free suffix |
| Generate.NamesAreDistinct | crates/docscheck/src/generate.rs:59-76 | names from any list of bases are distinct; a base keeps its spelling until an earlier name takes it, and then gets the least free number from 2 on |
| Generate.MakeSlug | crates/docscheck/src/generate.rs:80-93 | the character loop computes the slug |
| Generate.SlugJoinsWords | crates/docscheck/src/generate.rs:80-93 | a slug is its text's maximal runs of letters and digits, in lower case, joined by underscores |
| Generate.SlugIsWords | crates/docscheck/src/generate.rs:80-93 | a slug is lower-case words joined by single underscores |
| Generate.SlugIdempotent | crates/docscheck/src/generate.rs:80-93 | a slug is its own slug |
| Generate.PopIs | crates/docscheck/src/generate.rs:50-54 | trimming takes newlines from the end alone, until no blank line is left there |
| Generate.PopKeeps | crates/docscheck/src/generate.rs:50-54 | trimming the blank line at the end never reaches past the last character that is not a newline |

## Left out

- Rounding, infinities and NaN of `f64`: real arithmetic throughout, so the finiteness checks of the column fold, the
  underflow branch of the sampler and the value order of `profile` number columns have no counterpart or never fire.
- Panics of tasks, failed writes of the sink, and the panic of `drive`'s serializer: no model of an abort.
- Overflow of `Instant` and of `Duration::from_secs_f64`, of the `i32` suffix in `unique_name`, and of the unchecked
  sums of chunk bytes.
- RateLimit.Interval: the quotient is rounded once, from the exact one; the `f64` division before it is not modelled.
- Octets.Widen: spelled bit by bit, where the code converts.
- Hashing.Top: the shifted word passes through a 53-bit one on its way to a number, which loses no bit.
- `--last` of the window flags: a number, a unit and the clock; it adds only easy members.
- The walk over directories that finds the files to lint or to generate from, and the Markdown and tree-sitter parsers.
- Docs.DocumentText: the text after the document's name is an arbitrary rendering, so the order of its lines is not
  stated; so is the aggregate's introduction after its first line.
- Docs.Directory: subdirectories and unreadable entries, which make a sync fail with an I/O error, are not modelled; nor
  are file names that are not UTF-8.
- Docs.OutputName: takes the document's relative path without its extension; cutting those off is the path library's.
- Collection.Leaf: the storage facts of the blob around its columns (size, storage class, counts) are copied and not
  modelled.
- Profile.RunStats: `bounds`, `monotonic`, entropy, kinds and length means of a profile are not modelled.
- Footer.Reader: the size comes as a parameter and not from a HEAD request, and the identity that ties the two reads to one
  version of the object is not modelled.
- Viz.Report: the page title, the HTML and JSON rendering.
- `map` of the stream combinators: it is `filter_map` of parents that all keep a record.
- Naming rules and word morphology, codecs, benchmarks, credentials, catalogs, the network and Parquet decoding.
- Configuration, command-line arguments, help text, table rendering and the coverage line of `sample files`.
