# Regex hit-rate auditor, modelled in Dafny

`scripts/verify_patterns.py` audits a dataset against the column patterns declared in
its schema. It reads the schema's tables and their columns and keeps every column whose
pattern is a usable regular expression. For each table it then scans the table's CSV file
and counts, per column, the non-null cells (`total_non_empty`), the cells whose stripped
value fully matches the pattern (`matches`) and the rest (`mismatches`). It emits one
record per column with `hit_rate = matches / total_non_empty`, or 0.0 when nothing was
counted.

This project models that core as pure functions over immutable data.

- `Nulls`: the null classifier `is_effectively_null` and `STRICT_NULL_TOKENS`.
- `Text`: the two string operations applied to cells, `str.strip()` and `str.upper()`.
- `OrderedMaps`: Python's insertion-ordered `dict`. Assigning to an existing key replaces
  its value in place; a new key goes last.
- `Schema`, `PatternCompiler`: the typed schema and `compile_patterns`, with
  last-duplicate-wins for both column and table names.
- `Counting`: the per-column counter fold of `scan_table` (`Counts`, `Tally`,
  `ColumnCounts`) and the hit rate.
- `Scanner`: `scan_table` in two forms.
  - `Scan` states the result column by column.
  - `ScanTable` is a method with the source's loop structure: rows outside, active
    columns inside, a mutable counter per active column, then the freeze back into the
    result. It is proved equal to `Scan`.
- `Report`: the main loop that turns the pattern map and the scans into result records.
- `Scenarios`: the whole pipeline on concrete examples.
  - A schema with table `T` and column `id` with pattern `^[0-9]{3}$`.
  - `T.csv` with rows `123`, `12a` and a blank cell, which gives (2, 1, 1) and a hit
    rate of 0.5.
  - A `NULL` cell, counted as a mismatch normally and not counted with strict nulls.

The regular-expression engine is a parameter, `Regex.Engine(compiles, fullMatch)`, so
every property holds for any engine whose compile step either succeeds or raises
`re.error`; other exceptions are listed under "Left out". The data file of a table is a parameter as well:
`Scanner.DataFile`, either `Missing` or `Csv(records)`, where the first record is the
header. `Csv([])` is a file that has no header at all.

Behaviour of the script that a reader might not expect, and that the model keeps:

- Tables without a name are not skipped. `compile_patterns` looks the name up with a
  default of `None` and stores such a table under that key (scripts/verify_patterns.py:50
  and 67). Table keys are therefore `Option<string>`.
- A column without a name is skipped silently. The only warning is for a pattern that
  does not compile.
- Column names need not be unique within a table. The last qualifying column of a name
  decides the name's pattern, and the name keeps the position of its first qualifying
  column.
- A header with a repeated name counts that column at its last position
  (scripts/verify_patterns.py:103).

## Model

| member | source | states |
|---|---|---|
| Nulls.IsEffectivelyNull | scripts/verify_patterns.py:71-76 | The empty value is null in both modes; without strict nulls a value is null exactly when it is empty |
| Nulls.StrictNullsCharacterized | scripts/verify_patterns.py:74-76 | In strict mode a value is null exactly when it is empty or spells NULL, NA, NAN or NONE with each letter in either case; so no null value is longer than four characters |
| Text.Upper | scripts/verify_patterns.py:74 | `value.upper()`, letter by letter; its meaning for the null test is `Nulls.SentinelIsCaseInsensitive` (ASCII only, see "Left out") |
| Nulls.SentinelIsCaseInsensitive | scripts/verify_patterns.py:74 | `value.upper() in STRICT_NULL_TOKENS` holds exactly when the value is a letter-case variant of one of the four tokens |
| Nulls.UpperMatchesCaseVariant | scripts/verify_patterns.py:74 | Upper-casing a value gives an upper-case word exactly when the value is a case variant of that word |
| Nulls.LenientNullExamples | scripts/verify_patterns.py:71-76 | Without strict nulls "" is null while "NA", "na" and "NULL" are not |
| Nulls.StrictNullExamples | scripts/verify_patterns.py:71-76 | With strict nulls "", "NA", "na", "nOnE" and "Nan" are null while "N/A" and "NUL" are not |
| Nulls.BlankCellIsNull | scripts/verify_patterns.py:124-125 | Every all-whitespace cell is null once stripped, in either mode; without strict nulls a stripped cell is null exactly when the cell is all whitespace |
| Text.Strip | scripts/verify_patterns.py:124 | `raw.strip()` over the code points Python's `isspace` accepts; characterised by the four Strip lemmas below |
| Text.StripIsLongestTrimmedInfix | scripts/verify_patterns.py:124 | The stripped value is an infix of the cell, everything cut on either side is whitespace, and the result neither starts nor ends with whitespace |
| Text.StripEmptyIffAllSpace | scripts/verify_patterns.py:124 | A cell strips to the empty string exactly when it is all whitespace |
| Text.StripTrimmed | scripts/verify_patterns.py:124 | A value with no whitespace at either end is left unchanged by stripping |
| Text.StripIdempotent | scripts/verify_patterns.py:124 | Stripping twice is stripping once |
| OrderedMaps.PutAll | scripts/verify_patterns.py:53-67 | The assignment loops `col_map[cname] = ...` and `compiled[tname] = col_map`; characterised by the four PutAll lemmas below |
| OrderedMaps.Put | scripts/verify_patterns.py:60 | `d[k] = v` stores v under k, leaves other keys' values alone, keeps an existing key's position and appends a new key |
| OrderedMaps.PutAllKeys | scripts/verify_patterns.py:53-60 | After the assignment loop, a key is present exactly when some element produced it |
| OrderedMaps.PutAllValues | scripts/verify_patterns.py:53-60 | Every stored value is a value some element produced for that key |
| OrderedMaps.PutAllLastWins | scripts/verify_patterns.py:60 | The last element producing a key decides its value |
| OrderedMaps.PutAllOrder | scripts/verify_patterns.py:53-60 | Keys are listed in the order of the first element producing each |
| PatternCompiler.CompileColumns | scripts/verify_patterns.py:52-60 | Every kept column has a non-empty name and a non-empty pattern that compiles, and the map lists each name once |
| PatternCompiler.CompileColumnsKeys | scripts/verify_patterns.py:53-60 | A name is kept exactly when some column of that name has a non-empty string pattern that compiles |
| PatternCompiler.CompileColumnsLastWins | scripts/verify_patterns.py:60 | The last qualifying column of a name decides that name's pattern |
| PatternCompiler.CompileColumnsOrder | scripts/verify_patterns.py:52-60 | Column names are listed in the order of their first qualifying column |
| PatternCompiler.HasPatternsIffSomeColumnQualifies | scripts/verify_patterns.py:66 | A table contributes exactly when at least one of its columns qualifies |
| PatternCompiler.CompilePatterns | scripts/verify_patterns.py:43-68 | Every table in the result holds a non-empty column map, and every pattern in it is non-empty and compiles under a non-empty column name |
| PatternCompiler.CompilePatternsKeys | scripts/verify_patterns.py:49-67 | A table name is a key exactly when some table of that name has a qualifying column |
| PatternCompiler.CompilePatternsLastWins | scripts/verify_patterns.py:66-67 | The last contributing table of a name decides that name's column map; a later table of the same name with no usable pattern replaces nothing |
| PatternCompiler.CompilePatternsOrder | scripts/verify_patterns.py:48-67 | Table names are listed in the order of their first contributing table |
| Counting.Tally | scripts/verify_patterns.py:127-132 | One counted or skipped cell; characterised by `Counting.CountedRowEffect` and `Counting.SkippedRowNoEffect` |
| Counting.TallyAll | scripts/verify_patterns.py:127-132 | Folding cell values keeps total == matches + mismatches and counts at most one per value |
| Counting.ColumnCounts | scripts/verify_patterns.py:118-132 | A column's counters satisfy total == matches + mismatches and total is at most the number of rows |
| Counting.ColumnCountsSnoc | scripts/verify_patterns.py:118-132 | Scanning one more row is one more step of the fold |
| Counting.TallyAllCharacterized | scripts/verify_patterns.py:127-132 | The fold's total is the number of present values and its matches the number of present values the pattern fully matches |
| Counting.ColumnCountsCharacterized | scripts/verify_patterns.py:120-132 | total counts exactly the rows whose cell is counted, matches exactly those that also fully match, mismatches exactly the counted rows that do not |
| Counting.TallyAllAppend | scripts/verify_patterns.py:118-132 | Folding two blocks of values one after the other adds up their separate counters |
| Counting.ColumnCountsAppend | scripts/verify_patterns.py:118-132 | Scanning two blocks of rows one after the other adds up their separate counters |
| Counting.ColumnCountsSwap | scripts/verify_patterns.py:118-132 | The counters do not depend on the order of two blocks of rows |
| Counting.SkippedRowNoEffect | scripts/verify_patterns.py:121-126 | A row too short for the column, or whose stripped cell is null, changes no counter wherever it stands |
| Counting.CountedRowEffect | scripts/verify_patterns.py:127-132 | A counted cell adds one to total and one to matches if the pattern fully matches the stripped value, else one to mismatches |
| Counting.HitRate | scripts/verify_patterns.py:193 | `matches / total`, or 0.0 without values; characterised by `Counting.HitRateIsShareOfMatches` |
| Counting.HitRateIsShareOfMatches | scripts/verify_patterns.py:193 | The hit rate is 0 when nothing was counted, otherwise it times total equals matches, so it lies in [0, 1] |
| Scanner.HeaderIndex | scripts/verify_patterns.py:103 | A name is indexed exactly when the header has it, and its index is its last position in the header |
| Scanner.ActiveColumns | scripts/verify_patterns.py:106-110 | The active columns are exactly the declared columns the header names, each with its header index and pattern, and no two have the same name |
| Scanner.Scan | scripts/verify_patterns.py:89-139 | One entry per declared column in declaration order, each with total == matches + mismatches; a missing file or a file with no header row leaves all of them at zero |
| Scanner.ScanAbsentColumnZero | scripts/verify_patterns.py:105-113 | A declared column that the header does not name keeps (0, 0, 0) |
| Scanner.ScanTotalBound | scripts/verify_patterns.py:118-128 | No column counts more values than there are data rows |
| Scanner.ScanCountsLastHeaderPosition | scripts/verify_patterns.py:103-132 | A declared column that the header names is counted over every data row at the last header position with its name |
| Scanner.UpdateCell | scripts/verify_patterns.py:120-132 | One cell step skips a short row or a null stripped value, else adds one to total and to matches or mismatches by full match |
| Scanner.ScanRow | scripts/verify_patterns.py:120-132 | After one more row every active column's counters are its counters over the rows so far |
| Scanner.ScanRows | scripts/verify_patterns.py:116-132 | After the row loop every active column's counters are its counters over all data rows |
| Scanner.Freeze | scripts/verify_patterns.py:134-137 | Freezing overwrites exactly the active columns' entries and keeps every key's position |
| Scanner.ScanTable | scripts/verify_patterns.py:79-139 | The loop-based scan returns exactly the column-wise result `Scan` |
| Scanner.NoActiveColumnIsZero | scripts/verify_patterns.py:111-113 | When no declared column is in the header, the all-zero counters are the result |
| Scanner.FrozenIsScan | scripts/verify_patterns.py:134-139 | The frozen counters of the active columns, with zeros elsewhere, are the result |
| Report.TableRecordsMembers | scripts/verify_patterns.py:190-205 | The records of a table are exactly the records of its columns |
| Report.RecordsOfTable | scripts/verify_patterns.py:187-205 | The records of a table are exactly the expected records of the columns in its pattern map |
| Report.FlattenMembers | scripts/verify_patterns.py:187-205 | A record is in the output exactly when it is among the records of one of the tables |
| Report.FlattenContains | scripts/verify_patterns.py:187-205 | Every record of every table is in the output |
| Report.FlattenOne | scripts/verify_patterns.py:187-205 | With a single table the output is that table's records |
| Report.Report | scripts/verify_patterns.py:187-205 | The main loop: the tables in pattern-map order, each table's records in column order; characterised by `Report.ReportSound`, `Report.ReportComplete` and `Report.ReportLength` |
| Report.ReportLength | scripts/verify_patterns.py:187-205 | The output has exactly one record per column of every table of the pattern map |
| Report.ReportOneTable | scripts/verify_patterns.py:187-205 | A pattern map with one table reports exactly that table's records |
| Report.ReportSound | scripts/verify_patterns.py:187-205 | Every record belongs to a column of the pattern map and carries that column's pattern and scan counters |
| Report.ReportComplete | scripts/verify_patterns.py:187-205 | Every column of every table of the pattern map has its record, including columns whose file or header entry is missing |
| Report.RecordHitRate | scripts/verify_patterns.py:193 | A record built from consistent counters has total == matches + mismatches and a hit rate that is the share of matches, 0 without values, in [0, 1] |
| Report.ReportHitRates | scripts/verify_patterns.py:190-203 | Every record of the report has consistent counters and a hit rate that is its share of matches, within [0, 1] |
| Scenarios.SampleColumns | scripts/verify_patterns.py:53-60 | The column `id` with pattern `^[0-9]{3}$` survives compilation |
| Scenarios.SampleCompiles | scripts/verify_patterns.py:43-68 | The one-table sample schema compiles to table `T` with column `id` |
| Scenarios.SampleStrips | scripts/verify_patterns.py:124 | The sample cells have no surrounding whitespace to strip |
| Scenarios.SampleCells | scripts/verify_patterns.py:120-126 | The sample rows give the values `123`, `12a` and nothing for the blank cell; `NULL` is nothing in strict mode and a value otherwise |
| Scenarios.SampleTallies | scripts/verify_patterns.py:127-132 | `123` matches and `12a` does not, so the sample counts are (2, 1, 1); with a strict `NULL` they are (1, 1, 0) |
| Scenarios.SampleScan | scripts/verify_patterns.py:79-139 | Scanning the sample file gives (2, 1, 1) for `id` and a hit rate of 0.5 |
| Scenarios.SentinelScan | scripts/verify_patterns.py:120-132 | A `NULL` cell is not counted with strict nulls and is a mismatch without them |
| Scenarios.SampleTableRecords | scripts/verify_patterns.py:190-205 | Table `T` reports one record for `id` with counters (2, 1, 1) and hit rate 0.5 |
| Scenarios.SampleReportOf | scripts/verify_patterns.py:187-205 | The report over the compiled sample map is that single record |
| Scenarios.SampleReport | scripts/verify_patterns.py:184-205 | Compiling the sample schema and reporting on the sample dataset gives the single record for `T.id` |

## Left out

- Command-line handling is not modelled: argparse, default paths, and the exit code 2 for a missing schema or dataset directory (scripts/verify_patterns.py:142-181). This is plumbing around the core.
- File I/O is not modelled: the existence check, opening files, and `csv.reader` quoting and tokenising.
  - A data file is a `DataFile` value and the dataset is a function from table key to `DataFile`.
  - The path `<dataset>/<table>.csv` is not modelled, and neither is the `None.csv` that an unnamed table leads to.
- `json.load` of the schema is not modelled. The schema is the typed `Schema.Document`: names are strings or absent (`None`), and a pattern that is missing or not a string is `None`, which the script skips like a missing one (scripts/verify_patterns.py:56).
  - A schema whose `tables` or `columns` value is not a list, or whose top level or list elements are not JSON objects, generally makes the loop or `.get` raise `TypeError` or `AttributeError`, which ends the run without a report. The typed schema has no such documents.
- PatternCompiler.CompileColumns: column names that are JSON numbers, booleans, lists or objects are not modelled.
  - Python keeps a truthy number or boolean name as a key of its own (scripts/verify_patterns.py:55-60). Such a name never equals a header name, so its column reports zeros.
  - A list or object name with a compiling pattern makes `col_map[cname] = ...` raise `TypeError` (unhashable key). Nothing catches it, so the run ends without a report.
- PatternCompiler.CompilePatterns: table names that are JSON numbers, booleans, lists or objects are not modelled.
  - Python keeps a number or boolean name such as `5` as a key of its own and reads `5.csv` (scripts/verify_patterns.py:50 and 67). That key is neither a string key nor the `None` key of an unnamed table, so the model has no counterpart for it.
  - A list or object name of a table with a usable column raises `TypeError` at scripts/verify_patterns.py:67, uncaught, and the run ends without a report.
- PatternCompiler.CompileColumnsKeys: `re.compile` can raise exceptions other than `re.error`, for instance `OverflowError` for a repeat count such as `a{4294967296}` or `RecursionError` for a pattern nested thousands of groups deep. Only `re.error` is caught (scripts/verify_patterns.py:58-61), so such a pattern ends the run without a report instead of being dropped. `Regex.Engine.compiles` has only the two outcomes "compiles" and "raises `re.error`", so the promise that a non-compiling column is dropped covers only the second.
- The `re` engine is not modelled. Compiling and full matching are the fields of `Regex.Engine`, and the properties hold for every engine whose compile step succeeds or raises `re.error`.
- The warning printed for an invalid pattern (scripts/verify_patterns.py:62-65) is not modelled. It only writes to stderr.
- Output is not modelled: float formatting `:.6f`, the TSV and JSON serialisation, and the stdout writes (scripts/verify_patterns.py:207-241). The model stops at the list of records.
- Counting.HitRate: computed as an exact `real`, whereas Python's float division rounds. The bounds and the zero case are the same.
- Text.Upper: only ASCII letters are upper-cased, not Python's full Unicode `str.upper()`.
  - This does not change which values count as null. In the Unicode case tables, only four non-ASCII characters upper-case to text containing one of the letters A, E, L, N, O, U that spell the sentinels: U+0149, U+1E9A, U+FB02 and U+FB04.
  - Each of the four also produces a character outside those letters (ʼ, ʾ or F).
  - This argument is outside the model.
- `isinstance(raw, str)` (scripts/verify_patterns.py:124) has no separate branch, because `csv.reader` always yields strings.
