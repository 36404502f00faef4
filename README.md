# A verified model of the CSV→PostgreSQL loaders of Piscine-Data-Science

The repository loads e-commerce event CSV files into PostgreSQL, in several
revisions. Each revision:

- finds the CSV files of a directory (`LoadFromDir`);
- describes each file (`CSVInfo`);
- builds the `CREATE TABLE` statement from a fixed column→type map;
- loads each file with `COPY ... FROM STDIN`.

On the database it also:

- merges tables with `CREATE TABLE ... AS (SELECT ... UNION ALL ...)`;
- removes near-duplicate events that lie within one second of each other;
- joins a second table's columns into the first with `ALTER TABLE ... ADD COLUMN` and `UPDATE ... FROM`.

A separate script summarises prices for a box plot.

| revision | files | Dafny modules |
|---|---|---|
| warehouse | `data-science-1/ex03/warehouse/{database_modifier,database_connection,load_from_dir}.py` | `WarehouseModifier`, `WarehouseLoader` |
| data-science-1 | `data-science-1/ex03/{database_modifier,database_connection,csv_info}.py` | `Ds1Modifier`, `CsvInfo` |
| data-science-0 ex04 | `data-science-0/ex04/{database_modifier,table_creator,load_from_dir}.py` | `Ds0Ex04Modifier`, `TableCreator`, `Ds0Ex04Loader` |
| data-science-0 ex03 | `data-science-0/ex03/database.py` | `Ds0Ex03Database` |
| data-science-0 ex02 | `data-science-0/ex02/load_from_dir.py` | `Ds0Ex02Loader` |
| data-science-2 ex02 | `data-science-2/ex02/mustache.py` | `Mustache` |

The revisions share these modules:

- `Text`: Python's `rstrip(chars)`, `split('.')[0]`, `os.path.basename`, `", ".join`, and decimal rendering.
- `Ddl`: the SQL text builders, parameterised by a revision's type map.
- `Discovery`: directory discovery.
- `Outcomes`: the Python exceptions, as values.
- `Store`: a model of the database.

`Store.Store` is a class with two fields:

- `tables`: a map from names to tables, each with its columns and its rows;
- `sent`: the data-changing statements in the order they were sent.

Each kind of statement has an effect function on the tables (`TruncateEffect`,
`CreateAsEffect`, `DeleteEffect`, `AddColumnEffect`, `UpdateEffect`,
`DropEffect`). The store's methods apply that function and log the statement.
A rejected statement leaves the tables unchanged. Every method keeps the
invariant `ValidTables`: within each table the row ids (PostgreSQL's `ctid`)
are distinct, which the near-duplicate DELETE's `a.ctid <> b.ctid` relies on.
The modifiers are classes
that hold the store and send their statements through it. Module `StoreLaws`
proves what those effects mean. Module `Revisions` relates the four column→type
maps to one another.

The repository's prose description and its code disagree in several places. The model follows the code:

- The near-duplicate `DELETE FROM t AS a WHERE EXISTS (SELECT 1 FROM t as b ...)
  RETURNING *` statement deletes BOTH rows of a near-duplicate pair, not one of them (`StoreLaws.PairBothDeleted`).
- Merging does not validate the schemas of the merged tables. A mismatch
  is rejected by the database, and then nothing is created
  (`StoreLaws.MergeRejectedCreatesNothing`).
- The warehouse `table_exists` answers True for every name, so the merge
  always sends `TRUNCATE` (`WarehouseModifier.TableExistsAlwaysTrue`).
- The warehouse `create_tables_from_csv` names the table after the whole file
  name, extension included (finding 3 below).

## Model

| member | source | states |
|---|---|---|
| Text.RStrip | data-science-1/ex03/warehouse/database_modifier.py:62 | `str.rstrip(chars)`: the result is a prefix of the input, every removed character is in the set, and the result is empty or ends outside the set |
| Text.Stem | data-science-1/ex03/warehouse/database_modifier.py:77 | `split(".")[0]`: a prefix without '.', ending where the input ends or at its first '.' |
| Text.Basename | data-science-1/ex03/csv_info.py:20 | `split("/")[-1]`: a suffix without '/', starting at the input's start or just after its last '/' |
| Text.DecimalRoundTrip | data-science-1/ex03/database_modifier.py:163 | the decimal text interpolated for `LIMIT` and `OFFSET` reads back as the same number, and it is non-empty digits with no leading zero |
| Ddl.ColumnDefs | data-science-1/ex03/warehouse/database_modifier.py:59-61 | the column definitions succeed exactly when every column is in the type map; each definition is "<column> <type>"; otherwise the KeyError names the first unmapped column |
| Ddl.ColumnDefsPrefixErr | data-science-1/ex03/warehouse/database_modifier.py:59-61 | once a prefix of the columns has an unmapped column, the remaining columns do not change the KeyError |
| Ddl.CreateSqlShape | data-science-1/ex03/warehouse/database_modifier.py:57-64 | with a type map whose types end in neither ',' nor ' ', the `rstrip(', ')` statement is "CREATE TABLE IF NOT EXISTS t (" + definitions joined by ", " + ")"; it fails iff some column is unmapped |
| Ddl.BuildCreateTable | data-science-1/ex03/warehouse/database_modifier.py:58-63 | the `query +=` loop builds exactly the statement specified by `CreateSql` |
| Ddl.LoadTarget | data-science-1/ex03/warehouse/database_modifier.py:76-77 | a given non-empty table name is used as is; otherwise the target is the file name up to its first '.' |
| Ddl.Selects | data-science-1/ex03/warehouse/database_modifier.py:106-108 | one "SELECT * FROM t" per table, in order |
| Ddl.BuildMergeQuery | data-science-1/ex03/warehouse/database_modifier.py:105-110 | the `query +=` loop with `rstrip("UNION ALL ")` and ")" builds exactly `MergeSql` |
| Ddl.MergeSqlReads | data-science-1/ex03/warehouse/database_modifier.py:106-110 | the merged statement reads the tables `MergeSources` reports, joined by " UNION ALL " |
| Ddl.MergeSqlJoined | data-science-1/ex03/warehouse/database_modifier.py:109 | when the last table name ends outside {U,N,I,O,L,A,' '}, the merge reads exactly the given tables, joined by " UNION ALL " |
| Ddl.MergeSqlEmpty | data-science-1/ex03/database_modifier.py:111-116 | an empty table list gives "CREATE TABLE IF NOT EXISTS n AS ()" |
| Ddl.MergeSqlDangling | data-science-1/ex03/warehouse/database_modifier.py:109 | a last table name made only of stripped characters is eaten entirely, and the statement ends at the previous SELECT |
| Ddl.MergeSqlEatsTableName | data-science-1/ex03/warehouse/database_modifier.py:109 | as written, merging ["data_ALL"] reads table "data_" |
| Ddl.RemoveSuffix | data-science-1/ex03/warehouse/database_modifier.py:109 | removes the suffix exactly when it is present, and nothing else |
| Ddl.MergeSqlCorrectedReadsAll | data-science-1/ex03/warehouse/database_modifier.py:106-110 | with the suffix removed instead of a character set, every non-empty table list is read in full, joined by " UNION ALL " |
| Ddl.MergeSqlCorrectedAgrees | data-science-1/ex03/warehouse/database_modifier.py:109 | the corrected statement equals the one as written whenever the last name does not end in a stripped character |
| Ddl.MergeSqlCorrectedKeepsName | data-science-1/ex03/warehouse/database_modifier.py:109 | the corrected statement merging ["data_ALL"] reads "data_ALL" |
| Store.Renumber | data-science-1/ex03/warehouse/database_modifier.py:106-110 | the created table's rows keep their cells in order and get fresh ids 0..n-1 |
| Store.Survivors | data-science-1/ex03/warehouse/database_modifier.py:122-135 | a row survives the near-duplicate DELETE iff it has no near-duplicate twin in the table |
| Store.Removed | data-science-1/ex03/warehouse/database_modifier.py:122-135 | a row is deleted iff it has a near-duplicate twin in the table |
| Store.WithColumn | data-science-1/ex03/warehouse/database_modifier.py:158 | ADD COLUMN appends the column name and gives every row a NULL in it, leaving other cells untouched |
| Store.FirstMatch | data-science-1/ex03/warehouse/database_modifier.py:164-169 | the matched table2 row has an SQL-equal key, and there is none exactly when no row of table2 has one |
| Store.TruncateDropKeepValid | data-science-1/ex03/warehouse/database_connection.py:93-100 | TRUNCATE and DROP keep every table's row ids (ctids) distinct |
| Store.CreateAsKeepsValid | data-science-1/ex03/warehouse/database_modifier.py:106-111 | the table a merge creates has distinct row ids, and the others keep theirs |
| Store.SurvivorsDistinct | data-science-1/ex03/warehouse/database_modifier.py:122-135 | the rows a DELETE keeps have distinct ids when the table's did |
| Store.DeleteKeepsValid | data-science-1/ex03/warehouse/database_modifier.py:122-138 | the near-duplicate DELETE keeps every table's row ids distinct |
| Store.AddColumnsKeepValid | data-science-1/ex03/warehouse/database_modifier.py:156-159 | the ALTER loop keeps every table's row ids distinct |
| Store.UpdateKeepsValid | data-science-1/ex03/warehouse/database_modifier.py:164-170 | the UPDATE keeps every table's row ids distinct |
| Store.Store.Execute | data-science-1/ex03/warehouse/database_connection.py:45-65 | a statement without a modelled effect is logged and leaves the tables unchanged; it keeps the row-id invariant `ValidTables` |
| Store.Store.Truncate | data-science-1/ex03/warehouse/database_modifier.py:104-105 | TRUNCATE empties an existing table, is rejected for a missing one, and is logged; it keeps the row-id invariant `ValidTables` |
| Store.Store.CreateTableAs | data-science-1/ex03/warehouse/database_modifier.py:106-111 | CREATE TABLE IF NOT EXISTS ... AS applies `CreateAsEffect` and reports whether the database accepted it; it keeps the row-id invariant `ValidTables` |
| Store.Store.Drop | data-science-1/ex03/database_modifier.py:128-132 | DROP TABLE IF EXISTS removes the table, if any; it keeps the row-id invariant `ValidTables` |
| Store.Store.DeleteNearDuplicates | data-science-1/ex03/warehouse/database_modifier.py:122-138 | the DELETE applies `DeleteEffect` and returns the deleted rows; it keeps the row-id invariant `ValidTables` |
| Store.Store.AddColumn | data-science-1/ex03/warehouse/database_modifier.py:156-159 | ALTER TABLE ... ADD COLUMN applies `AddColumnEffect`; it keeps the row-id invariant `ValidTables` |
| Store.Store.UpdateFrom | data-science-1/ex03/warehouse/database_modifier.py:164-170 | UPDATE ... FROM applies `UpdateEffect`; it keeps the row-id invariant `ValidTables` |
| StoreLaws.ConcatRowsLength | data-science-1/ex03/warehouse/database_modifier.py:106-108 | the rows of a UNION ALL number the sum of the sources' rows |
| StoreLaws.ConcatRowsAppend | data-science-1/ex03/warehouse/database_modifier.py:106-108 | UNION ALL over two lists of sources is the concatenation of the two unions |
| StoreLaws.MergeIntoExistingEmpties | data-science-1/ex03/warehouse/database_modifier.py:104-111 | merging into an existing table leaves it empty with its columns: TRUNCATE runs, and CREATE ... IF NOT EXISTS does nothing |
| StoreLaws.MergeIntoFresh | data-science-1/ex03/warehouse/database_modifier.py:106-111 | merging compatible tables into a new name creates it with the first source's columns and exactly the sources' rows (cells), in order; other tables are untouched |
| StoreLaws.MergeRejectedCreatesNothing | data-science-1/ex03/warehouse/database_modifier.py:106-111 | when the sources are missing or incompatible, the merge changes no table |
| StoreLaws.NearDuplicatesSymmetric | data-science-1/ex03/warehouse/database_modifier.py:127-132 | the near-duplicate relation is symmetric |
| StoreLaws.DedupePartition | data-science-1/ex03/warehouse/database_modifier.py:122-138 | survivors and deleted rows partition the table, as multisets |
| StoreLaws.PairBothDeleted | data-science-1/ex03/warehouse/database_modifier.py:122-135 | both rows of a near-duplicate pair are deleted |
| StoreLaws.NoTwinsKeepsAll | data-science-1/ex03/warehouse/database_modifier.py:122-135 | a table without near-duplicates is left unchanged |
| StoreLaws.DedupeIdempotent | data-science-1/ex03/warehouse/database_modifier.py:122-135 | the survivors contain no near-duplicates |
| StoreLaws.DeleteTwice | data-science-1/ex03/warehouse/database_modifier.py:122-138 | running the DELETE a second time deletes nothing |
| StoreLaws.EventTypeIgnored | data-science-1/ex03/warehouse/database_modifier.py:127-132 | `event_type` plays no part in being a near-duplicate |
| StoreLaws.HalfSecondApartBothDeleted | data-science-1/ex03/warehouse/database_modifier.py:132 | two events 0.5 s apart with the same product, price, user and session are both deleted |
| StoreLaws.AddColumnsAppends | data-science-1/ex03/warehouse/database_modifier.py:156-159 | adding distinct new columns one by one appends them in order, with NULL cells |
| StoreLaws.UpdateCopiesMatched | data-science-1/ex03/warehouse/database_modifier.py:164-170 | after the UPDATE, each row of table1 holds the SET columns of its first key match in table2; unmatched rows are unchanged |
| Join.ColumnsToInsert | data-science-1/ex03/warehouse/database_modifier.py:150 | a column is inserted iff it is in table2 and not in table1 |
| Join.ColumnsToInsertAppend | data-science-1/ex03/warehouse/database_modifier.py:150 | the filter distributes over concatenation |
| Join.ColumnsToInsertDistinct | data-science-1/ex03/warehouse/database_modifier.py:150 | the inserted columns are distinct when table2's are |
| Join.IndexOf | data-science-1/ex03/warehouse/database_modifier.py:161 | the first position of a column |
| Join.RemoveFirst | data-science-1/ex03/warehouse/database_modifier.py:161 | `list.remove`: ValueError iff the column is absent, otherwise the list without its first occurrence |
| Join.RemoveFirstDistinct | data-science-1/ex03/warehouse/database_modifier.py:161-162 | on distinct columns, removing the key leaves exactly the other columns |
| Join.MappedPrefix | data-science-1/ex03/warehouse/database_modifier.py:156-157 | the ALTER loop gets through the longest prefix of columns that are in the type map |
| Join.AlterStatements | data-science-1/ex03/warehouse/database_modifier.py:156-159 | one "ALTER TABLE t ADD COLUMN c type" per mapped column |
| Join.AddMissingColumns | data-science-1/ex03/warehouse/database_modifier.py:156-159 | the ALTER loop sends one statement per column up to the first unmapped one, adds those columns, and reports that column's KeyError |
| Join.Run | data-science-1/ex03/warehouse/database_modifier.py:147-170 | the join sends and applies exactly what `JoinEffect` states: ALTERs, the removal of the key, and the UPDATE, with each failure reported |
| Join.JoinStopsAtUnmapped | data-science-1/ex03/warehouse/database_modifier.py:156-159 | an unmapped inserted column stops the join after the ALTERs before it; no UPDATE is sent |
| Join.JoinMissingKey | data-science-1/ex03/warehouse/database_modifier.py:161 | a key absent from table2 raises ValueError after the ALTERs and before any UPDATE |
| Join.UpdatedRowFields | data-science-1/ex03/warehouse/database_modifier.py:164-169 | one row of the UPDATE: the SET columns come from the match, the other cells stay |
| Join.JoinFillsMatchedRows | data-science-1/ex03/warehouse/database_modifier.py:146-170 | after a successful join, table1 has table2's missing columns appended; each row holds its first match's values for table2's non-key columns, or NULL in the new columns when nothing matches |
| CsvInfo.Names | data-science-1/ex03/csv_info.py:32 | `list(data.columns)`: the header names in order |
| CsvInfo.CSVInfo.constructor | data-science-1/ex03/csv_info.py:6-28 | the file name is the last path component (no '/'), the full path is kept, and `get_info` has filled every field |
| CsvInfo.CSVInfo.GetInfo | data-science-1/ex03/csv_info.py:30-36 | the frame, the header names, the column count, the dtypes, the row count and the size are recorded consistently |
| Discovery.GlobPattern | data-science-1/ex03/warehouse/load_from_dir.py:52-55 | the recursive search gets "<directory>/**/*.<extension>" and the flat one "<directory>/*.<extension>": the pattern starts with "<directory>/", ends in "*.<extension>", starts with "<directory>/**/" iff recursive, and has exactly the length of that pattern |
| Discovery.Discover | data-science-1/ex03/warehouse/load_from_dir.py:50-57 | the files are found iff the directory is given and exists, the extension is given, and the glob matches something; then they are the glob's answer |
| Discovery.MissingDirectoryFirst | data-science-1/ex03/warehouse/load_from_dir.py:50-51 | a missing directory is reported whatever the extension and the glob |
| Discovery.NoMatchesReported | data-science-1/ex03/warehouse/load_from_dir.py:56-57 | an empty match is a FileNotFoundError naming the extension and the directory |
| Discovery.DerivedNames | data-science-1/ex03/warehouse/load_from_dir.py:58 | one table name per file |
| Discovery.DerivedNamesClean | data-science-1/ex03/warehouse/load_from_dir.py:58 | each derived name has no '/' and no '.', and it is its file's basename up to the first '.' |
| WarehouseLoader.LoadFromDir.Init | data-science-1/ex03/warehouse/load_from_dir.py:21-30 | the settings are stored, and no files are known yet |
| WarehouseLoader.LoadFromDir.LoadFromDirectory | data-science-1/ex03/warehouse/load_from_dir.py:40-60 | returns `Discover`'s outcome; on success the files are that list and the file names are its derived names; on failure nothing changes |
| WarehouseLoader.LoadFromDir.New | data-science-1/ex03/warehouse/load_from_dir.py:21-32 | the construction fails exactly when discovery fails, with the same error; otherwise the loader holds the discovered files |
| Ds0Ex04Loader.LoadFromDir.LoadFromDirectory | data-science-0/ex04/load_from_dir.py:34-54 | returns `Discover`'s outcome; on success both `files` and `filenames` are the glob list itself (full paths, not derived names); on failure nothing changes |
| Ds0Ex04Loader.LoadFromDir.New | data-science-0/ex04/load_from_dir.py:21-32 | `files` is set by the discovery, then `filenames` is reset to [] |
| Ds0Ex02Loader.LoadFromDir.LoadFromDirectory | data-science-0/ex02/load_from_dir.py:34-56 | with `filenames = [file for file in files]`: the file names are the full paths |
| Ds0Ex02Loader.LoadFromDir.New | data-science-0/ex02/load_from_dir.py:21-32 | the defaults are no extension and no sub-directory search; the construction fails exactly when discovery fails |
| Mustache.Insert | data-science-2/ex02/mustache.py:29-31 | insertion into a sorted list keeps it sorted and adds exactly one element |
| Mustache.SortedCopy | data-science-2/ex02/mustache.py:29-31 | `sorted(prices)` is sorted and a permutation of the prices |
| Mustache.Min | data-science-2/ex02/mustache.py:28 | `min` is a member that no member is below |
| Mustache.Max | data-science-2/ex02/mustache.py:32 | `max` is a member that no member is above |
| Mustache.GetStats | data-science-2/ex02/mustache.py:17-33 | an empty list fails with ZeroDivisionError, and only an empty one; the count is the length |
| Mustache.QuartileList | data-science-2/ex02/mustache.py:105 | the list of the three quartiles, in order |
| Mustache.QuartileIndices | data-science-2/ex02/mustache.py:29-31 | `n // 4 <= n // 2 <= n * 3 // 4 < n` for every non-empty list, so no index is out of range |
| Mustache.StatsOrdered | data-science-2/ex02/mustache.py:28-32 | Min <= 25% <= 50% <= 75% <= Max, and each is one of the prices |
| Mustache.QuartileListOrdered | data-science-2/ex02/mustache.py:105 | the quartile list passed to the second plot is ascending and drawn from the prices |
| Mustache.StatsIgnoreOrder | data-science-2/ex02/mustache.py:17-33 | a rearrangement of the prices has the same summary |
| Mustache.SortedUnique | data-science-2/ex02/mustache.py:29-31 | two sorted permutations of the same prices are equal |
| TableCreator.Definitions | data-science-0/ex04/table_creator.py:84-85 | one "<column> <type>" per dict entry, in order |
| TableCreator.SerialCreateEmpty | data-science-0/ex04/table_creator.py:83-86 | without columns, the table gets only "id SERIAL PRIMARY KEY" |
| TableCreator.SerialCreateJoined | data-science-0/ex04/table_creator.py:83-86 | the definitions follow the serial key after ", ", joined by ", " |
| TableCreator.BuildSerialCreate | data-science-0/ex04/table_creator.py:83-86 | the inner `query +=` loop builds exactly `SerialCreateSql` |
| TableCreator.CreateStatements | data-science-0/ex04/table_creator.py:82-87 | one statement per table name, in list order |
| TableCreator.TableModifier.CreateTable | data-science-0/ex04/table_creator.py:73-87 | sends one CREATE per table, in list order, with the same columns |
| TableCreator.GetCsvNames | data-science-0/ex04/table_creator.py:111-115 | no more names than entries, and none containing '.' |
| TableCreator.GetCsvNamesMembers | data-science-0/ex04/table_creator.py:111-115 | a name is listed iff some entry ending in ".csv" has it as its text before the first '.' |
| TableCreator.GetCsvNamesAppend | data-science-0/ex04/table_creator.py:111-115 | the listing's entries contribute independently and in order |
| TableCreator.GetCsvNamesExample | data-science-0/ex04/table_creator.py:112-114 | "a.b.csv" gives "a", "notes.txt" is skipped |
| WarehouseModifier.GetDataType | data-science-1/ex03/warehouse/database_modifier.py:22-45 | a column is mapped iff it is one of the nine known columns, otherwise KeyError(column); no type ends in ',' or ' ' |
| WarehouseModifier.TypesKnown | data-science-1/ex03/warehouse/database_modifier.py:34-45 | the map covers exactly the nine known columns |
| WarehouseModifier.CreateStatementShape | data-science-1/ex03/warehouse/database_modifier.py:57-64 | the warehouse CREATE is the prefix, the definitions joined by ", ", and ")"; it fails iff a column is unknown |
| WarehouseModifier.TotalRowsOf | data-science-1/ex03/warehouse/database_connection.py:80-91 | the row count of an existing table; a missing table makes `None[0][0]` a TypeError |
| WarehouseModifier.ColumnsOf | data-science-1/ex03/warehouse/database_connection.py:67-78 | the column names of an existing table; a missing one leaves `cursor.description` None (TypeError) |
| WarehouseModifier.ExistsRows | data-science-1/ex03/warehouse/database_connection.py:112-113 | the EXISTS query returns one row holding whether the table exists |
| WarehouseModifier.TableExistsAlwaysTrue | data-science-1/ex03/warehouse/database_connection.py:102-113 | `bool` of that one-row result is True even when the table is missing |
| WarehouseModifier.TableExistsCorrected | data-science-1/ex03/warehouse/database_connection.py:112-113 | reading the boolean inside the row answers exactly whether the table exists |
| WarehouseModifier.CorrectedCheckSameTables | data-science-1/ex03/warehouse/database_modifier.py:104-111 | with the corrected check, the merge leaves the same tables as with the check as written |
| WarehouseModifier.CreateAndLoadDiverge | data-science-1/ex03/warehouse/database_modifier.py:57-77 | for a file name with a '.', CREATE and COPY target different tables |
| WarehouseModifier.CorrectedCreateTableName | data-science-1/ex03/warehouse/database_modifier.py:57 | the corrected name has no '.' and is a prefix of the file name |
| WarehouseModifier.CorrectedCreateMatchesLoad | data-science-1/ex03/warehouse/database_modifier.py:57-77 | the corrected CREATE targets the table that COPY loads by default |
| WarehouseModifier.FetchedOrNone | data-science-1/ex03/warehouse/database_connection.py:59 | `fetchall() or None`: None exactly for an empty result |
| WarehouseModifier.DatabaseModifier.CreateTablesFromCsv | data-science-1/ex03/warehouse/database_modifier.py:49-64 | an unknown column raises KeyError and sends nothing; otherwise the CREATE statement is sent |
| WarehouseModifier.DatabaseModifier.LoadCsvIntoTable | data-science-1/ex03/warehouse/database_modifier.py:68-86 | an unreadable file raises FileNotFoundError and sends nothing; otherwise one COPY into `LoadTarget` is sent |
| WarehouseModifier.DatabaseModifier.MergeExistingTablesToOne | data-science-1/ex03/warehouse/database_modifier.py:90-111 | a missing or empty name, or no tables, raises ValueError and changes nothing; otherwise TRUNCATE and the merge are sent, and the tables become `TruncateThenCreate` |
| WarehouseModifier.DatabaseModifier.RemoveDuplicates | data-science-1/ex03/warehouse/database_modifier.py:115-142 | a missing table is a TypeError; without confirmation nothing changes; otherwise the near-duplicates are deleted and returned |
| WarehouseModifier.DatabaseModifier.JoinTables | data-science-1/ex03/warehouse/database_modifier.py:146-170 | a missing table is a TypeError; without confirmation nothing changes; otherwise the join has the effect `JoinEffect` states, with rejected statements swallowed |
| WarehouseModifier.JoinNeverReportsStoreError | data-science-1/ex03/warehouse/database_connection.py:58-61 | the warehouse join swallows every database error (`except ProgrammingError: pass`) |
| Ds1Modifier.GetDataType | data-science-1/ex03/database_modifier.py:10-33 | as in the warehouse, with `event_time` DATETIME |
| Ds1Modifier.TypesKnown | data-science-1/ex03/database_modifier.py:22-33 | the map covers exactly the nine known columns |
| Ds1Modifier.EventTimeRejected | data-science-1/ex03/database_modifier.py:23 | PostgreSQL has no DATETIME type, so a CREATE of a table that does not exist yet is rejected iff it declares `event_time` |
| Ds1Modifier.CountAsWritten | data-science-1/ex03/database_modifier.py:142-143 | `execute(...)[0]` never yields a count: TypeError on `None[0]` when the table exists, the database's error otherwise |
| Ds1Modifier.CountCorrected | data-science-1/ex03/database_modifier.py:142-143 | the count is returned iff the table exists, and it is its row count |
| Ds1Modifier.BatchOffsets | data-science-1/ex03/database_modifier.py:146-168 | the loop's offsets |
| Ds1Modifier.BatchOffsetsCover | data-science-1/ex03/database_modifier.py:146-168 | the offsets are from, from+b, ...: all below the total, with the last batch reaching it |
| Ds1Modifier.BatchStatements | data-science-1/ex03/database_modifier.py:149-166 | one batch statement per offset, with `LIMIT b OFFSET o` |
| Ds1Modifier.BatchProgress | data-science-1/ex03/database_modifier.py:146-168 | the k-th offset is k*b < total, and the progress bar reaches at least the total and less than total + b |
| Ds1Modifier.DatabaseModifier.CreateTablesFromCsv | data-science-1/ex03/database_modifier.py:49-67 | the table is named after the file's stem and typed from the dtypes' column names; an unknown column's KeyError is printed and nothing is sent; otherwise the CREATE is sent; `IF NOT EXISTS` skips an existing table, and for a table that does not exist yet the statement is rejected, with the error printed, exactly when a declared type is not one PostgreSQL knows |
| Ds1Modifier.DatabaseModifier.LoadCsvIntoTable | data-science-1/ex03/database_modifier.py:69-95 | an unreadable file is printed and nothing is sent; otherwise one COPY |
| Ds1Modifier.DatabaseModifier.MergeExistingTablesToOne | data-science-1/ex03/database_modifier.py:97-119 | only a missing or empty name is a ValueError; no TRUNCATE is sent; a database error is printed |
| Ds1Modifier.DatabaseModifier.DropTable | data-science-1/ex03/database_modifier.py:121-132 | the table is gone afterwards, and one DROP is sent |
| Ds1Modifier.DatabaseModifier.RemoveDuplicates | data-science-1/ex03/database_modifier.py:134-171 | as written: the count fails, the error is printed, and nothing is sent or changed |
| Ds1Modifier.DatabaseModifier.JoinTablesBatch | data-science-1/ex03/database_modifier.py:173-204 | as written: the count fails, the error is printed, and nothing is sent or changed |
| Ds1Modifier.DatabaseModifier.RemoveDuplicatesCorrected | data-science-1/ex03/database_modifier.py:134-171 | with a working count and b > 0, the loop sends exactly the batch statements for offsets 0, b, 2b, ... below the row count, and the progress is their number times b |
| Ds1Modifier.DatabaseModifier.JoinTablesBatchCorrected | data-science-1/ex03/database_modifier.py:173-204 | with a working count, the ALTERs and the UPDATE run as in `JoinEffect`, stopping at the first error |
| Ds0Ex04Modifier.GetDataType | data-science-0/ex04/database_modifier.py:22-45 | mapped iff known, otherwise KeyError(column) |
| Ds0Ex04Modifier.DataTypeIgnoresDtype | data-science-0/ex04/database_modifier.py:22-45 | the pandas dtype argument never affects the result |
| Ds0Ex04Modifier.TypesKnown | data-science-0/ex04/database_modifier.py:34-45 | the map covers exactly the nine known columns |
| Ds0Ex04Modifier.DatabaseModifier.CreateTablesFromCsv | data-science-0/ex04/database_modifier.py:47-65 | the stem names the table; an unknown column is printed, and nothing is sent |
| Ds0Ex04Modifier.DatabaseModifier.LoadCsvIntoTable | data-science-0/ex04/database_modifier.py:67-82 | one COPY into the stem, or the FileNotFoundError printed |
| Ds0Ex04Modifier.DatabaseModifier.ProcessCsv | data-science-0/ex04/database_modifier.py:84-86 | CREATE, then COPY |
| Ds0Ex04Modifier.ProcessTargetsOneTable | data-science-0/ex04/database_modifier.py:84-86 | with known columns, process_csv sends exactly two statements, and both target the stem |
| Ds0Ex04Modifier.ProcessLoadsAfterFailedCreate | data-science-0/ex04/database_modifier.py:84-86 | an unknown column does not stop the COPY |
| Ds0Ex03Database.GetDataType | data-science-0/ex03/database.py:25-49 | mapped iff known, otherwise KeyError(column) |
| Ds0Ex03Database.DataTypeIgnoresDtype | data-science-0/ex03/database.py:25-49 | the dtype argument never affects the result |
| Ds0Ex03Database.TypesKnown | data-science-0/ex03/database.py:37-49 | the map covers exactly the nine known columns |
| Ds0Ex03Database.DatabaseModifier.CreateTablesFromCsv | data-science-0/ex03/database.py:51-69 | any failure surfaces as TypeError (`raise` of a string) and nothing is sent |
| Ds0Ex03Database.DatabaseModifier.LoadCsvIntoTable | data-science-0/ex03/database.py:71-88 | an unreadable file surfaces as TypeError; otherwise one COPY into the stem |
| Revisions.SameColumns | data-science-1/ex03/warehouse/database_modifier.py:34-45 | every revision's map has the same nine columns |
| Revisions.Ds1DiffersInEventTime | data-science-1/ex03/database_modifier.py:22-33 | data-science-1 differs from the warehouse only in `event_time` |
| Revisions.Ds0Ex04DiffersInEventTime | data-science-0/ex04/database_modifier.py:34-45 | data-science-0/ex04 differs from the warehouse only in `event_time` |
| Revisions.Ds0Ex03DiffersInCategoryId | data-science-0/ex03/database.py:37-49 | data-science-0/ex03 differs from the warehouse only in `category_id` |
| Revisions.OnlyDs1DeclaresRejectedType | data-science-1/ex03/database_modifier.py:22-33 | every type the warehouse, ds0/ex04 and ds0/ex03 maps declare is one PostgreSQL accepts; data-science-1's `event_time` DATETIME is not |

## Left out

These are left out, or stand in for something else in the model:

- **File I/O.** Inputs stand in for reading files:
  - `pd.read_csv` and `os.path.getsize` become a `Frame` and a byte count;
  - `open` becomes a `readable` flag;
  - `os.path.exists` and `glob.glob` become a `FileSystem` value;
  - `os.listdir` becomes a listing.
- **Console and timing.** Interactive prompts (`input`) become a `confirmed` flag. Printed messages, tqdm progress bars, `timing_decorator`, and writing the deleted rows to a file are left out. They do not change the database.
- **Connections.** Opening, closing and committing connections, and `__enter__`/`__exit__`, are left out. The store stands for one open connection.
- **ds0 ex04 `async`.** These methods are modelled as sequential calls.
- **Statement text.** SQL text is built exactly, but the store is not an SQL interpreter. Each statement's effect is chosen by the method that sends it. The whitespace and line breaks inside the multi-line warehouse DELETE and UPDATE statements are not reproduced; their effect is.
- **CREATE TABLE from a CSV, the serial-key CREATE and COPY.** Only their text is modelled (they are logged), not their effect on the tables. This includes COPY's rejection of a missing table or a malformed file.
- **TableCreator.TableModifier.CreateTable:** it ensures the tables are unchanged, although each CREATE makes a table in the source. Its connection raises on a rejected CREATE, which would end the loop; the model sends every statement.
- **UNION ALL compatibility.** PostgreSQL accepts compatible column types. The model accepts only identical column lists.
- **Duplicate rows.** A row's `id` stands for PostgreSQL's `ctid`.
- **Timestamps.** These are integer microseconds. `EXTRACT(EPOCH FROM ...)` is modelled exactly.
- **Prices.** In the store, a FLOAT cell is an opaque token that is compared only for equality. The box-plot summary treats prices as exact reals.
- **A failed statement.** In the data-science-1 revision, a failed statement aborts the transaction, and the statements after it fail until a rollback. This is not modelled.
- **Pandas dtypes.** The header of a `Frame` carries the inferred dtypes as given. No inference is modelled.
- **`print_info`.** Not modelled: it only prints.
- **The ds0 revisions' own `csv_info.py`.** It is not part of this model. The data-science-1 `CSVInfo` is used for every revision.
- **The box-plot plotting** (`box_plot_by_price`, `box_plot_by_quartiles`, `make_box_plot`) and the other plotting scripts are left out. Their output is a picture. The price query of `make_box_plot` is an input.
- **`check_errors`** in `warehouse/utils.py` is not modelled. It prints and re-raises, and the model's errors propagate anyway.
- **SQL injection.** Table names interpolated into SQL are not validated, by the model or by the source.

Weaker contracts:

- **Store.FirstMatch:** when several rows of table2 match a key, PostgreSQL's `UPDATE ... FROM` uses one of them arbitrarily. The model takes the first one.
- **Mustache.GetStats:** it computes Count, Min, the three quartiles and Max. It does not compute the floating-point Mean and STD. It reports the empty list's ZeroDivisionError, as `sum(prices) / len(prices)` raises.
- **Ds1Modifier.DatabaseModifier.RemoveDuplicatesCorrected:**
  - It describes the offset loop as if every batch statement were accepted, and states the statements sent and the progress, not their effect on the table. In the source the batch text ends in `...;LIMIT b OFFSET o;`, and a bare `LIMIT` statement is a syntax error. PostgreSQL parses the whole multi-statement string before running any of it, so the first batch is already rejected. The raising `execute` then ends the loop after one iteration, with the error printed.
  - It requires `batch_size > 0`: with 0 or less the source loop never ends.
- **Ds1Modifier.DatabaseModifier.JoinTablesBatchCorrected:** it treats every ALTER as accepted. In the source, when table2 brings an `event_time` column that table1 lacks, `ALTER TABLE t1 ADD COLUMN event_time DATETIME;` is rejected, because PostgreSQL has no DATETIME type. This connection raises it, so the loop stops there with the error printed. The model goes on with the later columns and the UPDATE.
- **Ds1Modifier.DatabaseModifier.CreateTablesFromCsv:** the DATETIME CREATE of a table not in `db.tables` is modelled as rejected (`Ds1Modifier.EventTimeRejected`), and an existing one as skipped. Like every CREATE from a CSV, an accepted one is logged without an effect on the tables. So a table that an earlier CSV CREATE made in the source is not in `db.tables`, and the model still reports the rejection for it.
- **WarehouseModifier.DatabaseModifier.LoadCsvIntoTable:** the COPY statement is logged. The rows it would load are not added.
- **Ds0Ex04Modifier.DatabaseModifier.LoadCsvIntoTable:** the COPY statement is logged. The rows it would load are not added.
- **Ds0Ex03Database.DatabaseModifier.LoadCsvIntoTable:** the COPY statement is logged. The rows it would load are not added.

## Findings

| source | as written | input that shows it | evidently intended | confidence | as-written member | corrected member |
|---|---|---|---|---|---|---|
| data-science-1/ex03/database_modifier.py:143 | `self.db.execute(query_total_rows)[0]`, but this revision's `execute` returns None, so `None[0]` raises TypeError and `remove_duplicates` never deletes anything | any existing table | the row count (`fetchone()[0]`), then batches at offsets 0, b, 2b, … | high, not executed | Ds1Modifier.CountAsWritten | Ds1Modifier.DatabaseModifier.RemoveDuplicatesCorrected |
| data-science-1/ex03/database_modifier.py:177 | the same `execute(...)[0]` in `join_tables_batch`, so the join never runs | any existing table1 | the row count, then the ALTERs and the UPDATE | high, not executed | Ds1Modifier.DatabaseModifier.JoinTablesBatch | Ds1Modifier.DatabaseModifier.JoinTablesBatchCorrected |
| data-science-1/ex03/warehouse/database_modifier.py:57 | the CREATE names the table `csv.filename`, extension included, while the COPY at line 77 strips it | "customer.csv": `CREATE TABLE IF NOT EXISTS customer.csv (...)`, then `COPY customer ...` | the stem, as at line 77 and in the other revisions | medium, not executed | WarehouseModifier.CreateAndLoadDiverge | WarehouseModifier.CorrectedCreateMatchesLoad |
| data-science-1/ex03/warehouse/database_modifier.py:109 | `rstrip("UNION ALL ")` strips any trailing run of the characters U, N, I, O, L, A and space, not the suffix | tables ["data_ALL"]: the statement reads `data_` | remove the trailing " UNION ALL " only | medium, not executed | Ddl.MergeSqlEatsTableName | Ddl.MergeSqlCorrectedKeepsName |
| data-science-1/ex03/warehouse/database_connection.py:112-113 | `bool(self.execute(...))` is the truth of a one-row result list, so it is True for every name | a name with no table: `[(False,)]` is truthy | read the boolean inside the row | high, not executed | WarehouseModifier.TableExistsAlwaysTrue | WarehouseModifier.TableExistsCorrected |

The merge as written (finding 4) is the one the model's modifiers send. `Ddl.MergeSqlCorrectedAgrees` shows the two statements agree for every table list whose last name does not end in a stripped character.

For finding 5, `WarehouseModifier.CorrectedCheckSameTables` shows that the stray TRUNCATE changes only the statement log, not the tables: the database rejects TRUNCATE of a missing table.
