# CSV/Excel to SQL Server importer — a verified model

The repository has three drafts of one tool. Each reads a CSV or Excel
sheet with pandas, tidies its headers and cells, and writes it to a SQL
Server table through pyodbc:

- `importer.py` is the Tk GUI. Its copy `main.py` is byte-identical, so
  every `importer.py` line cited below is the same line of `main.py`. The
  GUI:
  - sanitises the headers and cleans the cells;
  - asks the database whether the table exists and reads its catalog;
  - lets the user map file columns onto existing table columns, or cancel;
  - creates the table only when it is missing, after checking its name;
  - inserts the rows in one batch, falling back to single rows when the
    batch is refused;
  - commits and closes.
- `improved_importing.py` is a second GUI draft. It uses another
  sanitiser and turns every cell into trimmed text. It always drops the
  table if it exists and re-creates it with NVARCHAR(MAX) columns (or the
  fixed custom schema), then inserts and commits.
- `import_excel_to_sql.py` is a one-shot script. It cleans a CSV, creates
  a TEXT table only if it is absent, inserts every row in one batch and
  commits.

The model has nine modules:

| module | contents |
|---|---|
| `Strings` | Python's `strip`, `lower`, `replace` and `split(" ")[0]`, and the `re.sub` filter to `[a-zA-Z0-9_]`, on `seq<char>` |
| `Frames` | a frame: columns with a name, a dtype tag and cells. Also renaming, dropping, selecting, `head` and `values.tolist()` |
| `Paths` | `os.path.splitext` as on Windows |
| `Sql` | the statements as values, with the SQL text the code sends (whitespace included) and parsers that read the CREATE and INSERT texts back. Also the server as an oracle, a `Connection` class that logs every statement, and the batch insert with its row-by-row fallback |
| `Custom` | `CUSTOM_COLUMNS` and `EXCEL_TO_CUSTOM_MAP` |
| `Importer` | the pure and loop-based data preparation of `importer.py` |
| `ImporterApp` | the `SQLImporter` class, the mapping window's result, and the `import_data` flow of `importer.py` |
| `Improved` | `improved_importing.py` |
| `Script` | `import_excel_to_sql.py` |

The database is a `Server` value with four parts:

- `reachable`: whether `pyodbc.connect` succeeds;
- `hasTable` and `catalog`: the answers of `OBJECT_ID` and the catalog query;
- `accepts`: the server's verdict on each statement, given everything sent
  before it on the connection.

Each flow has two forms:

- a function from its inputs to the outcome shown to the user and the
  ordered log of statements sent;
- a method over the `Connection` and `SQLImporter` classes that does the
  same steps one at a time, proved equal to that function.

The properties of the flows are lemmas about those functions.

The model follows the code, quirks included:

- **`E-Mail;` does not become `e_mail`.**
  - `importer.py` deletes `-` and `;`, so the name becomes `email`
    (`Importer.SanitizePunctuationExample`).
  - `improved_importing.py` turns both into `_`, giving `e_mail_`
    (`Improved.SanitizePunctuationExample`).
  - Neither sanitiser ever gives `e_mail`.
- **Cleaning is not idempotent.** The phone-prefix removal runs before
  the trim. `"  Ph: 555"` cleans to `"Ph: 555"` and then to `"555"`
  (`Importer.CleanNotIdempotent`).
- **The `improved_importing.py` sanitiser is not idempotent either.**
  - It deletes `:` after stripping, so a tab behind a colon survives the
    first pass and is stripped by the second (`Improved.SanitizeNotIdempotent`).
  - It also keeps every character it does not rewrite, so its output is
    not limited to `[a-zA-Z0-9_]`.
- **The table name is not validated before every statement.**
  - `importer.py` sends the `OBJECT_ID` query with the name as typed
    (only stripped) before `create_table` checks it.
  - The check runs only when the table is missing (`ImporterApp.ConnectedRunOps`).
  - `improved_importing.py` never checks the name.
- **The existence check can raise.** A quote in the table name breaks
  the `OBJECT_ID` text. The run then fails on that query and closes,
  having sent nothing else after it (`ImporterApp.Probe`,
  `ImporterApp.WriteRun`).
- **Rows written by the single-row fallback are never committed.**
  `insert_data` re-raises the batch error, and the `except` branch skips
  the commit (`ImporterApp.ConnectedRunOps`, `Improved.FallbackNeverCommitted`).
- **An existing table whose catalog is empty makes `importer.py` fail
  after its commit.** `full_df` is never bound, so `len(full_df)` raises
  (`ImporterApp.EmptyCatalogFails`).

## Model

| member | source | states |
|---|---|---|
| Strings.Strip | importer.py:113 | the result has no whitespace at either end and is the input with a run of whitespace removed from each end |
| Strings.StripIdempotent | importer.py:113 | stripping twice is stripping once |
| Strings.StripChars | importer.py:113 | every character of the stripped text occurs in the input |
| Strings.Lower | importer.py:113 | same length, character-wise ASCII lowercase, no capital left |
| Strings.LowerOfLower | importer.py:113 | lowercasing text with no capital changes nothing |
| Strings.Replace | importer.py:113 | without the character, `replace` changes nothing; the result holds it only if the replacement does; every result character comes from the input or the replacement |
| Strings.ReplaceAppend | importer.py:113 | `replace` distributes over concatenation |
| Strings.ReplaceOne | importer.py:113 | one occurrence between two parts without it is replaced in place |
| Strings.KeepWordChars | importer.py:113 | `re.sub(r'[^a-zA-Z0-9_]', '', s)` keeps only word characters of the input, and leaves a word-character string unchanged |
| Strings.KeepWordCharsAppend | importer.py:113 | the filter distributes over concatenation |
| Strings.KeepWordCharsDropTwo | importer.py:113 | two non-word characters among word characters are deleted |
| Strings.FirstField | importer.py:239 | `split(" ")[0]` holds no space, is a prefix of the text that ends at the end or at a space, and is the whole text when it holds none |
| Strings.IntToStringRoundTrip | importer.py:74-78 | the decimal text of an integer parses back to it and holds no parenthesis or comma |
| Frames.ColNames | importer.py:85 | one name per column, in column order |
| Frames.Frame.Rows | importer.py:101 | `df.values.tolist()`: one row per row index, one cell per column, cell `[i][j]` from column `j` |
| Frames.RenameAll | importer.py:265 | `df.columns = [f(c) for c in df.columns]`: each column renamed by `f`, cells and row count kept |
| Frames.Rename | importer.py:147 | `df.rename(columns=m)`: mapped names replaced, others kept, cells kept |
| Frames.Without | importer.py:302 | exactly the columns whose name is not in `ks` remain |
| Frames.WithoutAppend | importer.py:302 | the filter distributes over concatenation and keeps a single column exactly when its name is not dropped, so the kept columns stay in their order with their multiplicity |
| Frames.Drop | importer.py:302 | `df.drop(columns=ks, errors="ignore")`: the columns are the ordered filter `Without`, so exactly the columns whose name is not in `ks` remain, in order; rows kept |
| Frames.Matching | importer.py:85 | `df[name]`: exactly the columns carrying that name |
| Frames.MatchingAppend | importer.py:85 | `df[name]` distributes over concatenation of the columns, so the matches keep their order and multiplicity |
| Frames.MatchingOne | importer.py:85 | one column matches exactly when it carries the name |
| Frames.MatchingNone | importer.py:85 | a name no column carries selects nothing |
| Frames.SelectCols | importer.py:151 | exactly the columns whose name is listed |
| Frames.SelectColsAppend | importer.py:151 | `df[k1 + k2]` is `df[k1]` then `df[k2]`, and `df[[k]]` is every column named `k`: selection follows the order of the list asked for |
| Frames.Select | importer.py:151 | `df[keep]`: the columns are `SelectCols` of the list, rows kept |
| Frames.Present | importer.py:150 | the listed names that occur among the headers |
| Frames.PresentAppend | importer.py:150 | the comprehension distributes over concatenation and keeps a single name exactly when it is a header, so the kept names stay in list order |
| Frames.RenameRestricted | importer.py:146-147 | restricting the rename map to present headers does not change the rename |
| Frames.MatchingDistinct | importer.py:85 | with distinct headers, `df[name]` is the one column of that name |
| Frames.SelectColsDistinct | importer.py:150-151 | with distinct headers, selecting present names yields them in the order asked |
| Frames.SelectDistinct | importer.py:150-151 | the same for a frame |
| Frames.Head | importer.py:321 | `head(n)`: the first `min(n, rows)` cells of each column, headers and dtypes kept |
| Paths.LastIndexOf | importer.py:155 | `rfind`: the last occurrence, or -1 with none at all |
| Paths.SplitExt | importer.py:155 | `splitext`: root plus extension is the path; a non-empty extension starts at the dot that follows every other dot and separator and has a non-dot before it in the last component; the extension is empty exactly when no position qualifies |
| Paths.SplitExtOfJoin | importer.py:155 | a file name ending in an extension splits into exactly that stem and extension |
| Custom.CustomNames | importer.py:20-27 | the six custom column names in dict order |
| Custom.ExcelToCustomTargets | importer.py:29-36 | each renamed header lands on a distinct custom column |
| Custom.CustomColumnsPlain | importer.py:20-27 | no custom name holds `]` and no custom type a comma |
| Sql.CreateText | importer.py:85-86 | `CREATE TABLE [t] (` then one `[col] TYPE` per line joined by `,\n    `, then `);` |
| Sql.InsertText | importer.py:96-98 | `INSERT INTO [t] (cols) VALUES (?, ...)` |
| Sql.Statement | importer.py:59-67 | the text handed to `execute` for each statement, the catalog query with the code's own line breaks and indentation |
| Sql.CreateTextRoundTrip | importer.py:85-86 | the CREATE TABLE text parses back to the table name and the column definitions, in order |
| Sql.ColumnListRoundTrip | importer.py:96 | the INSERT column list parses back to the columns, each once, in order |
| Sql.PlaceholderCount | importer.py:97 | the placeholder list holds exactly `n` question marks |
| Sql.InsertMarkers | importer.py:96-98 | the INSERT text holds exactly one `?` per column |
| Sql.AcceptedAfterPair | importer.py:88-89 | two statements are accepted in turn exactly when each is accepted after the ones before |
| Sql.AcceptedAfterAppend | importer.py:88-89 | acceptance of a concatenated run splits at the join |
| Sql.Connection.constructor | importer.py:46-47 | a new connection has sent nothing |
| Sql.Connection.ObjectId | importer.py:54-55 | logs the `OBJECT_ID` query; reports whether the server accepted it (a quote in the name breaks the text) and, when it did, whether the table exists |
| Sql.Connection.Catalog | importer.py:59-70 | logs the catalog query and returns the table's catalog rows |
| Sql.Connection.Execute | importer.py:88-89 | logs the statement and reports the server's verdict given the earlier log |
| Sql.Connection.Close | importer.py:49-51 | logs the close |
| Sql.RowInserts | importer.py:104-106 | one single-row INSERT per row, in row order |
| Sql.FailedRows | importer.py:104-108 | the indices of the rows whose single-row INSERT the server refuses, each judged after everything sent before it |
| Sql.FailedRowsExact | importer.py:104-108 | the failed rows are exactly the indices whose single-row INSERT was refused, increasing and below the row count |
| Sql.InsertWithFallback | importer.py:95-109 | a batch accepted sends nothing else; a batch refused is followed by every row once, in order, a refused row not stopping later ones, and the call reports failure (the re-raise) with the failed rows |
| Importer.SanitizeColumnName | importer.py:112-113 | every character of the result is in `[a-z0-9_]` |
| Importer.SanitizeIdempotent | importer.py:112-113 | sanitising a sanitised name changes nothing |
| Importer.SanitizeStages | importer.py:113 | for an already-stripped name the result is `replace`, then `lower`, then the filter |
| Importer.SanitizeSpaceExample | importer.py:113 | `"Company Name"` becomes `"company_name"` |
| Importer.SanitizePunctuationExample | importer.py:113 | `"E-Mail;"` becomes `"email"`: hyphen and semicolon are deleted |
| Importer.ColumnData | importer.py:85 | the dtype `df[col]` has when exactly one column carries the name, no dtype otherwise |
| Importer.MapDtypeToSql | importer.py:116-124 | integer dtypes give BIGINT, float FLOAT, datetime DATETIME, and no data or any other dtype NVARCHAR(MAX), each if and only if |
| Importer.ColumnDefs | importer.py:85 | one definition per column, in order, named after the column, with a comma-free type |
| Importer.CreateListsColumns | importer.py:82-88 | the CREATE text reads back as the table and exactly one `[col] TYPE` per column, in column order |
| Importer.TypeLabel | importer.py:72-79 | the type name followed by its size or precision and scale |
| Importer.LabelCases | importer.py:72-79 | sized types get `(MAX)` for length -1 and `(length)` otherwise; decimal and numeric get `(precision,scale)`; others are unchanged |
| Importer.LabelRoundTrip | importer.py:71-79 | every label parses back to its type name and its length or precision and scale |
| Importer.LabelOf | importer.py:71-78 | the loop body's label equals the label function |
| Importer.LabelColumns | importer.py:69-80 | one `(name, label)` pair per catalog row, in order |
| Importer.ValidTableName | importer.py:83 | `re.match(r'^[a-zA-Z0-9_]+$')`: a non-empty word-character name, or one followed by a single newline |
| Importer.ValidStrippedName | importer.py:83 | for a stripped name, the check passes exactly for a non-empty `[a-zA-Z0-9_]` name |
| Importer.TrailingNewlineAccepted | importer.py:83 | `$` lets a name with one trailing newline through |
| Importer.IsPhoneColumn | importer.py:131 | the lowercased name contains `tel` or `phone` |
| Importer.DropPhPrefix | importer.py:134 | removes one case-insensitive `ph:` and the whitespace after it, and nothing without the prefix |
| Importer.PhoneCell | importer.py:134 | `astype(str)`, the `ph:` prefix removed, then trimmed; always text |
| Importer.PhoneCellStripped | importer.py:134 | a cleaned phone cell has nothing left to trim |
| Importer.StripCell | importer.py:139 | `.str.strip()` on one cell: a string is trimmed, anything else becomes missing |
| Importer.PhonePass | importer.py:133-134 | a phone or tel column becomes object text cell by cell; any other is unchanged |
| Importer.StripPass | importer.py:137-139 | an object column has every cell stripped; any other is unchanged |
| Importer.CleanFails | importer.py:132-139 | some phone or object column shares its name with another column, or some non-phone object column has a present value and no string |
| Importer.PhonePassHasText | importer.py:134-139 | after the phone pass a phone column is never refused by `.str` for lacking strings |
| Importer.AllMissingPasses | importer.py:137-139 | a single column whose values are all missing passes both loops |
| Importer.StringLess | importer.py:139 | reports exactly whether the column has a present value and no string |
| Importer.CleanColumn | importer.py:132-139 | phone or tel columns: every cell becomes text, prefix removed, trimmed; other object columns: strings trimmed and non-strings missing; all else unchanged; name and length kept |
| Importer.PhoneThenStrip | importer.py:133-139 | the second loop leaves a cleaned phone column as it is |
| Importer.Cleaned | importer.py:127-141 | fails exactly when `CleanFails` holds: a phone or object column's name is shared (`df[col]` is then a frame without `.str`), or a non-phone object column holds present values but no string (`.str` refuses it); otherwise every column is cleaned, row count and headers unchanged |
| Importer.CleanNotIdempotent | importer.py:134 | `"  Ph: 555"` cleans to `"Ph: 555"`, which cleans to `"555"` |
| Importer.PhoneLoop | importer.py:132-134 | the first loop fails only where cleaning fails, and otherwise gives the phone pass of every column |
| Importer.StripLoop | importer.py:137-139 | after the first loop, the second fails on a shared object-column name or a string-less object column and otherwise gives exactly the cleaned frame |
| Importer.Shared | importer.py:134 | reports exactly whether another column carries the same name |
| Importer.CleanDataframe | importer.py:127-141 | the two loops compute `Cleaned`, failure cases included |
| Importer.MapCustomColumns | importer.py:144-151 | exactly the renamed columns whose name is a custom column are kept, rows unchanged |
| Importer.MapCustomOrder | importer.py:150-151 | with distinct renamed headers the result's headers are the custom names present, in custom-schema order |
| Importer.MapCustomKeepsKnown | importer.py:144-151 | a column under a known spreadsheet header survives the custom schema with its cells, under its custom name |
| Importer.ReadFile | importer.py:154-169 | fails exactly for an extension other than `.csv`, `.xlsx`, `.xls` in any case; a preview limit of None or 0 reads every row, a positive one the first rows |
| Importer.ReadFileByExtension | importer.py:154-169 | `.csv` goes to the csv reader, `.xlsx` to openpyxl and `.xls` to xlrd, in any letter case, and anything else is refused |
| ImporterApp.SQLImporter.constructor | importer.py:40-43 | no connection yet |
| ImporterApp.SQLImporter.Connect | importer.py:45-47 | succeeds exactly when the server is reachable, then holds a fresh connection with nothing sent |
| ImporterApp.SQLImporter.Close | importer.py:49-51 | closes the connection if there is one |
| ImporterApp.SQLImporter.TableExists | importer.py:53-55 | sends the `OBJECT_ID` query with the name unvalidated; reports whether it raised and, when not, existence |
| ImporterApp.SQLImporter.GetExistingColumns | importer.py:57-80 | sends the catalog query and returns one labelled pair per catalog row |
| ImporterApp.SQLImporter.CreateTable | importer.py:82-89 | an invalid name raises before anything is sent; otherwise CREATE then commit, raising on the first refusal |
| ImporterApp.SQLImporter.DropTable | importer.py:91-93 | DROP with the name unvalidated, then commit, raising on the first refusal |
| ImporterApp.SQLImporter.InsertData | importer.py:95-109 | the batch, and on its refusal every row once in order and a raised failure |
| ImporterApp.Labels | importer.py:69-80 | one `(name, label)` per catalog row, in order |
| ImporterApp.TypedLabel | importer.py:184 | `"name (type)"` |
| ImporterApp.Choice | importer.py:239 | the Skip entry gives None, any other entry its text up to the first space |
| ImporterApp.ChoiceOfTypedLabel | importer.py:184 | picking `"name (type)"` records exactly `name` when the name has no space, and is never Skip |
| ImporterApp.MappingOf | importer.py:234-240 | the mapping has an entry for exactly the file columns |
| ImporterApp.MappingLastWins | importer.py:237-239 | a column's entry is its last drop-down's choice: Skip gives None |
| ImporterApp.MappingFromWindow | importer.py:237-239 | every entry comes from a drop-down of that column |
| ImporterApp.OnDone | importer.py:234-240 | the loop fills exactly that mapping |
| ImporterApp.MapColumns | importer.py:180-245 | the mapping when Apply Mapping was pressed, None when the window was closed |
| ImporterApp.Entries | importer.py:225 | the Skip entry followed by one typed label per table column |
| ImporterApp.EntryChoice | importer.py:225-239 | an offered entry records nothing or a column of the table |
| ImporterApp.MappedTargetsExist | importer.py:221-245 | every file column has an entry and every target is an existing table column |
| ImporterApp.RenameMap | importer.py:300 | the entries mapped to a column, as a rename map |
| ImporterApp.Skipped | importer.py:302 | the file columns mapped to None |
| ImporterApp.ApplyMapping | importer.py:300-302 | rename then drop keeps the row count |
| ImporterApp.ApplyMappingExact | importer.py:300-302 | with no target equal to a skipped name, exactly the unskipped columns remain, each under its mapped name |
| ImporterApp.ApplyMappingCollision | importer.py:300-302 | mapping a column onto the name of a skipped one drops both |
| ImporterApp.Prepared | importer.py:265-266 | the frame read, with sanitised headers, then cleaned; None when cleaning raises |
| ImporterApp.ImportRun | importer.py:249-329 | the Import button: missing entries warn; an unreadable extension or a preview that fails to clean fails before connecting; an unreachable server fails; otherwise the connected run (which fails on any refused statement, the existence check included) then the close. The preview read and the full read are separate inputs |
| ImporterApp.ConnectedRun | importer.py:276-326 | the queries, the block when the table has columns or is missing, then the commit and the row count of `full_df`; any refused statement, an existence check included, ends the run as failed |
| ImporterApp.Probe | importer.py:276-314 | the existence and catalog queries, then the block exactly when `existing_columns or not table_exists`; the second existence check only when no columns were found; a refused existence check stops with that query as the last statement |
| ImporterApp.BlockRun | importer.py:284-314 | the full read and its cleaning, cancel when the window over existing columns was closed, then the shaped frame written |
| ImporterApp.WriteRun | importer.py:307-314 | the existence check (a refusal stops there), CREATE and commit when the table is missing and its name valid, then the insert |
| ImporterApp.InsertRun | importer.py:95-109 | the batch, and on refusal every single row and a failure naming the refused rows |
| ImporterApp.Finish | importer.py:316-317 | the commit, then the row count of `full_df`, failing when it was never bound |
| ImporterApp.Looked | importer.py:276-280 | after an accepted existence check: the queries start with `OBJECT_ID`, are only existence and catalog queries, and include the catalog query exactly when the table exists |
| ImporterApp.Shaped | importer.py:290-305 | the mapped and custom-shaped frame keeps the row count |
| ImporterApp.ImportData | importer.py:249-329 | the step-by-step import computes `ImportRun` |
| ImporterApp.ImportConnected | importer.py:272-317 | the connected part computes `ConnectedRun` on the connection's log |
| ImporterApp.LoadAndWrite | importer.py:284-314 | the block computes `BlockRun` from the log before it |
| ImporterApp.CreateAndInsert | importer.py:307-314 | create-if-missing and insert compute `WriteRun` |
| ImporterApp.ImportRunSplit | importer.py:249-273 | without a connection nothing is sent; with one, the connected run followed by the close |
| ImporterApp.ImportRunNotConnected | importer.py:254-273 | a run that does not reach an open connection sends nothing and warns or fails |
| ImporterApp.ImportRunConnected | importer.py:272-329 | a run that connects is the connected part followed by the close of `finally` |
| ImporterApp.ImportRunSame | importer.py:254-273 | a run that does not connect does not depend on the mapping answer |
| ImporterApp.ClosedExactlyOnce | importer.py:327-329 | something is sent exactly when the connection was made, and then the close comes last and only once |
| ImporterApp.ConnectedRunOps | importer.py:276-326 | the existence query comes first, whether or not the server accepts it; no close or drop statement; a CREATE only of this table, only when missing and valid; no commit after a single-row insert |
| ImporterApp.ProbeOps | importer.py:276-314 | the same up to the end of the block |
| ImporterApp.BlockRunOps | importer.py:284-314 | the block extends the log without closing or dropping, creates only a missing validly-named table, and stops after single rows |
| ImporterApp.WriteRunOps | importer.py:307-314 | the same for create-and-insert |
| ImporterApp.InsertRunOps | importer.py:95-109 | insert adds only inserts, and single rows only as a failing stop |
| ImporterApp.CancelWritesNothing | importer.py:276-297 | the import is cancelled exactly when connected, the existence check is accepted, the table has columns, the full read cleans and the window was closed; then only the two queries and the close are sent |
| ImporterApp.CancelConnects | importer.py:276-329 | the same once the run has connected |
| ImporterApp.PreviewCleansFullDoesNot | importer.py:262-287 | a preview that cleans does not make the full read clean: a column read as floats from a missing first row, and as objects once the full read meets a `True` |
| ImporterApp.AllMissingCleans | importer.py:129-139 | a single column with every value missing reads and cleans, whatever its header |
| ImporterApp.StringLessFails | importer.py:137-139 | an object column with a present value and no string makes the cleaning of a read fail unless its sanitised name marks a phone column |
| ImporterApp.ConnectedCancel | importer.py:276-297 | the same for the connected part |
| ImporterApp.ProbeCanceled | importer.py:276-297 | the same up to the end of the block: only the cancelled window stops it as cancelled, after the two queries |
| ImporterApp.BlockRunCanceled | importer.py:284-297 | the block stops as cancelled exactly when the full read cleans, there are columns and no answer, sending nothing |
| ImporterApp.WriteRunStops | importer.py:307-314 | a create-and-insert that stops has failed |
| ImporterApp.AnswerOnlyForExistingColumns | importer.py:276-293 | the mapping answer matters only when the table exists with columns |
| ImporterApp.ProbeIgnoresAnswer | importer.py:283-293 | the same for the connected part |
| ImporterApp.EmptyCatalogFails | importer.py:276-329 | an existing table with an empty catalog always fails with nothing written: on a refused first or second existence check, after it and the close; otherwise after the queries, the commit and the close, on the unbound `full_df` exactly when the commit was accepted |
| ImporterApp.ConnectedEmptyCatalog | importer.py:276-317 | the same for the connected part |
| ImporterApp.CommitAfterBatch | importer.py:314-316 | an accepted commit after an accepted batch is a committed batch |
| ImporterApp.ImportedMeansCommitted | importer.py:314-318 | an import reported successful wrote all rows in one accepted batch, committed it, and closed |
| ImporterApp.ConnectedRunImported | importer.py:316-317 | the same for the connected part |
| ImporterApp.ProbeImported | importer.py:283-314 | a stopped block is never a success; a block that carries on with a frame ends in an accepted batch of all rows |
| ImporterApp.FinishImported | importer.py:316-317 | success is reported only after an accepted commit, with the full frame's row count |
| ImporterApp.BlockRunContinues | importer.py:284-314 | a block that carries on binds the full frame and ends in an accepted batch |
| ImporterApp.BlockRunStops | importer.py:294-297 | a block that stops has failed or was cancelled |
| ImporterApp.WriteRunContinues | importer.py:307-314 | create-and-insert carries on only after an accepted batch of the frame |
| Improved.SanitizeColumnName | improved_importing.py:40-41 | no space, dot, semicolon, hyphen, colon or capital remains; every character is from the input, `_` or a lowercase letter |
| Improved.Rewrite | improved_importing.py:41 | the five `replace` calls leave none of the rewritten characters |
| Improved.RewriteFixes | improved_importing.py:41 | text without those characters passes the `replace` calls unchanged |
| Improved.SanitizeStages | improved_importing.py:41 | the sanitiser is strip, then the `replace` calls, then `lower` |
| Improved.SanitizeStripped | improved_importing.py:41 | the same for an already-stripped name |
| Improved.SanitizeIdempotent | improved_importing.py:40-41 | twice is once for names whose only whitespace is the space |
| Improved.SanitizeNotIdempotent | improved_importing.py:41 | `":\ta"` gives `"\ta"`, which gives `"a"` |
| Improved.SanitizePunctuationExample | improved_importing.py:41 | `"E-Mail;"` becomes `"e_mail_"` |
| Improved.TextCell | improved_importing.py:51 | a missing cell stays missing; any other becomes its text, trimmed |
| Improved.TextColumn | improved_importing.py:51 | every cell of the column so mapped, name kept |
| Improved.ApplyMap | improved_importing.py:51 | every column so mapped, headers and rows kept |
| Improved.CleanColumn | improved_importing.py:48-51 | phone or tel cells become text that is never missing: one leading `ph:` prefix at the very start removed, with the whitespace after it, then trimmed; other cells go through the text map |
| Improved.CleanFails | improved_importing.py:48-50 | some phone or tel column shares its name with another column |
| Improved.Cleaned | improved_importing.py:46-52 | fails exactly when a phone column name is shared; otherwise headers and rows are kept |
| Improved.CleanedIsText | improved_importing.py:46-52 | every cell of the result is missing or trimmed text, and phone cells are never missing |
| Improved.CleanFailsLessOften | improved_importing.py:46-52 | this cleaning fails only where the first draft's does, and the first draft's extra failures are shared object-column names and string-less object columns |
| Improved.CleanDataframe | improved_importing.py:46-52 | the loop then the map compute `Cleaned` |
| Improved.MapCustomColumns | improved_importing.py:54-59 | the custom names present after renaming, all cells text |
| Improved.MapCustomAgrees | improved_importing.py:54-59 | equal to the first draft's remap followed by the text map |
| Improved.ReadFile | improved_importing.py:61-68 | fails exactly for an extension other than `.csv`, `.xlsx`, `.xls`; never uses xlrd |
| Improved.ReadFileAgrees | improved_importing.py:61-68 | accepts the same files as the first draft, differing only in the `.xls` engine |
| Improved.TableDefs | improved_importing.py:74-83 | the six custom definitions, or one NVARCHAR(MAX) per column in order |
| Improved.TableDefsRoundTrip | improved_importing.py:78-85 | the CREATE text reads back as those definitions |
| Improved.ForceOps | improved_importing.py:70-88 | drop-if-exists, commit, create, commit |
| Improved.ForceRun | improved_importing.py:70-88 | sends a prefix of drop-if-exists, commit, create, commit, ending at the first refusal, which it raises |
| Improved.ForceRunAccepted | improved_importing.py:70-88 | each statement follows accepted ones, and it finishes exactly when all four are accepted |
| Improved.CreateTableForce | improved_importing.py:70-88 | the method computes `ForceRun` on the connection |
| Improved.Prepared | improved_importing.py:123-128 | fails exactly when cleaning the sanitised frame fails; rows kept |
| Improved.ConnectedRun | improved_importing.py:130-136 | the conditional drop comes first; the result is imported or failed with a refusal |
| Improved.InsertRun | improved_importing.py:90-106 | after the batch: success is the batch and one commit; otherwise a failure |
| Improved.WriteOps | improved_importing.py:70-106 | the four statements of the forced create, then the batch and its commit |
| Improved.ImportRun | improved_importing.py:114-149 | missing entries warn; an unreadable extension or a failed cleaning fails before connecting; an unreachable server fails; otherwise the connected run then the close |
| Improved.ImportData | improved_importing.py:114-149 | the step-by-step import computes `ImportRun` |
| Improved.ImportConnected | improved_importing.py:130-136 | the connected part computes `ConnectedRun` |
| Improved.InsertRunOps | improved_importing.py:90-106 | only inserts and commits; single rows only in a failure, and no commit after them |
| Improved.ForceOpsPrefix | improved_importing.py:71-88 | in any prefix of the four statements, a CREATE is third, after drop and commit |
| Improved.ForceRunOps | improved_importing.py:71-88 | the same for what `create_table_force` sends |
| Improved.ConnectedRunShape | improved_importing.py:134-136 | no close; a CREATE only after the committed drop |
| Improved.ConnectedRunRows | improved_importing.py:135-136 | single rows only in a batch failure, never followed by a commit |
| Improved.ConnectedImported | improved_importing.py:130-138 | imported exactly when all statements are accepted, then exactly those |
| Improved.ImportRunSplit | improved_importing.py:114-149 | without a connection nothing is sent; with one, the connected run then the close |
| Improved.ImportRunNotConnected | improved_importing.py:115-131 | a run that does not reach an open connection sends nothing and warns or fails |
| Improved.ImportRunConnected | improved_importing.py:130-149 | a run that connects is the connected part on the prepared frame followed by the close |
| Improved.ImportedExactly | improved_importing.py:114-149 | success exactly when connected and everything accepted; then drop, commit, create, commit, batch, commit, close |
| Improved.ClosedExactlyOnce | improved_importing.py:144-149 | something is sent exactly when connected, then the close comes last, once |
| Improved.DropBeforeCreate | improved_importing.py:134 | the first statement is the conditional drop, and a CREATE only follows the committed drop |
| Improved.FallbackNeverCommitted | improved_importing.py:99-106 | single-row inserts happen only in a failed import and are never committed |
| Improved.FailureKinds | improved_importing.py:114-149 | never cancelled; a failure is the format, a shared name, the connection, a refusal or the batch |
| Script.ScriptCell | import_excel_to_sql.py:8-11 | missing exactly when the shown text is `nan`, `NaN` or `None`; otherwise that text trimmed |
| Script.MissingStaysMissing | import_excel_to_sql.py:8-10 | missing, `"None"` and `"nan"` all end missing |
| Script.PaddedNoneIsText | import_excel_to_sql.py:10-11 | `" None "` stays the text `"None"`, because the replace runs before the strip |
| Script.ScriptCellAgrees | import_excel_to_sql.py:8-11 | outside those texts, the same as the GUI draft's text map |
| Script.ScriptColumn | import_excel_to_sql.py:11 | every cell so cleaned, name kept |
| Script.ScriptClean | import_excel_to_sql.py:8-11 | every column so cleaned, headers and rows kept |
| Script.Rewrite | import_excel_to_sql.py:16-21 | none of space, dot, semicolon, hyphen, colon remain |
| Script.SafeName | import_excel_to_sql.py:15-24 | no rewritten character or capital remains; every character is from the input, `_` or lowercase |
| Script.SafeNameAgrees | import_excel_to_sql.py:15-24 | equal to the GUI draft's sanitiser when the stripped name has no space |
| Script.RewriteAbsent | import_excel_to_sql.py:16-21 | text without those characters is unchanged |
| Script.SafeNameKeepsPlainNames | import_excel_to_sql.py:15-24 | a name already in `[a-z0-9_]` is unchanged |
| Script.SafeNameStages | import_excel_to_sql.py:15-24 | strip, then the `replace` calls, then `lower` |
| Script.ScriptFrame | import_excel_to_sql.py:7-27 | one safe name per column in order, all cells text |
| Script.TextDefs | import_excel_to_sql.py:41 | one TEXT definition per column, in order |
| Script.TextDefsRoundTrip | import_excel_to_sql.py:41-46 | the CREATE text reads back as those definitions |
| Script.InsertPlaceholders | import_excel_to_sql.py:52-54 | one `?` per safe column |
| Script.ScriptOps | import_excel_to_sql.py:47-57 | the guarded CREATE, commit, one batch of every row, commit |
| Script.ScriptRun | import_excel_to_sql.py:30-61 | a failure is the connection or a refused statement |
| Script.Run | import_excel_to_sql.py:7-61 | the script, step by step, computes `ScriptRun` |
| Script.DoneExactly | import_excel_to_sql.py:30-61 | succeeds exactly when the server is reachable and accepts the guarded CREATE, commit, single batch, commit; then sends exactly those and the close |
| Script.NeverDestroys | import_excel_to_sql.py:40-57 | no drop, no unguarded CREATE, no single-row insert; a failure leaves the connection unclosed |

## Left out

- The Tk windows, the preview table (`update_preview`), `browse_file`, the
  status label and message boxes are presentation. The model records only
  the outcome the user is told.
- pandas' readers and dtype inference are inputs. The frame pandas would
  read is a parameter, and each column carries a dtype tag.
- Floating point: `NaN` handling of `where` on float columns, and `str()`
  of floats or dates. A cell is missing, text or an opaque value with a
  fixed text.
- `lower()` is modelled for ASCII letters only.
- The database is an oracle. Partial effects of a refused `executemany`
  and rollback on close are not modelled.
- `config.json`, the connection string and credentials, logging, `print`
  and the PIL logo are bootstrapping and I/O.
- The script's fixed CSV path is not modelled. Its contents are a parameter.
- `SQLImporter.drop_table` is modelled (`ImporterApp.SQLImporter.DropTable`),
  but `import_data` never calls it.
- ImporterApp.ApplyMappingExact: proved only when no mapped target equals
  a skipped name. `ImporterApp.ApplyMappingCollision` shows what happens
  otherwise.
- Improved.SanitizeIdempotent: proved only for names whose only whitespace
  is the plain space. `Improved.SanitizeNotIdempotent` shows a tab breaks it.
- Importer.CleanFails: every object column with a present value and no
  string counts as refused. pandas also accepts some string-less columns,
  those whose values it infers as "mixed" (for example booleans together
  with floats); a cell here records no such kind.
- ImporterApp.BlockRun: the full read fails only on its extension. A file
  whose rows past the preview pandas cannot parse, which fails the run
  after the queries were sent, is not modelled: the parser is an input.
- ImporterApp.ConnectedRunOps: "no drop" and "only this table is
  created" are about the statements as the code builds them. The table
  name goes into the `OBJECT_ID` text unescaped, so a crafted name can
  carry further SQL inside that one statement. What the server does with
  such a text is left to the server oracle, which may accept or refuse it.
- ImporterApp.MappingLastWins: states the entry for a column's last
  occurrence in the window only.
- Importer.MapCustomOrder: the order is proved only for distinct renamed
  headers. With duplicates, pandas selects every column of a name.
