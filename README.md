# Student performance backend: a verified model

This project models the core of a small Express + SQLite backend that serves
a dataset of secondary-school students (one `Student` table of 33 data
columns plus an `AUTOINCREMENT` id). It covers:

- the `Student` schema and what SQLite does with the statements the code sends
  (`schema.dfy`);
- the six read endpoints: distinct schools, all students, students by school,
  students by gender, one student's grades and one school's grades
  (`reads.dfy`);
- the create and update handlers, as a `StudentTable` class whose `rows` map
  and `nextId` counter the methods change in place. Each method is proved
  against a pure step function (`CreateStep`, `UpdateStep`), and the
  handlers' promises are lemmas about those functions (`store.dfy`);
- the header-driven `INSERT` the one-time CSV import builds for each record:
  the column list, the `:key` placeholders and the named-parameter map
  (`csv_import.dfy`);
- request bodies as JSON values with JavaScript truthiness and the object
  spread `{ id, ...body }` (`json.dfy`), plus the list join, the decimal
  printing and the id parsing the handlers rely on (`text.dfy`). `http.dfy`
  holds the response type.

Storage failures cannot be seen from the code, so each handler takes
`fault: Option<string>`: `Some(message)` is an error the engine reports and
the handler answers 500 with that message. There is no clock, randomness or
network in the core.

A few points where the code's behaviour differs from a natural reading of
its documentation. The model follows the code on each:

- `GET /api/performance/:id` for an unknown id answers `{}`, not
  `{ performanceData: null }`: the code sends `{ performanceData: undefined }`,
  and serialisation drops the key.
- The create and update answers echo `{ id, ...body }` rather than the stored
  record. A body that carries its own `id` therefore overrides the assigned id
  in the answer. The update answer's `id` is the path parameter, a string.
- `GET /api/schools` lists every distinct `school` value, including `null`
  when some row has none.
- The create statement as written can never succeed (see Findings).

## Model

| member | source | states |
|---|---|---|
| Json.FalsyValues | app.js:104 | `!x` is true for exactly five values: a missing key, `null`, `false`, `0` and `""`. |
| Json.Truthy | app.js:104 | Definition of JavaScript's truthiness for a property read. Its meaning is stated by FalsyValues, and it is used by HasRequired (lines 104 and 172). |
| Json.Lookup | app.js:113-145 | A property read is absent exactly when no entry has that key. Otherwise it yields an entry's value; with distinct keys, the value of the entry with that key. |
| Json.Get | app.js:101-104 | A property read on a body is present exactly when the body is an object with that key. A present value belongs to an entry with that key; with distinct keys it is that entry's value. |
| Json.Without | app.js:159 | Removing one key keeps exactly the other entries and drops that key. |
| Json.Put | app.js:159 | Defining a property: for an existing key the keys stay the same, in the same order; a new key is appended last. Afterwards the key reads as the new value, and every other key reads as before. |
| Json.Spread | app.js:157-160 | Definition of `{ ...o, ...src }` as one Put per entry of `src`, in order. Its meaning is stated by SpreadAfterId and EchoShape. |
| Json.IdOr | app.js:157-160 | Definition: the body's `id` when it has one, else the given value. EchoShape and EchoLookup state that this is the echoed `id`. |
| Json.Echo | app.js:157-160 | Definition of the answer object `{ id: x, ...body }` (also lines 232-235). Its meaning is stated by EchoShape and EchoLookup. |
| Json.SpreadAfterId | app.js:157-160 | Spreading distinct-keyed entries after `id` and an id-free prefix gives `id` first (the body's own `id` when present), then the prefix, then the body's other entries in order. |
| Json.EchoShape | app.js:157-160 | `{ id: x, ...body }` is `id` (the body's `id` if it has one, else `x`) followed by the body's other entries in order. |
| Json.EchoLookup | app.js:154-161 | In the echoed object every body key maps to the body's value; `id` maps to the body's `id` when present, otherwise to the assigned id. |
| Text.Join | database.js:62 | Definition of `keys.join(', ')`. Its meaning is stated by SplitJoin, which inverts it. |
| Text.SplitJoin | database.js:62 | Splitting `keys.join(', ')` at `", "` gives the keys back, for any non-empty key list whose keys do not contain the separator. |
| Text.NatToString | app.js:148-150 | The decimal form SQLite prints in its messages is non-empty, all digits, and has no leading zero. |
| Text.ParseId | app.js:72 | The path parameter names an integer exactly when it is a non-empty string of decimal digits; the integer is non-negative. |
| Text.ParseNatToString | app.js:72 | Printing an id and reading it back as a path parameter gives the same id. |
| StudentSchema.SchemaShape | database.js:14-48 | The table declares 33 distinct data columns, in this order, besides `id`; the handler column constants name `school`, `sex`, `age`, `G1`, `G2` and `G3`. |
| StudentSchema.RowObject | app.js:34-40 | Definition of the object `SELECT *` yields for a row. RowObjectFields states what each property reads as; ObjectsDistinct and AllListed state what a listing holds. |
| StudentSchema.RowObjectFields | app.js:34-40 | On a row object, `id` reads as the row's id and each of the 33 column names reads as that column's value. |
| StudentSchema.Grades | app.js:72-79 | Definition of the object `SELECT G1, G2, G3` yields for a row. GradesFields, PerformanceOf and SchoolPerformanceRows state its meaning. |
| StudentSchema.GradesFields | app.js:72-79 | A grade object has exactly the keys `G1`, `G2` and `G3`, in that order, and each reads as the row's column of that name. |
| StudentSchema.FirstUnknown | app.js:148-150 | The name SQLite reports in `table Student has no column named X`: none exactly when every name is a column. Otherwise it is a listed name that is not a column, and every name before it is a column, so it is the first such name. |
| StudentSchema.IsColumn | database.js:14-48 | Definition: a name is a column of the table when it is `id` or one of the 33 data columns. Execute and FirstUnknown state how it decides preparation. |
| StudentSchema.Execute | app.js:110-151 | An `INSERT` prepares iff its column list is non-empty, every listed name is a column, the placeholder count equals the column count, and no more values are bound than there are placeholders. An `UPDATE` prepares iff it assigns at least one name, every assigned name and the key are columns, and the binding count fits. Any other statement is rejected; the message of the one rejection the code meets is stated by AppInsertRejected. |
| StudentSchema.IndexOf | app.js:111 | The first position of a name in a column list, or the list's length when the name is absent. |
| StudentSchema.ValueFor | app.js:110-146 | Definition of the value an `INSERT` stores in a named column. InsertRowField, ValueForDistinct and InsertAllColumns state its meaning. |
| StudentSchema.InsertRow | app.js:110-146 | Definition of the row an `INSERT` stores. InsertRowField states each column, and InsertAllColumns and CreateStores state the row the create handler stores. |
| StudentSchema.InsertRowField | app.js:110-146 | A column the `INSERT` does not list is `NULL`. A column listed at position `j` of a list without repeats holds the value bound at `j`, or `NULL` when fewer values were bound. |
| StudentSchema.ValueForDistinct | app.js:111 | In a column list without repeats, the column at position `c` takes the value bound at position `c`. |
| StudentSchema.UpdateRow | app.js:178-215 | Definition of the row an `UPDATE` leaves. UpdateAllColumns and UpdateReplaces state what the update handler leaves. |
| StudentSchema.InsertAllColumns | app.js:111-145 | An `INSERT` naming all 33 columns in declaration order stores the bound values as they come. |
| StudentSchema.UpdateAllColumns | app.js:179-213 | An `UPDATE` assigning all 33 columns in order replaces every column of the row (a full replace, not a patch) and keeps the id. |
| Json.Keys | database.js:62 | Definition of `Object.keys` on an entry list (no contract of its own). ColumnListKeys and PlaceholdersAligned state what it gives. |
| CsvImport.Named | database.js:63 | Definition of a placeholder, `':' + key`. NamedInjective states its meaning: distinct keys give distinct placeholders. |
| CsvImport.NamedInjective | database.js:63-64 | Two keys with the same placeholder are the same key, so the parameter map cannot merge two headers. |
| CsvImport.ColumnList | database.js:62 | Definition of the column list `Object.keys(row).join(', ')`. Its meaning is stated by ColumnListKeys. |
| CsvImport.Placeholders | database.js:63 | One placeholder per key, in key order, each `':' + key`. |
| CsvImport.Params | database.js:64 | The parameter map's keys are exactly the placeholders. Each placeholder maps to the value of the last entry with that key. |
| CsvImport.ColumnListKeys | database.js:62 | The column list splits back into the record's keys, in order, and has as many columns as there are placeholders. |
| CsvImport.PlaceholdersAligned | database.js:62-63 | Placeholder `i` names column `i`, and the two counts are equal. |
| CsvImport.EveryPlaceholderBound | database.js:63-64 | The set of placeholders equals the set of parameter-map keys, so every named parameter is bound and nothing else is. |
| CsvImport.ParamsPerHeader | database.js:64 | With distinct headers the map has exactly one entry per record entry, `':' + key` to that entry's value. |
| CsvImport.ParamKeysCount | database.js:64 | With distinct headers there are as many distinct placeholder names as entries. |
| CsvImport.ImportInsert | database.js:67-70 | Definition of the import statement: the record's keys as columns, one placeholder per key. ImportInsertPrepares and ColumnListKeys state its meaning. |
| CsvImport.ImportInsertPrepares | database.js:67-70 | The import statement never has a count mismatch. It prepares exactly when the record has at least one header and every header is a column; a record with no header is the syntax error `INSERT INTO Student () VALUES ()`. |
| CsvImport.ImportBindings | database.js:64-70 | Definition of the value each placeholder position receives from the parameter map. ImportBindingsCells states its meaning. |
| CsvImport.ImportBindingsCells | database.js:63-70 | With distinct headers, the placeholder at position `j` receives the cell of entry `j`, as text. |
| CsvImport.ImportedRow | database.js:67-70 | The imported row has the assigned id and all 33 columns. |
| CsvImport.ImportedColumns | database.js:62-70 | Each column named by a header holds that header's cell as text, whatever the header order. Every other column is `NULL`. |
| Http.Error | app.js:25-26 | `res.status(code).json({ error: message })`: the answer has that status, and its body has the single key `error`, which reads as the message. |
| Http.Ok | app.js:28 | Definition of `res.json(body)`: Express's default status 200 and the body. The handlers' contracts state status and body through it. |
| StudentQueries.MinOf | app.js:34 | The smallest id of a non-empty set of ids. |
| StudentQueries.Ascending | app.js:34 | The ids of the table in strictly ascending order, each exactly once. |
| StudentQueries.AllStudents | app.js:34-40 | `SELECT *` returns every stored row, and nothing else, once each, in ascending id order. |
| StudentQueries.Where | app.js:46 | A `WHERE column = ?` filter keeps exactly the rows whose column equals the value, and keeps their order. |
| StudentQueries.Selection | app.js:44-65 | Definition of `SELECT * ... WHERE column = ?` as a filter of the scan (also lines 86-95). Its meaning is stated by SelectionExactly. |
| StudentQueries.SelectionExactly | app.js:44-64 | The by-school and by-gender selections hold exactly the stored rows with that value, each once, in ascending id order. |
| StudentQueries.Column | app.js:28 | Definition of `rows.map(row => row.school)`. ColumnValues and ColumnOfScan state which values it holds. |
| StudentQueries.Dedupe | app.js:23 | `DISTINCT` keeps each value exactly once, no more and no fewer, in order of first appearance. |
| StudentQueries.SchoolList | app.js:22-30 | The schools list holds each `school` value of the table exactly once, and no other value. |
| StudentQueries.ColumnValues | app.js:23-28 | A value appears in the scanned column exactly when some stored row holds it. |
| StudentQueries.ColumnOfScan | app.js:23-28 | For any scan that holds every stored row and only stored rows, a value is in its column exactly when some stored row holds it. |
| StudentQueries.RowObjects | app.js:39 | Definition of the list of row objects. AllListed, ObjectsOfScan and SelectedListed state what it holds. |
| StudentQueries.GradeList | app.js:95 | Definition of the list of grade objects. SchoolPerformanceRows and GradesOfSelection state what it holds. |
| StudentQueries.Matches | app.js:72 | Definition: `WHERE id = ?` with a path parameter finds a row when the parameter is a decimal integer that is a stored key (also line 214). PerformanceById states that a stored id's decimal form always matches. |
| StudentQueries.PerformanceOf | app.js:72-79 | A row is found exactly when the parameter Matches a stored row; what is found is that row's grades. |
| StudentQueries.PerformanceById | app.js:72-79 | A stored student's decimal id Matches, and its grades are found under it. A parameter that is empty or has a non-digit finds nothing. |
| StudentQueries.ListBody | app.js:28 | The answer `{ key: [...] }` of the list endpoints (also lines 39, 51, 63 and 95): an object whose only key is `key`, which reads as the list. |
| StudentQueries.GetSchools | app.js:22-30 | On a storage error: 500 with the engine's message. Otherwise: 200 with `{ schools: [...] }`, the distinct school list. |
| StudentQueries.GetStudents | app.js:33-41 | On a storage error: 500 with the message. Otherwise: 200 with `{ students: [...] }`, every stored row. |
| StudentQueries.GetStudentsBySchool | app.js:44-53 | On a storage error: 500 with the message. Otherwise: 200 with the rows whose `school` is the parameter. |
| StudentQueries.GetStudentsByGender | app.js:56-65 | On a storage error: 500 with the message. Otherwise: 200 with the rows whose `sex` is the parameter. |
| StudentQueries.GetPerformance | app.js:68-80 | On a storage error: 500 with the message. Otherwise 200: `{ performanceData: grades }` when the id matches a row, `{}` when it does not. |
| StudentQueries.GetSchoolPerformance | app.js:83-97 | On a storage error: 500 with the message. Otherwise: 200 with one grade triple per row of that school. |
| StudentQueries.ObjectsDistinct | app.js:34-40 | Rows in ascending id order give pairwise distinct JSON objects, because each object names its own id first. |
| StudentQueries.AllListed | app.js:33-41 | The `students` list has one object per stored row: every row's object is in it, every entry is a stored row's object, and none appears twice. |
| StudentQueries.ObjectsOfScan | app.js:34-40 | A scan that holds every stored row and only stored rows gives exactly the stored rows' objects. |
| StudentQueries.SelectedListed | app.js:44-65 | The by-school and by-gender lists hold the object of every stored row with that value, only such objects, and none twice. |
| StudentQueries.ObjectsOfSelection | app.js:46-58 | For any exact selection, the object list contains each selected row's object and nothing else. |
| StudentQueries.FilteredAreSubsets | app.js:34-58 | The full listing has one entry per stored row, and each filtered listing is a sub-list of it, no longer than the table. |
| StudentQueries.SchoolPerformanceRows | app.js:86-95 | The school performance list holds the grades of every student of that school, and only grades of students of that school. |
| StudentQueries.GradesOfSelection | app.js:86-95 | For any exact selection, the grade list contains each selected row's grades and nothing else. |
| StudentStore.StatementsFollowSchema | app.js:111-213 | Both statements list the 33 columns in declaration order and bind the body property of the same name to each. |
| StudentStore.AppInsertRejected | app.js:111 | As written, the create statement is refused with `SQLITE_ERROR: 32 values for 33 columns`, whatever is bound. |
| StudentStore.CreateInsertPrepares | app.js:111-145 | With 33 placeholders the create statement prepares and takes the 33 bound values. |
| StudentStore.AppUpdatePrepares | app.js:179-214 | The update statement prepares with its 33 values plus the id, so its prepare-failure branch cannot be taken. |
| StudentStore.HasRequired | app.js:104 | Definition of the check `!b.school || !b.sex || !b.age` failing (also line 172). FalsyFieldRejected states which bodies it refuses. |
| StudentStore.Bindings | app.js:112-146 | Definition of the bound value list `[b.f0, b.f1, ...]`. StudentRow states its meaning: each column holds the same-named body property or `NULL`. |
| StudentStore.FieldsOf | app.js:159 | Definition: an object body's entries, none for anything else. ConfirmationEcho states what the spread then echoes. |
| StudentStore.Confirmation | app.js:154-161 | Definition of the answer `{ success: true, message, student: { id, ...body } }` (also lines 229-236). ConfirmationEcho states what each key reads as. |
| StudentStore.Inv | database.js:15 | Definition of the table invariant. Rows are keyed by their id and have 33 columns, every id is positive and below the counter, and the counter is at most one past `MaxRowId`, the largest rowid SQLite can assign. CreateKeepsInv and UpdateKeepsInv prove that every step keeps it. |
| StudentStore.StudentRow | app.js:112-146 | The row a body describes: the given id, and each column holds the same-named body property or `NULL`. |
| StudentStore.CreateStep | app.js:100-164 | It answers 200 exactly when the body is valid, the statement prepares, there is no storage error, and an id is left. Any other answer leaves the table unchanged. The responses are: 400 for an invalid body; 500 with SQLite's message, the storage message or `SQLITE_FULL` otherwise. The counter never decreases. |
| StudentStore.UpdateStep | app.js:167-239 | It answers 200 exactly when the body is valid, there is no storage error, and the id Matches a stored row. Any other answer leaves the table unchanged: 400 for an invalid body, 500 for a storage error, 404 `Student not found` for an unmatched id. The counter is untouched. |
| StudentStore.FalsyFieldRejected | app.js:104-107 | A missing, `null`, `false`, `0` or `""` `school`, `sex` or `age` is refused with 400 by both handlers, and the table is unchanged (lines 104-107 and 172-175). |
| StudentStore.CreateKeepsInv | database.js:15 | Every create keeps the invariant. Rows are keyed by their id and have 33 columns, every id is positive and below the counter, and the counter is at most one past `MaxRowId`, the largest rowid SQLite can assign. |
| StudentStore.UpdateKeepsInv | app.js:178-215 | Every update keeps the same invariant. |
| StudentStore.StoreFresh | database.js:15 | Storing a row under the counter and advancing the counter keeps the invariant. |
| StudentStore.StoreOver | app.js:178-215 | Overwriting a stored row with a row of the same id keeps the invariant. |
| StudentStore.CreateStores | app.js:110-161 | With the corrected statement (one `?` per column), a valid create with no storage error stores exactly one new row under a fresh id larger than every id in the table. The row holds the body's values, with absent keys `NULL`. Nothing else changes, and the answer is 200 with the echo. As written, nothing is stored (AsWrittenCreateNeverStores). |
| StudentStore.CreateSucceeds | app.js:147-161 | When the statement prepares, the successful create answers 200 and stores the row under the counter, then advances it. |
| StudentStore.CreateThenRead | app.js:110-161 | After a create with the corrected statement, the table has one more row, the new row is listed by `GET /api/students`, and its grades are found under the assigned id. The answer reports a different `id` when the body carries its own. |
| StudentStore.ConfirmationEcho | app.js:154-161 | The answer has `success: true` and the message. Its `student` object echoes every body key with the body's value, including keys that are not columns; `id` is the body's own `id` when present, else the assigned one. |
| StudentStore.AsWrittenCreateNeverStores | app.js:111 | As written, create never changes the table: every valid body gets 500 with the count-mismatch message. |
| StudentStore.UpdateReplaces | app.js:178-236 | Updating a stored id replaces all 33 columns with the body's values (absent keys `NULL`) and keeps the id, every other row and the counter. It answers 200 with `{ id: param, ...body }`. |
| StudentStore.UpdateSucceeds | app.js:216-236 | When the id matches a row, the successful update overwrites that row and answers 200. |
| StudentStore.UpdateIdempotent | app.js:178-215 | Repeating an update with the same id and body leaves the same table as doing it once. |
| StudentStore.SameUpdate | app.js:179 | Applying the same full-row `UPDATE` twice gives the same row as once. |
| StudentStore.RewriteSame | app.js:178 | Proof helper, a general fact about maps used by UpdateIdempotent: writing back the value a key already holds leaves the map unchanged. |
| StudentStore.StudentTable.constructor | database.js:13-15 | A new table is empty and its first id will be 1. |
| StudentStore.StudentTable.Insert | app.js:104-161 | Runs the create logic for a given statement. The response and the new rows and counter are exactly `CreateStep` of the old table, and the invariant is kept. |
| StudentStore.StudentTable.CreateAsWritten | app.js:100-164 | `POST /api/students` as written (32 placeholders): the step is `CreateStep` with that statement. |
| StudentStore.StudentTable.Create | app.js:100-164 | `POST /api/students` with one placeholder per column: the step is `CreateStep` with that statement. |
| StudentStore.StudentTable.Update | app.js:167-239 | `PUT /api/students/:id`: the response and the new rows and counter are exactly `UpdateStep` of the old table, and the invariant is kept. |

## Left out

- Express routing, the JSON body parser, the CORS middleware, port selection and `listen`: framework plumbing. A handler is a function of its path parameter and parsed body.
- The catch-all error middleware (a malformed body yields 500 `Something went wrong!`) and all console logging: not part of the handlers' logic.
- The CSV stream, `csv-parser`, `db.close` and the `CREATE TABLE` callback: I/O and a foreign parser. Only the statement builder and the row it stores are modelled. The import's insert errors, if one happens, are only logged.
- The asynchronous callbacks of `sqlite3`: each handler is one sequential step that gives exactly one response.
- Storage and I/O failures: they are the `fault` parameter, not derived from anything.
- Value conversion when binding and storing: the `sqlite3` driver binds a boolean as 1 or 0 and an object or array as its `toString()` text (`[object Object]`, or the comma-joined items), and SQLite's column affinity may turn a numeric string into a number. Column values are stored and compared as the JSON values bound; the declared `TEXT`/`NUMERIC` kinds in `StudentSchema.Declared` are recorded but not applied.
- StudentQueries.PerformanceOf: weaker than SQLite's coercion of the id parameter. Only a plain string of decimal digits names an id; forms such as `+5` or `5.0`, which SQLite also converts, are treated as matching nothing.
- StudentStore.UpdateStep: it matches the path parameter with the same parsing, so `PUT /api/students/5.0` answers 404 in the model, while the code's `WHERE id = '5.0'` updates row 5.
- StudentQueries.AllStudents: SQLite gives no order without `ORDER BY`; the model fixes the order of a plain table scan, ascending rowid. `DISTINCT` is modelled as keeping first appearances in that order.
- StudentSchema.IsColumn: column names are compared case-sensitively, while SQLite ignores case.
- Json: numbers are exact reals, not IEEE-754 doubles. Rounding, precision loss and values such as NaN or infinity are not modelled; the handlers only test numbers for zero and pass them on.
- Json.Put: JavaScript lists integer-like keys (`"1"`) before other keys; the model keeps plain insertion order for every key.
- Json.EchoLookup: a parsed body is assumed to have distinct keys (the parser keeps one entry per key).
- Table keys are natural numbers, the ids `AUTOINCREMENT` assigns; ids given explicitly by a client or a CSV `id` column are not modelled.
- CsvImport.ImportedRow: the id the import's insert receives is a parameter. Headers that would not parse as SQL identifiers are not modelled.
- StudentStore.UpdateStep: it has no prepare-failure branch, because StudentStore.AppUpdatePrepares proves the statement always prepares.
- Delete, filter, grade-average and lunch-grouping endpoints: they are not in the code of app.js.

## Findings

| source | as written | input that shows it | evidently intended | confidence | as-written member | corrected member |
|---|---|---|---|---|---|---|
| app.js:111 | The `INSERT` names 33 columns but its `VALUES` list has 32 `?`. SQLite refuses to prepare it, so every valid create answers 500 `SQLITE_ERROR: 32 values for 33 columns` and stores nothing. | `POST /api/students` with body `{"school":"GP","sex":"F","age":17}` | one `?` per column: the row is stored under a fresh id and the answer is 200 with the echo | high; not executed | StudentStore.AsWrittenCreateNeverStores | StudentStore.CreateStores |
