# Field track CSV ingestion — a Dafny model

This project models the CSV ingestion path of a farm-field track-monitoring web
application, together with the two database tables it writes.

A user uploads a CSV file of GPS and sensor readings. The upload works as follows:

- The upload is accepted only when a file is present and its name ends in ".csv".
- A field ("地块") is created, named after the file with ".csv" removed.
- Every row is converted into a track record. A row that fails is logged as one
  numbered message and does not stop the batch.
- The good records are bulk-inserted.
- The response is a plain-text report: the success count, the error count, and
  the messages.

Deleting a field removes its track points through the cascading foreign key.
An unknown name is answered with 404.

The modules follow the program:

- `Basics`: Option and Result, a Python `float` (finite, ±inf, NaN), and a
  timezone-aware time value.
- `Text`: the Python string operations the path relies on, each with the
  function that undoes it or characterises it:
  - decimal rendering of integers;
  - `str.strip`, with Python's whitespace set;
  - `str.upper`;
  - `str.replace`, both whole-string and first occurrence;
  - `"\n".join`.
- `Models`: the `FieldInfo` and `IrregularBlock` tables of
  `app_name/models.py`, as the class `FieldStore`. Its invariant `Valid()`
  states:
  - names are unique and at most 100 characters;
  - `file_index` is auto-assigned and ascending;
  - point ids are ascending;
  - every track point references an existing field.

  `Models` also holds the two `__str__` formats, each with a reader that
  inverts it.
- `Parsing`: `parse_bool`, `parse_int`, the "GPS时间" separator normalisation,
  and the conversion of one row. Columns are read in the order Python
  evaluates them, and the first exception decides the row's error.
- `RowLoop`: the row loop as a method proved against recursive specification
  functions, with the counting and ordering lemmas about those functions. It is
  stated for any row type, conversion and message builder. The upload uses it
  with the row conversion of `Parsing` and the message of `Import`.
- `Import`: the numbered error message, the facts about the upload's error
  log, and the report with a reader that inverts it.
- `Views`: the two endpoints that change the store, `upload_csv` and
  `delete_field`.

The library calls are parameters of the model, supplied as the `Library` and
`Database` values:

- `float()`, `datetime.fromisoformat` and `datetime.strptime`;
- the database's refusal text and the bulk-insert failure.

Only their results and error texts matter to the upload, so each is an
arbitrary function or option.

The upload creates the field on every call, not only the first time a name is
seen. A second upload under the same name therefore fails at the unique
constraint with 500 "服务器处理错误: …" before any row is read.

## Model

| member | source | states |
|---|---|---|
| `Views.UploadCsv` | app_name/views.py:127-225 | No file, or a name not ending in ".csv", gives 400 "请上传有效的 CSV 文件" and leaves both tables unchanged. A name over 100 characters or already taken gives 500 "服务器处理错误: " plus the database's text, with no field and no point added. Otherwise exactly one field is appended, named after the file. A reader failure gives 500 and adds no points. A failed bulk insert, tried only when there are records, gives 500 "数据库写入失败: …" and adds no points. Otherwise the records are stored under the new field and the body is the report of the row loop's `objs` and `error_log`. |
| `Views.IsCsvUpload` | app_name/views.py:132 | The upload gate: a file is present and its name ends in ".csv". `Views.UploadCsv` answers 400 exactly when it fails. |
| `Views.FieldNameOf` | app_name/views.py:137 | The field name: the file name with every ".csv" removed. `Views.FieldNameKeepsPlainText` and `Views.FieldNameRemovesFirst` state its result. |
| `Views.FieldNameStripsExtension` | app_name/views.py:132-137 | A file named `base + ".csv"`, where ".csv" occurs nowhere in `base` (dots allowed, as in "plot.v2"), passes the gate and names the field `base`. |
| `Views.FieldNameKeepsPlainText` | app_name/views.py:137 | A name in which ".csv" does not occur is kept whole. |
| `Views.FieldNameRemovesFirst` | app_name/views.py:137 | For `a` free of ".csv", `a + ".csv" + b` names the field `a` followed by the field name of `b`. With the previous row, every ".csv" in the name is removed, scanning left to right. |
| `Views.FieldNameExample` | app_name/views.py:137 | "plot.csv" names the field "plot". |
| `Views.FieldNameDoubleSuffix` | app_name/views.py:137 | "a.csv.csv" names the field "a": both occurrences go, not only the suffix. |
| `Views.DeleteField` | app_name/views.py:405-422 | An existing name gives 200 "地块删除成功". The field and every point referencing it are removed, and all other fields and points stay, in order. An unknown name gives 404 "地块不存在" and changes nothing. |
| `Models.FieldStore.Valid` | app_name/models.py:40-42 | The table constraints: `file_name` unique and at most 100 characters, `file_index` auto-assigned and ascending, point ids ascending, every point's `field_name` an existing field (models.py:18). Every `FieldStore` method keeps it. |
| `Models.FieldStore.CreateField` | app_name/models.py:40-42 | Insert fails exactly when the name is over 100 characters or already taken; on success the new field gets the next `file_index` and is appended; points never change; the invariant (unique names, ascending indices) is kept. |
| `Models.FieldStore.BulkCreate` | app_name/views.py:210-213 | Appends one track point per record, in order, with consecutive fresh ids, all referencing the given existing field. |
| `Models.FieldStore.DeleteField` | app_name/models.py:18 | Found iff the name exists. Fields and points become the old ones without that name. No point references the name afterwards. The names are the old names minus this one. The invariant is kept. |
| `Models.FieldStore.Listing` | app_name/models.py:41-48 | The fields are listed exactly, in strictly ascending `file_index` order. Each listed field's name is a stored name. |
| `Models.FieldsWithout` | app_name/models.py:18 | A field survives the delete iff it was there and its name is not the deleted one. |
| `Models.PointsWithout` | app_name/models.py:18 | A track point survives the cascade iff it was there and does not reference the deleted field. |
| `Models.PointsOf` | app_name/models.py:18 | The points the cascade removes are exactly those referencing the field. |
| `Models.CascadePartitions` | app_name/models.py:18 | The kept and the removed points together account for every point. |
| `Models.PointsWithoutAbsent` | app_name/views.py:409-422 | The cascade for a name no point references removes nothing. |
| `Models.FieldsWithoutAbsent` | app_name/views.py:409-422 | Deleting a name no field has leaves the field table as it was. |
| `Models.NoPointsOf` | app_name/models.py:18 | When no point references a name, nothing is collected for it. |
| `Models.FieldsWithoutSorted` | app_name/models.py:48 | Removing a field keeps the listing in ascending `file_index` order. |
| `Models.PointsWithoutSorted` | app_name/models.py:9 | Removing points keeps the ids ascending. |
| `Models.NamesWithout` | app_name/models.py:42 | After a delete the set of names is the old set minus the deleted name. |
| `Models.AppendKeepsKeys` | app_name/models.py:41-42 | Appending a field with a fresh name and a larger index keeps names unique and indices ascending. |
| `Models.NamesAppend` | app_name/models.py:42 | Appending a field adds exactly its name to the set of names. |
| `Models.Stamped` | app_name/views.py:188-202 | The points built from the records: one per record, same order, each referencing the field. |
| `Models.FieldLabel` | app_name/models.py:50-51 | `FieldInfo.__str__`: "{file_index} - {file_name}". `Models.FieldLabelRoundTrip` shows it names the field unambiguously. |
| `Models.BlockLabel` | app_name/models.py:36-37 | `IrregularBlock.__str__`: "地块 {point_index}". `Models.BlockLabelRoundTrip` shows the index reads back. |
| `Models.FieldLabelRoundTrip` | app_name/models.py:50-51 | The text "{file_index} - {file_name}" reads back as that exact field, whatever the name contains. |
| `Models.BlockLabelRoundTrip` | app_name/models.py:36-37 | The text "地块 {point_index}" reads back as the point index, negative indices included. |
| `Parsing.ParseBool` | app_name/views.py:171-177 | After strip and upper-case, the result is true exactly for {1, TRUE, T, YES, Y} and false exactly for {0, FALSE, F, NO, N}. Every other token fails, and the error text is "无效的布尔值: " plus the normalised token. |
| `Parsing.ParseBoolPadded` | app_name/views.py:172-177 | A word surrounded by whitespace is judged as that word in upper case. |
| `Parsing.ParseBoolIgnoresCase` | app_name/views.py:172-177 | Lower-casing the ASCII letters of the input never changes the result. |
| `Parsing.Trunc` | app_name/views.py:167 | `int()` of a finite float truncates toward zero: the result has the value's sign and lies within 1 of it, on the side of zero. |
| `Parsing.ParseInt` | app_name/views.py:165-169 | Succeeds iff `float()` gives a finite value, and the result is that value truncated. Any other outcome, NaN and infinities included, fails with an error naming the column and the raw value. |
| `Parsing.ParseIntExamples` | app_name/views.py:165-169 | "12.0" gives 12; "-3.7" gives -3; "nan" fails with the keyed error. |
| `Parsing.NormalizeTimestamp` | app_name/views.py:180 | The length is unchanged and no '/' remains. Every '/' becomes '-', only the first ' ' becomes 'T', and every other character is kept. |
| `Parsing.NormalizeSlashes` | app_name/views.py:180 | "2024/01/05 10:30" becomes "2024-01-05T10:30". |
| `Parsing.NormalizeDashes` | app_name/views.py:180 | "2024-01-05 10:30" becomes "2024-01-05T10:30". |
| `Parsing.ParseGpsTime` | app_name/views.py:180-185 | A missing cell (a row shorter than the header) fails with the `None.replace` error. Otherwise the ISO parse is tried first, then the fixed pattern; the result carries Asia/Shanghai, and a pattern failure keeps the library's message. |
| `Parsing.SeparatorsAgree` | app_name/views.py:180-185 | Cells that normalise to the same text give the same time. |
| `Parsing.Lookup` | app_name/views.py:180-201 | Reading a column fails iff the header lacks it, with the KeyError text. |
| `Parsing.ErrorText` | app_name/views.py:163-206 | The `str(e)` logged for each way a row fails: the quoted column name of a KeyError, "'NoneType' object has no attribute 'replace'", the `parse_int` message of views.py:169, the `parse_bool` message of views.py:177, and the library's own text for `float()` and `strptime`. |
| `Parsing.ParseRow` | app_name/views.py:180-204 | The conversion of one row into an `IrregularBlock`, reading the columns in Python's evaluation order and stopping at the first exception. `Parsing.ParseRowFollowsColumns` and `Parsing.FailingColumn` state its result. |
| `Parsing.ParseRowFollowsColumns` | app_name/views.py:180-204 | A row becomes a record iff all twelve columns parse. The record holds each column's parsed value. A failing row reports the first failing column, in the order the code reads them. |
| `Parsing.FailingColumn` | app_name/views.py:180-204 | For a failing row, every column before the returned one parses and the returned one fails with the row's error. |
| `RowLoop.ImportRows` | app_name/views.py:162-207 | The loop's `objs` and `error_log` are the records and the messages of the rows, and their lengths add up to the number of rows. |
| `RowLoop.ImportCounts` | app_name/views.py:162-207 | Each row lands in exactly one of the two lists. |
| `RowLoop.RowNumbersListed` | app_name/views.py:164-206 | Every listed row number is between 1 and the number of rows, and names a row of the listed kind (converting or failing). |
| `RowLoop.RowNumbersAscending` | app_name/views.py:164-206 | Rows are listed in strictly increasing order. |
| `RowLoop.RowNumbersComplete` | app_name/views.py:164-206 | Every row of the listed kind is listed. |
| `RowLoop.MessagesMatchFailed` | app_name/views.py:204-206 | Message `j` of the log is built from the `j`-th failing row's number and its error, and there are as many messages as failing rows. |
| `RowLoop.RecordsMatchImported` | app_name/views.py:186-204 | Record `j` of `objs` is the conversion of the `j`-th converting row, and there are as many records as converting rows. |
| `RowLoop.RecordsRows` | app_name/views.py:186-204 | `objs` holds the record of each row that parses and nothing else, in input order. |
| `RowLoop.MessagesRows` | app_name/views.py:162-207 | `error_log` holds exactly one message per failing row, in increasing row order. Each message is built from the row's 1-based position and its error; in the upload it is "第 {n} 行错误: " plus the error. |
| `Import.RowMessage` | app_name/views.py:206 | The message for a failing row: "第 {n} 行错误: " and the error text. `Import.RowMessageNumber` shows the number reads back. |
| `Import.RowMessageNumber` | app_name/views.py:206 | The row number can be read back out of a message. |
| `Import.ErrorNumbersIncrease` | app_name/views.py:164-206 | The row numbers written in `error_log` strictly increase. |
| `RowLoop.AllRowsGood` | app_name/views.py:164-207 | A batch of good rows is imported whole, in order, with no message. |
| `Import.ErrorLogMessages` | app_name/views.py:205-219 | No message can be mistaken for the "无" of an empty log. |
| `Import.ErrorDetail` | app_name/views.py:219 | The messages joined by newlines, or "无" when there are none. `Import.ErrorDetailRoundTrip` reads the log back. |
| `Import.Report` | app_name/views.py:218-221 | "成功导入 {n} 条数据，错误 {m} 条\n错误明细:\n" and the detail. `Import.ReportRoundTrip` reads both counts and the detail back. |
| `Import.ReportRoundTrip` | app_name/views.py:218-221 | The report reads back as the success count, the error count and the detail. |
| `Import.ErrorDetailRoundTrip` | app_name/views.py:219 | For messages that contain no line break and are not "无", the detail ("无" when empty, the newline-join otherwise) reads back as the log. `Import.ErrorLogMessages` shows the upload's messages are never "无". A message that quotes a cell or a library text containing a line break is not covered. |
| `Text.NatToStringRoundTrip` | app_name/views.py:206 | The rendered decimal numeral reads back as the number. |
| `Text.ReplaceFree` | app_name/views.py:137 | `str.replace` leaves text in which the pattern does not occur unchanged. |
| `Text.ReplaceFirstOccurrence` | app_name/views.py:137 | When no occurrence of the pattern starts inside `a`, `a + pattern + b` becomes `a + replacement` followed by the replacement of `b`. |
| `Text.ReplaceTrailing` | app_name/views.py:137 | When the pattern occurs in `s + pattern` only as the suffix, replacing it replaces just that suffix. |
| `Text.ReplaceCharIsReplaceAll` | app_name/views.py:180 | The one-character replace used on the time cell is the general `str.replace` with one-character arguments. |
| `Text.Strip` | app_name/views.py:172 | `strip()` never lengthens the text, and its result neither starts nor ends with Python whitespace. `Text.StripPadded` states which infix it keeps. |
| `Text.StripPadded` | app_name/views.py:172 | `strip()` removes exactly the whitespace around a token: whitespace, then a token with non-space ends, then whitespace, strips to the token. |
| `Text.UpperIgnoresCase` | app_name/views.py:172 | `upper()` of the ASCII-lower-cased text equals `upper()` of the text. |

## Left out

- Authentication, sessions, the login, admin and HTTP-method decorators, and
  the HTML pages, including the GET branch of `upload_csv`: framework
  plumbing with no logic of its own.
- Charset detection and decoding, including the 0.7 confidence rule: foreign
  libraries. The model starts from the rows `csv.DictReader` yields, as a
  sequence of header→cell maps, plus an optional error the reader raises.
- The CSV tokenising itself, and the `None` key that collects surplus cells:
  library behaviour the conversion never reads.
- `float()`, `datetime.fromisoformat`, `datetime.strptime` and `ZoneInfo`:
  floating-point and calendar parsing. They are opaque functions of the
  `Library` value, and the zone is a single constant.
- The `gps_time` column is declared as a `DateField`, so the
  database keeps only the date of the parsed timestamp. The model stores the
  timestamp as built.
- `Models.FieldStore.BulkCreate`: the batches of 100 are not modelled. The
  insert is treated as all-or-nothing, and its failure is a parameter.
- The 100-character limit on `file_name` is enforced by the store, as a strict
  backend does. The refusal texts of the database are a parameter.
- `Views.DeleteField`: the 500 answer for an unexpected database error is not
  modelled, because it needs a failing database, which the store does not have.
- `Views.UploadCsv`: the same holds for the field insert. Only the two refusals
  the store knows (a name over 100 characters, a taken name) give 500 there. Any
  other failure of `FieldInfo.objects.create`, answered with 500
  "服务器处理错误: …", is not modelled.
- The read endpoints `get_field_info` and `get_track_data`, user and profile
  management, `forms.py`, `admin.py` and `urls.py`: ORM aggregation,
  serialisation and configuration.
- `Text.Upper`: covers the ASCII letters and U+017F (long s), the only
  non-ASCII character whose upper case is a letter of the tokens. Other
  non-ASCII case mappings would change only the text of a "无效的布尔值"
  message.
- Id sequences that a database would advance on a failed insert: the model
  hands out an id only when a row is stored.
