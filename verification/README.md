# freetds-rs, modelled in Dafny

This project models the client-side core of freetds-rs, a Rust driver for
Sybase ASE and SQL Server over the FreeTDS CT-Library. It covers:

- **Query templates** (`Lib`, src/lib.rs). The splitter cuts a query into literal pieces and
  placeholders (`?` or `:name`). It skips quoted strings and comments. The generator
  rebuilds the SQL with every placeholder replaced by an encoded argument, or by `null`
  once the arguments run out.
- **The literal encoder** (`ToSql`, src/to_sql.rs). Strings are quoted with every quote
  doubled, integers are written in decimal, blobs as `0x` plus hexadecimal digits, dates
  as `'YYYY/MM/DD'`, and an absent option as `null`.
- **Parameter values and column identifiers** (`ParamValues`, `ColumnIds`). These are the
  `From` conversions of src/param_value.rs and src/column_id.rs.
- **Prepared statements** (`Statements`, src/statement.rs). A statement has one slot per
  placeholder. A slot is bound by position, or by name, in which case every occurrence
  of the name is bound.
- **The result set** (`ResultSets`, src/result_set.rs). It holds the item cursor over row
  sets, status codes and update counts, and the row cursor inside a row set. It also
  covers column lookup, the current-cell lookup with its error cases, and the
  NULL-propagating typed reads.
- **The connection** (`Connections`, src/connection.rs):
  - the loop that folds the library's result reports into result-set items and
    diagnostics, and decides success or failure;
  - `fetch_result`'s turning of bound buffers into cells;
  - the diagnostics store and its callback filter, and `get_error`;
  - the choice of server address.

The native library is not modelled. What it reports reaches the model as plain data:
- a `Reply` lists the successful `results()` calls;
- a `FetchInput` gives the described columns and the state of each bind after each
  fetch.

Mutable objects are classes:
- `Statement` (its parameter slots);
- `ResultSet` (its cursor and items);
- `MessageStore` (the diagnostics and the callback).

The loops of the source are methods with loop invariants. Each is proved against a
specification function, and the properties are lemmas about those functions.

## Model

| member | source | states |
|---|---|---|
| Lib.ParseQuery | src/lib.rs:47-142 | The pieces rebuild the text when each placeholder is written back as `?` or `:name`. The k-th placeholder sits at a `?`, or at a `:` followed by the whole name run, and `params[k]` is its name. No literal is empty. Every `?` or `:name` outside quotes and comments is a placeholder. Comments are read by the given rules: `Scanner` is `parse_query` as written, and `Sql` is the corrected reading the rest of the model uses (see Findings). |
| Lib.ScanToken | src/lib.rs:52-135 | One turn of the scanning loop moves forward and keeps the splitter's state: rendered text, placeholder positions, and coverage of every placeholder start read so far. |
| Lib.ScanRun | src/lib.rs:58-93 | A quote, slash, dash or ordinary character is copied verbatim with what it opens, and no placeholder starts inside what is copied. |
| Lib.ScanQuoted | src/lib.rs:59-69 | A quoted run is copied up to and including the next quote of the same kind, or to the end of the text; nothing inside it starts a placeholder. |
| Lib.ScanSlash | src/lib.rs:70-81 | A slash is copied; when a star follows, the block comment is copied too, and no placeholder starts inside it. |
| Lib.ScanBlockComment | src/lib.rs:73-79 | The comment body is copied up to its closing star-slash, or to the end of the text; every character in it is read in a non-normal mode. |
| Lib.ScanDash | src/lib.rs:82-93 | A dash is copied; after a second dash the rest of the line is copied up to and including the line break, or to the end of the text. |
| Lib.ScanName | src/lib.rs:111-120 | The name after a colon is the maximal run of name characters. An empty run means no placeholder starts there. A non-empty run is a named placeholder. |
| Lib.ScanColon | src/lib.rs:102-129 | A colon that is not last gives a named placeholder when a name follows. Otherwise the pending literal is closed and the colon starts a new one. |
| Lib.EmitPlaceholder | src/lib.rs:94-101 | The pending literal, if non-empty, becomes a piece. Then the placeholder is appended, and its name is appended to `params`. |
| Lib.ParamIndex | src/lib.rs:34-44 | The result is strictly increasing and holds exactly the indices whose placeholder is named `name`. |
| Lib.GenerateQuery | src/lib.rs:144-160 | The generated SQL is the pieces with the k-th placeholder replaced by the encoding of the k-th argument, or `null` past the last argument; surplus arguments are ignored. |
| Lib.FillAtOffsets | src/lib.rs:148-158 | In the filled text, each placeholder's replacement lies exactly at that placeholder's offset. |
| Lib.FillIsWeave | src/lib.rs:148-158 | Filling the pieces gives the literal runs interleaved with the replacements. |
| Lib.SubstitutionsAt | src/lib.rs:152-155 | The k-th replacement is the encoding of the k-th argument, or `null` when there are not that many arguments. |
| Lib.GeneratedQueryReplacesTokens | src/lib.rs:253-268 | The original text and the generated SQL share the same literal runs. Only the placeholder tokens differ: tokens in one, argument encodings in the other. |
| Lib.ArgumentAtItsOffset | src/lib.rs:148-158 | The k-th argument's encoding appears in the generated SQL at the k-th placeholder's offset. |
| Lib.UnclosedQuoteRunsToEnd | src/lib.rs:63-68 | A quote that is never closed keeps the rest of the text quoted, so nothing after it is a placeholder. |
| Lib.SqlRulesSkipQuotedAndCommented | src/lib.rs:59-93 | No offset inside a quoted run, block comment or line comment is a placeholder. |
| Lib.ScannerTakesCommentedPlaceholder | src/lib.rs:70-81 | As written, the `?` in `/*/?*/` is a placeholder although SQL reads it as inside the comment. |
| Lib.SqlRulesSkipCommentedPlaceholder | src/lib.rs:70-81 | With the comment closed by a star-slash after the opener, that `?` is not a placeholder. |
| Lib.ScannerReopensClosedComment | src/lib.rs:70-81 | As written, the slash that closes a comment is read again. In `2/*x*/*?` it opens a new comment with the star after it, so the `?` is not a placeholder, although SQL reads it outside any comment. |
| Lib.SqlRulesTakePlaceholderAfterComment | src/lib.rs:70-81 | When the closing star-slash is taken as one token, that `?` is a placeholder. |
| ToSql.WriteString | src/to_sql.rs:8-18 | `write_string` writes a quote, each character with every quote doubled, then a quote. |
| ToSql.QuotedLength | src/to_sql.rs:9-17 | The literal's length is the text length, plus the number of quotes, plus 2. |
| ToSql.UnescapeInvertsEscape | src/to_sql.rs:11-16 | Collapsing every doubled quote in the literal's body gives the original text back. |
| ToSql.EncodedStringEndsWhereWritten | src/to_sql.rs:8-18 | A SQL lexer reading the literal recovers exactly the text and ends the literal at the closing quote written by the encoder, whatever the text contains. |
| ToSql.WriteBlob | src/to_sql.rs:74-82 | The blob encoder writes `0x` and then the hexadecimal digits of each byte. |
| ToSql.BlobLiteralShape | src/to_sql.rs:74-82 | Each byte becomes exactly two upper-case hexadecimal digits, and decoding the digits gives the bytes back. |
| ToSql.IntegerLiteralRoundTrip | src/to_sql.rs:32-42 | An integer is written in decimal, with a minus sign exactly when negative and digits after it, and reading the text back gives the integer. |
| ToSql.PaddedFacts | src/to_sql.rs:56-59 | Zero padding keeps the value and reaches the width when the value has no more digits than that. |
| ToSql.DateLiteralShape | src/to_sql.rs:56-59 | For a year of 0 to 9999, the date is written as `'YYYY/MM/DD'`: 12 characters, with the three fields reading back as year, month and day. |
| ToSql.WriteValue | src/to_sql.rs:20-94 | `to_sql` writes each value's encoding; `None` is written as `null` and `Some(v)` exactly as `v`. |
| ParamValues.FromString | src/param_value.rs:39-49 | Text converts to `String` with the same text. |
| ParamValues.FromBool | src/param_value.rs:51-59 | A boolean converts to `I32` of 0 or 1, non-zero exactly when true. |
| ParamValues.FromI32 | src/param_value.rs:61-65 | An `i32` converts to `I32` with the same value. |
| ParamValues.FromI64 | src/param_value.rs:67-71 | An `i64` converts to `I64` with the same value. |
| ParamValues.FromDate | src/param_value.rs:91-95 | A date converts to `Date` with the same date. |
| ParamValues.FromBytes | src/param_value.rs:109-119 | Bytes convert to `Blob` with the same bytes. |
| ParamValues.ReinterpretI8s | src/param_value.rs:121-131 | Each signed byte `b` becomes the byte `(b + 256) % 256`, and the length is kept. |
| ParamValues.FromI8s | src/param_value.rs:121-131 | Signed bytes convert to a `Blob` of the same length. |
| ParamValues.SignedBytesRoundTrip | src/param_value.rs:121-131 | Reading each blob byte back as signed gives the original signed bytes. |
| ParamValues.Lower | src/param_value.rs:5-16 | Each parameter value is encoded as its payload, and only `Null` is encoded as the null marker. |
| ParamValues.ConversionKeepsEncoding | src/param_value.rs:27-37 | Converting any encodable value, options included, into a parameter value does not change the SQL it is written as. `None` is `null` and `Some(v)` is written as `v`. |
| ParamValues.LowerThenConvert | src/param_value.rs:27-131 | Converting loses nothing: every non-floating parameter value is recovered from the encoder value it dispatches to. |
| ParamValues.BoolEncoding | src/param_value.rs:51-59 | `true` and `false` are written as `1` and `0`. |
| ColumnIds.FromI32 | src/column_id.rs:6-10 | An `i32` is a positional identifier with the same value. |
| ColumnIds.FromI64 | src/column_id.rs:12-16 | An `i64` that fits in 32 bits is a positional identifier with the same value; any other panics, so it is excluded. |
| ColumnIds.FromUsize | src/column_id.rs:18-22 | A `usize` up to `i32::MAX` is a positional identifier with the same value. |
| ColumnIds.FromString | src/column_id.rs:24-34 | A name is a named identifier with the same text. |
| Statements.Statement.constructor | src/statement.rs:12-23 | A new statement keeps its text. Its query is the split of the text under SQL comment rules (see Left out), and it has one unbound slot per placeholder. |
| Statements.Statement.Text | src/statement.rs:43-45 | `text()` is the text the statement was made from. |
| Statements.Statement.ParamCount | src/statement.rs:47-49 | `param_count()` is the number of placeholders, so binding never changes it. |
| Statements.Statement.SetParam | src/statement.rs:25-41 | A position binds only that slot. A name binds exactly the slots of the placeholders with that name and leaves the others unchanged, so an unknown name changes nothing. |
| Statements.Arguments | src/connection.rs:551-558 | There is one argument per slot. A bound slot is written as its value, and an unbound one as `null`. |
| Statements.NamedBindingFillsEveryOccurrence | src/statement.rs:82-102 | After binding a name, every placeholder with that name is generated as the encoding of the bound value. |
| Statements.UnboundSlotIsNull | src/statement.rs:91-99 | A slot never bound is generated as `null`. |
| ResultSets.KindOf | src/result_set.rs:105-117 | Every item has one of the three kinds, never `None`. |
| ResultSets.AdvanceVisitsInOrder | src/result_set.rs:75-90 | From the fresh state, the k-th `next_results` lands on item k-1. It answers true exactly as many times as there are items; with no items the cursor stays unset. |
| ResultSets.RowAdvance | src/result_set.rs:174-187 | Moving the row cursor keeps the columns and rows and always sets the cursor. |
| ResultSets.RowCursorVisitsEveryRow | src/result_set.rs:174-187 | From a fresh row cursor, `next` stands on a row exactly as many times as there are rows, in order. An empty row set is parked at 0 and never has a row. |
| ResultSets.FirstOf | src/result_set.rs:124-155 | The seek position is the first item of the wanted kind, or one past the end when there is none. |
| ResultSets.FirstNamed | src/result_set.rs:301-305 | A name resolves to the first column carrying it. |
| ResultSets.ColumnIndex | src/result_set.rs:296-316 | A position is accepted exactly when it is non-negative and below the column count. A name is accepted exactly when some column carries it, and gives the first such column. Anything else is "Invalid column index". |
| ResultSets.RowsAt | src/result_set.rs:240-253 | There is a row set at a position exactly when that item exists and holds rows. |
| ResultSets.CellAt | src/result_set.rs:295-329 | A cell is found exactly when the row cursor stands on a row and the column exists, and it is that row's cell in that column. An unknown column passes on "Invalid column index", checked first. An unset row cursor is "Invalid state", and a cursor past the last row is "ResultSet exhausted" (see Findings). |
| ResultSets.BufferAt | src/result_set.rs:282-333 | `get_buffer` succeeds exactly when the item cursor is on a row set whose row cursor is on a row and the column exists, and then gives that cell. The errors are: "Invalid state" for an unset item cursor; "ResultSet exhausted" for an item cursor past the items; "Invalid state" for an item that is not a row set; otherwise `CellAt`'s errors. |
| ResultSets.ReadAfterLastRowPanicsAsWritten | src/result_set.rs:319-320 | As written, a read after `next` has reported the end indexes past the last row. |
| ResultSets.ReadAfterLastRowFails | src/result_set.rs:314-323 | With the bound check in place, no read succeeds once `next` has reported the end. |
| ResultSets.NullCellReadsAsNone | src/result_set.rs:508-525 | Every typed read answers `None` for a NULL cell, passes a lookup error through, and otherwise gives the converted value. |
| ResultSets.BoolOf | src/result_set.rs:546-552 | `get_bool` (`ResultSet.GetBool`, which reads the current cell through `BufferAt`) is true exactly when the 64-bit reading is non-zero. NULL and errors pass through. |
| ResultSets.BlobOf | src/result_set.rs:663-689 | A NULL cell is `None`, and a lookup error passes through. A binary or image cell is returned as its own bytes. Any other cell goes through the conversion, whose error passes through. |
| ResultSets.StringBufferSize | src/result_set.rs:588-599 | The conversion buffer is 2·len+16 for binary, long binary and image sources, and 128 otherwise. |
| ResultSets.DateOf | src/result_set.rs:611-622 | A date record gives the date with the month moved from 0-based to 1-based, exactly when the calendar accepts it; otherwise the result is "Invalid date". |
| ResultSets.SmallU32IsSelf | src/result_set.rs:615-618 | A signed field cast to `u32` yields a month or day only when the field was already that value. |
| ResultSets.ResultSet.constructor | src/result_set.rs:62-73 | A new result set has its cursor unset and holds the given items and messages. |
| ResultSets.ResultSet.NextResults | src/result_set.rs:75-90 | The cursor moves from unset to 0 (unless there are no items) or one further. The answer is whether it now stands on an item. |
| ResultSets.ResultSet.ResultType | src/result_set.rs:105-117 | The kind of the current item, and `None` exactly when the cursor stands on no item. |
| ResultSets.ResultSet.NextResultsOfType | src/result_set.rs:92-103 | True means the cursor is on an item of the wanted kind and skipped only other kinds. False means no item of that kind remains after the old position. The cursor then stays unset when there are no items and was unset; otherwise it lands on the item count, or one past its old place when that was already beyond. |
| ResultSets.ResultSet.SeekFirst | src/result_set.rs:124-155 | The cursor moves to the first item of the wanted kind, or one past the end, and reports which. |
| ResultSets.ResultSet.Next | src/result_set.rs:158-196 | The first call seeks the first row set. On a row set, the row cursor advances and the answer is whether it stands on a row. On any other item or past the end, nothing changes and the answer is false. |
| ResultSets.ResultSet.IsRows | src/result_set.rs:201-207 | `is_rows` holds exactly when the current item, or the first one before any move, is a row set. |
| ResultSets.ResultSet.IsStatus | src/result_set.rs:212-218 | `is_status` holds exactly when that item is a status code. |
| ResultSets.ResultSet.IsUpdateCount | src/result_set.rs:223-229 | `is_update_count` holds exactly when that item is an update count. |
| ResultSets.ResultSet.IsTestsAgreeWithResultType | src/result_set.rs:105-229 | Once the cursor is on an item, exactly one `is_*` test holds, and it agrees with `result_type`. |
| ResultSets.ResultSet.ColumnCount | src/result_set.rs:234-254 | The first call seeks the first row set, or fails with "Query did not return rows". The answer is the current row set's column count or why there is none. |
| ResultSets.ResultSet.ColumnName | src/result_set.rs:256-280 | As for `column_count`, then the name of the column, or "Invalid column index" past the last one. |
| ResultSets.ResultSet.Status | src/result_set.rs:756-773 | The first call seeks the first status item. The answer is the current item's status, "Invalid state" past the end, or the error for another kind. |
| ResultSets.ResultSet.UpdateCount | src/result_set.rs:775-792 | The same as `status`, for update counts. |
| ResultSets.ResultSet.Messages | src/result_set.rs:794-796 | `messages()` returns every collected diagnostic, in order. |
| ResultSets.ResultSet.Error | src/result_set.rs:798-800 | `error()` is the first diagnostic, and `None` exactly when there is none. |
| Connections.Adjusted | src/connection.rs:632-639 | A character column gets one more byte; other columns keep their size. Name and type are kept. |
| Connections.DescribeColumns | src/connection.rs:626-660 | There is one adjusted column and one buffer per described column, and each buffer is sized to the adjusted length. |
| Connections.CellOf | src/connection.rs:669-688 | Indicator -1 is NULL. Indicator 0 is the reported bytes minus the terminating zero of a character column. Any other indicator is "Data truncation occured". |
| Connections.RowOf | src/connection.rs:667-689 | A fetched row has one cell per column; its only error is "Data truncation occured". |
| Connections.RowOfAt | src/connection.rs:669-688 | Cell k of a fetched row is bind k read by the indicator rule of `CellOf`. |
| Connections.RowFailsOnTruncation | src/connection.rs:685-687 | A row fails exactly when one of its binds reports truncation. |
| Connections.FetchRow | src/connection.rs:667-689 | The inner fetch loop computes the row's cells or its first truncation error. |
| Connections.RowsOf | src/connection.rs:662-692 | Every fetched row becomes a row with one cell per column; the only error is the truncation message. |
| Connections.RowsOfAt | src/connection.rs:662-692 | Row f of the result is the row made from the binds of fetch f. |
| Connections.FetchFailsOnTruncation | src/connection.rs:662-692 | A fetch fails exactly when some cell of some row was truncated. |
| Connections.FetchedRows | src/connection.rs:622-693 | A successful fetch is a well-formed row set. It has the adjusted columns, one row per fetch, and its row cursor unset. |
| Connections.FetchedCellAt | src/connection.rs:632-688 | Cell k of fetched row f is bind k of fetch f, read by `CellOf` under the adjusted column k. |
| Connections.FetchOutcome | src/connection.rs:652-692 | A fetch fails exactly when describing or binding failed, a cell was truncated, or fetching failed. The errors win in that order: a describe or bind failure first, then "Data truncation occured", then the fetch failure. |
| Connections.FetchResult | src/connection.rs:622-693 | `fetch_result` computes the specified row set, and sizes each buffer to the adjusted column length. |
| Connections.AsU64 | src/connection.rs:532 | `as u64` keeps a non-negative count. A negative one becomes the count plus 2^64, at or above 2^64 - 2^31. The result is below 2^64. |
| Connections.LeI32 | src/connection.rs:513-517 | The status read from 4 bytes, least significant first, is an `i32`. It is negative exactly when the top bit of the last byte is set, and its low byte is the first byte. |
| Connections.StatusBytesRoundTrip | src/connection.rs:513-517 | Reading back the 4 bytes that store any `i32` status gives that status. |
| Connections.StatusOf | src/connection.rs:511-517 | A status result's status is the `i32` held by the first cell of its first row. |
| Connections.CollectStep | src/connection.rs:504-536 | One turn of the collecting loop appends the step's diagnostics, then classifies the result. A row or status result goes through `fetch_result`, whose error ends the loop. |
| Connections.CollectResults | src/connection.rs:492-537 | The collecting loop computes the specified items, failure flag and diagnostics, or the first fetch error. |
| Connections.Run | src/connection.rs:488-547 | A send error or a failing `results()` call is the error. A seen failure is the last diagnostic, or "Query execution resulted in error" when there is none. Otherwise a new result set holds the collected items and diagnostics, with its cursor unset. |
| Connections.Execute | src/connection.rs:480-548 | A placeholder count different from the number of arguments is "Invalid parameter count", and then nothing is sent. Otherwise the generated SQL is sent and the reply is read, skipping the no-count value. |
| Connections.ExecuteStatement | src/connection.rs:550-620 | The statement is generated with unbound slots as `null`, and the reply is read as in `execute` (see Findings). |
| Connections.CollectedRowsWellFormed | src/connection.rs:507-510 | Every collected row set has one cell per column in every row. |
| Connections.CollectedDiagnosticsAndFailure | src/connection.rs:504-528 | The collected diagnostics are those of every step, in order. The failure flag is set exactly when some step was a failed command or a status result with a non-zero status. |
| Connections.ExecutionOutcome | src/connection.rs:539-547 | A successful execution carries every diagnostic, in order. It fails exactly when some step failed, and then the error is the last diagnostic or the generic message. |
| Connections.FilteredCountsAreReported | src/connection.rs:529-533 | The update counts in the result set are exactly the real counts reported, widened, in order. |
| Connections.StatementListsNoCountAsWritten | src/connection.rs:603-606 | As written, a done result with no count is listed as the update count 4294967295. |
| Connections.StatementSkipsNoCount | src/connection.rs:529-533 | With the no-count filter, that reply lists no update count. |
| Connections.MessageStore.constructor | src/connection.rs:157-158 | The store starts empty with no callback. |
| Connections.MessageStore.Handle | src/connection.rs:164-173 | A diagnostic is stored exactly when no callback is installed or the callback accepts it. |
| Connections.MessageStore.SetCallback | src/connection.rs:804-806 | Installing a callback keeps the stored diagnostics, and later ones are kept only if it accepts them. |
| Connections.MessageStore.ClearCallback | src/connection.rs:808-810 | Removing the callback keeps the stored diagnostics, and every later one is accepted. |
| Connections.MessageStore.Clear | src/connection.rs:220-222 | `diag_clear` empties the store and keeps the callback. |
| Connections.FirstSevere | src/connection.rs:703-709 | This is the first diagnostic with severity above 10, a missing severity counting as the maximum. It is `None` exactly when no diagnostic qualifies. |
| Connections.MessageStore.GetError | src/connection.rs:228-233 | `get_error` is the first severe stored diagnostic. |
| Connections.ServerName | src/connection.rs:431-444 | The configured server name wins. Otherwise the address is the host, a colon and the port, 5000 by default. With neither, the result is "Server host address not configured". |
| Connections.AddressEndsWithPort | src/connection.rs:437-439 | The address is the host, a colon, and digits that read back as the port. |

## Left out

- The native CT-Library and CS-Library calls (`ct_*`, `cs_*`, `convert`, `crack_*`, `describe`, `bind`, `fetch`, `res_info`, `cancel`) are not modelled. Their results arrive as data: `Reply`, `FetchInput`, and the converter parameters of the typed reads. A failing describe or bind arrives as `FetchInput.setupFailure`, and a failing fetch as `FetchInput.fetchFailure`. A failure of `cancel` or of `res_info` (column count or row count) is not modelled.
- The global diagnostics handler map, the `Mutex`/`Arc` sharing, the `extern "C"` callbacks and threads are not modelled. `MessageStore` is the store seen by one thread.
- The `f64`, `f32`, `Decimal`, `NaiveTime` and `NaiveDateTime` encoders come from outside libraries. Their text is carried as given (`ToSql.Formatted`, `ParamValues.External`), so the floating and decimal paths of the typed reads are left out too.
- `get_value`, `get_i32`, `get_i64`, `get_f64`, `get_string`, `get_decimal`, `get_time` and `get_datetime` convert bytes by reinterpreting native memory or by library conversion. They are modelled only through their shared shape (`ReadCell`, with the conversion as a parameter), their NULL branch, and `get_string`'s buffer size.
- Connections.StatusRow: a status result must have a first row whose first cell is non-NULL and holds at least 4 bytes. The source unwraps and reads it without a check, so it panics on a missing row or a NULL cell and reads past the buffer on a short one; the model excludes these through `ValidStep`.
- Connections.LeI32: the status bytes are read little-endian. The source reinterprets them in the host's byte order.
- Lib.IsIdentChar: name characters are the ASCII letters and digits and `_`. Rust's Unicode `is_alphanumeric` is not modelled.
- ParamValues.Lower: the encoder impl for `ParamValue` itself, and for the `Null` marker, are not part of this model. Each variant is taken to write its payload, and `Null` to write `null`.
- ParamValues: `From<&T>` is the identity on values in Dafny, so it has no member of its own.
- ResultSets.ResultSet.SeekFirst: it requires that the cursor has not moved yet. The source's seek helpers count positions relative to the cursor, and every call site uses them only before the first move, where the two agree.
- ResultSets.BlobOf: a `VARBINARY` cell is excluded, because the source reaches `todo!()` there.
- ResultSets.ResultSet.IsRows: the current item must exist, because the source indexes without a check and panics otherwise. The same holds for IsStatus and IsUpdateCount.
- ResultSets.DateOf: the calendar check is written out for the proleptic Gregorian calendar and chrono's year range. chrono itself is not modelled.
- Connections.StatementListsNoCountAsWritten: the value 4294967295 assumes the library writes a 4-byte count into the zeroed 8-byte buffer on a little-endian host.
- Connections.Execute: the text is split under SQL comment rules, the corrected splitter of Findings 1 and 2, not by `parse_query` as written. Text where the two differ, such as `/*/?*/` and `2/*x*/*?`, gets a different placeholder count from the source, and so a different "Invalid parameter count" decision.
- Statements.Statement.constructor: the text is split under SQL comment rules, the corrected splitter of Findings 1 and 2, not by `parse_query` as written. On the texts where the two differ, the statement has different slots from the source.
- Connections.ExecuteStatement: the no-count value is filtered as in `execute`, the corrected behaviour of Finding 3.
- ResultSets.BufferAt: a read past the last row is "ResultSet exhausted", the corrected behaviour of Finding 4. The source panics there. The same holds for ResultSets.CellAt.
- Connections.CellOf: it requires `ValidBind`. The model assumes the library leaves a buffer of the column's size and, for a complete value, a reported length within that buffer that counts the terminating zero of a character column (at least 1). The source slices `[0..len - 1]` or `[0..len]` without checks (src/connection.rs:674-681), so it panics on a character length of 0, a negative length or one beyond the buffer. The requirement reaches RowOf, RowsOf, FetchRow, FetchResult, Run, Execute and ExecuteStatement through `BindsFit`, `ValidFetch`, `ValidInput`, `ValidStep` and `ValidReply`.
- Statements.Statement.SetParam: a position outside the slots panics in the source, so it is a precondition.
- Connection building (the builder's setters, TDS-version mapping, login properties), `is_connected` and `db_name` are not modelled. They only store options or call the library.

## Findings

| source | as written | input that shows it | evidently intended | confidence | as-written member | corrected member |
|---|---|---|---|---|---|---|
| src/lib.rs:70-81 | The block-comment loop stops at the first `*` followed by `/`, and the star of the opener itself counts. `/*/` closes the comment at once, and the text after it is scanned as SQL. | `/*/?*/`: the `?` at offset 3 becomes a placeholder. | A block comment ends at the first star-slash after the opener, so the `?` stays in the comment. | not executed; high | Lib.ScannerTakesCommentedPlaceholder | Lib.SqlRulesSkipCommentedPlaceholder |
| src/lib.rs:74-79 | The block-comment loop stops on the star of the closer and leaves the slash unread. The outer loop then reads that slash again as SQL, so a star right after `*/` opens a new comment. | `2/*x*/*?` (the product of 2 and a parameter, with a comment between): the `?` at offset 7 is not a placeholder, so executing it with one argument is "Invalid parameter count". | The closer's slash ends the comment and is not read again, so the `?` is a placeholder. | not executed; high | Lib.ScannerReopensClosedComment | Lib.SqlRulesTakePlaceholderAfterComment |
| src/connection.rs:603-606 | `execute_statement` reads every success/done row count as a `u64` and lists it, including the library's no-count value -1. | One done result that reports no count: the result set lists the update count 4294967295. | Skip the no-count value, as `execute` does (src/connection.rs:529-533). | not executed; medium (the exact value depends on how the library writes the count) | Connections.StatementListsNoCountAsWritten | Connections.StatementSkipsNoCount |
| src/result_set.rs:319-320 | `get_buffer` indexes the rows with the row cursor without a bound check. `next` leaves that cursor one past the last row when it returns false. | A one-row result after two calls to `next` (the second returns false), then reading column 0: the row index 1 is out of bounds and the call panics. | Report "ResultSet exhausted", as for the item cursor (src/result_set.rs:291-293). | not executed; high | ResultSets.ReadAfterLastRowPanicsAsWritten | ResultSets.ReadAfterLastRowFails |
