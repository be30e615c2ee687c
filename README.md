# ica-iot core, modelled in Dafny

This project models the data path of the ica-iot machine monitor:

- **The mock PLC** (`mock_server.py`) draws eighteen simulated machine values every ten seconds. It writes each value's 32-bit single-precision pattern as two 16-bit holding registers, low word first, at address 600.
- **The client's polling loop** (`client_new.py`) reads the registers and joins each pair back into a pattern, high word second. It reads the patterns as floats. When Machine On (register 11) rounds to 1, it stores one row in the `register_data` table. The row holds the clock's date and time, a batch id derived from register 1, process start and end flags from registers 17 and 18, and every register read.
- **The queries over the table**: deletions by batch and of everything, the id-ordered page read, the DataTables `/filterData` query, and the rows of the `/report` document (`Report` as written, `ReportCorrected` with the tool-speed fix of the finding below).
- **The text of the PDF report** (`client.py`): the output file name, the header lines, and one line of twelve cells per row.

Modules, one file each:

| file | module | models |
|---|---|---|
| basics.dfy | Basics | `Option`, `Result`, `Min`, `Map` (a list comprehension) |
| numerics.dfy | Numerics | Python floats (finite, infinite, NaN), `round` with ties to even, `str`/`int` of integers, zero-padded fields |
| register_codec.dfy | RegisterCodec | the word-swap encoding shared by both programs, and its round trips |
| clock.dfy | Clock | `datetime` values, the `strftime` layouts used, and `strptime("%Y-%m-%d %H:%M:%S")` |
| schema.dfy | Schema | the table's row, SQLite's NaN-to-NULL storage, `alarm_bits_from_row`, `as_row_list`, the `/filterData` column list |
| queries.dfy | Queries | batch selection, SQLite `ORDER BY`, `OFFSET`/`LIMIT`, `read_data_from_db`, `filterData`, the `/report` rows |
| ingest.dfy | Ingest | one pass of `modbus_client`: the decode loop (a method), the trigger test, the derived row |
| store.dfy | Store | the table as a class with `Insert`, `DeleteBatch`, `DelBatchRoute`, `DeleteAll` and `PollCycle` |
| pdf_report.dfy | PdfReport | the file-name choice, the date/time split, the alarm cells, the header lines and the table body |
| mock_plc.dfy | MockPlc | the simulated sample and the register-block loop (a method) |
| scenarios.dfy | Scenarios | end-to-end facts: the mock's block read by the client, a batch stored and then found, the newest row on the last page, a failed read followed by a good one |

Some inputs come from outside the program; they are parameters of the model:

- The Modbus read is `read: Option<seq<Word>>`, where `None` stands for a failed read.
- `datetime.now()` is an `Instant`: a `DateTime` that Python can represent.
- `struct.unpack('>f')` is `asFloat: Pattern -> Float`, and `struct.pack('>f')` is `pack: real -> Pattern`.
- `str()` of a float is `show: Float -> string`.
- `fmt_num`'s `str(round(x, 2))` of a float is `fmt: Float -> string`.

Where the code and its documentation differ, the model follows the code:

- **Snapshot length.** The client rejects a register list only when its count is odd. The `IndexError` at `client_new.py:148` is caught at line 191. It never checks the count against an expected register count.
- **Alarm flags.** An alarm bit is the truthiness of the stored float: any non-NULL, non-zero value gives 1, so 0.3 gives 1. It is not a "rounds to 1" test.
- **The trigger.** The mock's comment calls register 18 the insert trigger. The client triggers on register 11, and so does the model.
- **Fallback order.** `/filterData` falls back to ordering by `id`, which is insertion order.

## Model

| member | source | states |
|---|---|---|
| Basics.Map | client_new.py:146-150 | one result per element, in order: the client unpacks every pattern as a float, and the mock packs every value (mock_server.py:45) the same way |
| Numerics.RoundHalfEven | client_new.py:155 | `round(x)` lies within one half of x, and is even when x sits exactly halfway |
| Numerics.RoundHalfEvenUnique | client_new.py:155 | those two properties determine `round(x)` |
| Numerics.RoundIsOneIff | client_new.py:155 | `round(x) == 1` exactly when 0.5 < x < 1.5 |
| Numerics.NatText | client_new.py:159 | `str(n)` is a non-empty digit string with no leading zero |
| Numerics.NatTextValue | client_new.py:159 | the digits of `str(n)` denote n |
| Numerics.IntTextRoundTrip | client_new.py:159 | `int(str(i)) == i` for every integer |
| Numerics.IntTextInjective | client_new.py:159 | distinct integers give distinct batch-id texts |
| Numerics.Pad2 | client_new.py:165-167 | a two-digit strftime field is two digits that denote the number |
| Numerics.Pad4 | client_new.py:165-166 | the year field is four digits that denote the year |
| RegisterCodec.JoinOfSplit | client_new.py:148 | joining a pattern's high and low words gives the pattern back |
| RegisterCodec.SplitOfJoin | mock_server.py:46 | splitting a joined pair gives both words back |
| RegisterCodec.EncodeLayout | mock_server.py:44-47 | the mock emits 2·n registers, with pattern k's low word at 2k and its high word at 2k+1 |
| RegisterCodec.DecodeOfEncode | mock_server.py:44-47 | the client's decoding of the mock's registers returns every pattern |
| RegisterCodec.EncodeOfDecode | client_new.py:147-150 | an even-length register list decodes, and re-encoding it returns every word |
| RegisterCodec.DecodeLength | client_new.py:147-148 | decoding succeeds exactly on an even count, with count/2 values |
| Clock.StampIsDateSpaceTime | client_new.py:164-167 | the stored timestamp is the stored date, a space and the stored time, 19 characters |
| Clock.ParseStamp | client.py:112 | a parsed stamp is always a valid datetime |
| Clock.ParseOfStamp | client.py:112 | `strptime` of what `strftime` wrote gives back the moment |
| Clock.StampOfParse | client.py:112-114 | a stamp that parses is exactly the `strftime` text of the parsed moment |
| Schema.Stored | client_new.py:183 | an inserted row reads back with every non-register column unchanged, no register NaN, every non-NaN register unchanged and every NaN register NULL |
| Schema.StoredIdempotent | client_new.py:183 | storing what was read back changes nothing: a stored payload is a fixed point of the insert |
| Schema.AlarmBitsMeaning | client_new.py:45-53 | each alarm bit is 0 exactly when its register (12..15) is NULL or zero, and 1 exactly when it holds anything else, 0.3 and the infinities included |
| Schema.TruthyIff | client_new.py:49-52 | a stored column is truthy exactly when it is neither NULL nor zero |
| Schema.RegisterColumns | client_new.py:318 | the register column names are register1..register<n>, in order |
| Schema.RegisterIndexOfColumn | client_new.py:65 | the column name "register<i>" denotes register i |
| Schema.RegisterColumnIsNotHeader | client_new.py:315-319 | no register column shares a name with a header column |
| Schema.AsRowListHeader | client_new.py:57-63 | position k < 11 of a flattened row is the value header column k names, the alarm bits included |
| Schema.ColumnCellOfRegister | client_new.py:65 | the column name "register<i>" denotes register i's stored value |
| Schema.AsRowListFollowsColumns | client_new.py:56-66 | position k of a flattened row holds the value that column k of `/filterData` names |
| Queries.Select | client_new.py:212 | a batch selection is never longer than the table |
| Queries.SelectMembers | client_new.py:209-215 | a row is selected exactly when it is in the table and its batch matches (or differs, for a deletion) |
| Queries.SelectPartition | client_new.py:212 | the kept and the deleted rows together are the table, as a multiset |
| Queries.SelectCounts | client_new.py:337 | the kept and deleted counts add up to the table's size |
| Queries.SelectNoMatch | client_new.py:209-215 | deleting a batch no row has leaves the table unchanged, and selecting it finds nothing |
| Queries.SelectIdsIncreasing | client_new.py:209-215 | a deletion keeps the remaining rows in id order |
| Queries.SelectAppend | client_new.py:326 | selecting after an append is the earlier selection, plus the new row when it matches |
| Queries.TextLeTotal | client_new.py:332-335 | SQLite's text order compares any two strings |
| Queries.TextLeTransitive | client_new.py:332-335 | SQLite's text order is transitive |
| Queries.KeyLeTotal | client_new.py:332-335 | any two sort keys (NULL, numbers, infinities, text) compare |
| Queries.KeyLeTransitive | client_new.py:332-335 | the sort-key order is transitive |
| Queries.OrderedPairwise | client_new.py:332-335 | in an ordered result every earlier row precedes every later one |
| Queries.InsertOrdered | client_new.py:332-335 | inserting a row gives a permutation of the old list plus the new row, headed by the new row or the old head |
| Queries.InsertOrderedOrdered | client_new.py:332-335 | inserting into an ordered list keeps it ordered under the same column and direction |
| Queries.SortBy | client_new.py:332-335 | ORDER BY returns the rows ordered by the column and direction, as a permutation of its input |
| Queries.InsertOrderedLast | client_new.py:201 | inserting into an ordered list a row that precedes none of its rows appends it at the end |
| Queries.LaterIdFollows | client_new.py:201 | a row with a larger id than all others never comes before them in ascending id order |
| Queries.SortByIdOfIncreasing | client_new.py:200-201 | on a table kept in id order, `ORDER BY id ASC` changes nothing |
| Queries.IdsIncreasingSplit | client_new.py:24 | dropping the newest row keeps id order, and the newest id exceeds every other |
| Queries.WindowStart | client_new.py:338 | OFFSET starts within the result: no offset, or one of 0 or less, starts at 0, and a positive offset starts there, capped at the result size |
| Queries.Window | client_new.py:338 | OFFSET/LIMIT returns the contiguous run that starts at the offset: a non-negative `limit` n gives min(n, rows left) rows, and no limit or a negative one gives the rest |
| Queries.WindowSlice | client_new.py:202-203 | OFFSET a LIMIT n, both non-negative, is the slice from a to a+n, clipped to the result |
| Queries.WindowOrdered | client_new.py:338 | a window of an ordered result is ordered |
| Queries.ReadDataFromDbSlice | client_new.py:198-206 | page p is the id-ordered slice from (p-1)·per_page to p·per_page, clipped to the table |
| Queries.ReadDataFromDbAt | client_new.py:198-206 | on a table in id order, the page starting at offset lo is the slice from lo to lo+per_page, clipped |
| Queries.PagesTileTable | client_new.py:198-206 | pages 1..n together are exactly the first n·per_page rows, with none skipped or repeated |
| Queries.PagesPrefix | client_new.py:198-206 | with hi = n·per_page, pages 1..n together are the first hi rows (the induction behind the tiling) |
| Queries.OrderColumnName | client_new.py:320-330 | the sort column is always a stored column; an in-range non-alarm index names its own column, and an out-of-range index gives "id" |
| Queries.OrderColumnByIndex | client_new.py:315-330 | indexes 0..6 and 11..28 name their own column; 7..10 (the alarms) and every other index give "id" |
| Queries.HeaderColumnIsAlarm | client_new.py:315-328 | header column c is one of the four derived alarm names exactly when 7 <= c <= 10 |
| Queries.RowLists | client_new.py:340 | the response holds one flattened row per returned row, in order |
| Queries.FilterDataCounts | client_new.py:337-345 | recordsTotal equals recordsFiltered, and both equal the count after the batch filter (the whole table for an empty search); draw is echoed |
| Queries.FilterRowsMembers | client_new.py:325-326 | every returned row is a table row of the searched batch |
| Queries.FilterRowsOrdered | client_new.py:332-335 | the returned rows follow the chosen column, descending only for exactly "desc" |
| Queries.FilterRowsWindow | client_new.py:338 | a non-negative length bounds the page; with no offset and no limit every matching row comes back once |
| Queries.FilterDataBatchCells | client_new.py:325-340 | with a search, every returned list carries the searched batch at position 4 |
| Queries.ReportRowOf | client.py:130 | the corrected report row: the thirteen entries as written, unchanged, plus "Tool Speed" holding register 7 |
| Queries.ReportRowAsWrittenKeys | client_new.py:250-265 | the report row as written has exactly thirteen keys, without "Tool Speed" |
| Queries.ReportRows | client_new.py:248-266 | entry k of the document is selected row k's report row (as written, or corrected when asked), numbered k+1 |
| Queries.ReportSelectionInTableOrder | client_new.py:235-243 | on a table kept in id order, the report covers the chosen rows in table order |
| Queries.ReportRendersIff | client_new.py:268-274 | a document is rendered exactly when some row is chosen, with the first chosen row's register16 as interval; otherwise the route redirects |
| Queries.ReportRowsNumbered | client_new.py:248-266 | for every chosen row k a document is rendered, and its row k is the as-written report row of chosen row k with serial number k+1 |
| Queries.ReportCorrectedAddsToolSpeed | client.py:130 | the corrected route renders exactly when the route as written does, with the same interval, and each of its rows is the as-written row plus the selected row's register 7 |
| Ingest.DecodeReading | client_new.py:146-150 | the loop yields len/2 floats, value k from registers 2k+1 (high) and 2k (low), or the IndexError of an odd count |
| Ingest.ShouldPersistIff | client_new.py:155 | the trigger fires exactly when Machine On is read, finite and in (0.5, 1.5); only a non-finite Machine On raises. Whether a fired pass stores a row is `CycleInsertsIff` |
| Ingest.PayloadRegisters | client_new.py:170-179 | register i+1 is value i when read, and NULL otherwise |
| Ingest.CycleInsertsIff | client_new.py:139-191 | a pass stores a row exactly when the read has an even count of at least 22 registers, Machine On lies in (0.5, 1.5), the batch value is finite, and the process start and end values that were read round to ints within SQLite's 64-bit INTEGER range |
| Ingest.CycleOverflowFaults | client_new.py:161-191 | a finite process start value that rounds beyond the INTEGER range ends the pass in the OverflowError of the insert, and nothing is stored |
| Ingest.CycleWithoutValues | client_new.py:139-148 | a failed or empty read does nothing, and an odd count ends in the IndexError |
| Ingest.InsertedPayloadFields | client_new.py:159-179 | a stored row holds the clock's texts, `str(round(v[0]))`, the rounded v[16] and v[17] (0 when absent), and every value read |
| Ingest.CycleSkipsWhenOff | client_new.py:188-189 | a finite Machine On outside (0.5, 1.5) skips the pass |
| Ingest.CycleSkipsShortRead | client_new.py:155 | a reading of fewer than 11 values is skipped without error |
| Store.NextRowId | client_new.py:24 | the next id is positive and above every id present |
| Store.AppendKeepsIdsIncreasing | client_new.py:24 | an insert keeps the table in id order |
| Store.RegisterTable.constructor | client_new.py:34 | a fresh database's table is empty |
| Store.RegisterTable.Insert | client_new.py:182-185 | the table gains exactly one row, with the next id and the stored payload |
| Store.RegisterTable.DeleteBatch | client_new.py:209-215 | exactly the rows of that batch are removed, and the others stay in order |
| Store.RegisterTable.DelBatchRoute | client_new.py:289-294 | a missing or empty batch_id deletes nothing; otherwise that batch is deleted |
| Store.RegisterTable.DeleteAll | client_new.py:218-224 | the table is empty afterwards, whatever it held |
| Store.RegisterTable.PollCycle | client_new.py:136-194 | the pass ends as `Cycle` says, overflow of a process flag included; the table gains the new row when one is inserted and is unchanged otherwise |
| PdfReport.AsciiLower | client.py:172 | lower-casing keeps the length and lowers each letter |
| PdfReport.PdfSuffix | client.py:173 | appending ".pdf" gives a name that ends in ".pdf" |
| PdfReport.ChooseFilenameEndsWithPdf | client.py:170-179 | every chosen name ends in ".pdf", in some letter case |
| PdfReport.ChooseFilenameKeepsOverride | client.py:170-175 | a usable override is kept as typed, and ".pdf" is appended exactly when it does not already end so |
| PdfReport.ChooseFilenameFallback | client.py:176-179 | a missing, non-string, empty or whitespace-only override gives `report_data_<stamp>.pdf`, 35 characters |
| PdfReport.ChooseFilenameIdempotent | client.py:170-179 | choosing again with the chosen name as override returns it unchanged |
| PdfReport.SplitDateTimeOfStamp | client.py:111-114 | a stamp that parses prints as DD/MM/YYYY of the same digits and its last eight characters |
| PdfReport.SplitDateTimeFallback | client.py:115-116 | the time cell is empty exactly when the stamp does not parse, and the date cell is then the stamp itself |
| PdfReport.TableBody | client.py:109-142 | line k of the table is row k, numbered k+1 |
| PdfReport.ReportRowAlarmCells | client.py:119-122 | the alarm cells read "Active" exactly for the registers 13, 12, 14 and 15 that are neither NULL nor zero |
| PdfReport.ReportRowNumberCells | client.py:128-132 | the number cells format registers 2, 4, 3 and 6 |
| PdfReport.ReportRowDateCells | client.py:111-114 | a row stamped by the clock prints the moment as DD/MM/YYYY and HH:MM:SS |
| PdfReport.ToolSpeedBlankAsWritten | client.py:130 | in every document /report renders, no row has a "Tool Speed" key, so every line's "Tool Speed(RPM)" cell is blank |
| PdfReport.BlankWithoutKey | client.py:130 | a row with no "Tool Speed" key prints an empty tool-speed cell |
| PdfReport.ToolSpeedShownCorrected | client.py:130 | in the corrected document, line k's "Tool Speed(RPM)" cell shows register 7 of selected row k whenever it is stored |
| PdfReport.StartLineOfReportRow | client.py:33 | the start line shows the first row's date and time |
| PdfReport.EndLineOfReportRow | client.py:34 | the end line shows the last row's date and time |
| PdfReport.ReportDocument | client.py:32-37 | the rendered report's start and end lines are the first and last chosen rows' stamps, and its interval is the first row's register16 |
| PdfReport.ReportDocumentSerials | client.py:125 | line k carries serial number k+1, the row's "S.no" |
| MockPlc.Values | mock_server.py:34-40 | the mock sends eighteen values |
| MockPlc.RegisterBlock | mock_server.py:43-47 | the loop's registers are the encoding of the packed values: 2·n words, low word then high word, every one in 0..65535 |
| MockPlc.MockBlockDecodes | mock_server.py:43-50 | the 36 registers the mock writes decode to exactly the patterns it packed |
| Scenarios.MockValueAt | mock_server.py:44-47 | the client reads value k of the mock's block as the float the mock packed |
| Scenarios.ExactValueAt | mock_server.py:34-40 | a small whole value reaches the client unchanged |
| Scenarios.MockFlagsRead | mock_server.py:34-40 | the client reads the batch, Machine On, the alarms, the interval and the process values at positions 1, 11, 12-15, 16, 17 and 18 as the mock drew them |
| Scenarios.MockBlockSkipsWhenOff | mock_server.py:24 | a block with machine_on 0.0 stores nothing |
| Scenarios.MockBlockInsertsWhenOn | mock_server.py:14 | a block with machine_on 1.0 stores a row whose batch id is the decimal text of the mock's batch number, with its process flags and alarm values |
| Scenarios.MockAlarmsStored | mock_server.py:25-28 | the stored row's alarm bits are the mock's alarm flags |
| Scenarios.BatchThreePointTwo | client_new.py:159 | a reading whose batch value lies strictly between 2.5 and 3.5 (3.2, say) is stored under batch "3" |
| Scenarios.NewBatchFoundAlone | client_new.py:325-337 | after appending the only row of a batch, a search for it returns exactly that row, with count 1 |
| Scenarios.StoreThenSearch | client_new.py:182-185 | a pass storing such a batch-3 reading into a table without batch "3" makes the new row the whole answer to a search for "3", with count 1 |
| Scenarios.NewBatchReportedAlone | client_new.py:240-271 | a row appended to a table in which no earlier row has its batch is the whole report for that batch, numbered 1, with its register16 as the interval |
| Scenarios.LastRowClosesLastPage | client_new.py:198-206 | the page that reaches the end of the table ends with its last row |
| Scenarios.InsertedRowListedLast | client_new.py:198-206 | after an insert, the new row is the last row of the page holding the previous row count |
| Scenarios.DeleteUnknownBatch | client_new.py:209-215 | deleting a batch no row belongs to leaves the table as it was |
| Scenarios.FailureThenSuccess | client_new.py:139-143 | a failed read stores nothing, and a following good pass stores exactly one row with the mock's batch |

## Left out

- HTTP plumbing: Flask routing, `render_template`, `jsonify`, `redirect` and `send_file`. Only the rules behind those routes are modelled; the route results are values.
- `view_data` (`/view`): it lists the id-ordered rows of one batch, or of all batches when none is given, each as a map of id, date, time, batch id, registers 2-7, 9 and 16 and the four alarm bits. It adds no rule beyond the batch test, `alarm_bits_from_row` and `ORDER BY id`, all of which are modelled; the map itself is template glue.
- `DataResource.get` (`/data`): it returns `read_data_from_db()`'s first page of 50 rows, each as a map from the `as_row_list` column names to its values. The page (`ReadDataFromDb`) and the layout (`AsRowList`) are modelled; the naming of the values is not.
- `del_file`: it removes a file from disk, which is file-system I/O.
- SQLAlchemy sessions, commits and their failures. The table is an in-memory sequence. The one insert failure modelled is the OverflowError of an out-of-range process value, caught at client_new.py:191; other database errors are not.
- The `parameters` module (HOST_IP, PORT, REG_ADDR, REG_NB, READ_TIME) is not part of this model. The scenarios assume the client reads the 36 registers the mock writes.
- pyModbusTCP sockets, reconnection and the server's data bank. The read result is a parameter of each pass.
- The `while True` loops, `time.sleep` and the separate process running the poller: the model is one pass at a time, with no concurrency.
- The IEEE-754 single-precision encoding. `struct.unpack('>f')` and `struct.pack('>f')` are the parameters `asFloat` and `pack`. The scenarios assume only that whole numbers 0..10 survive a pack and unpack exactly.
- The random draws of the mock: a sample is any value inside the drawn ranges (`InSimulatedRange`).
- `str()` of a float and `fmt_num`'s rounding to two places are the parameters `show` and `fmt`. `fmt_num` of a text is taken to fail (""); report rows never hold one in a number column.
- The order of rows that tie on a non-unique sort column: SQLite leaves it open. The model uses a stable insertion sort, and its properties (ordered, same rows) hold for any such order.
- SQLite's rowid allocation. `NextRowId` is one above the largest id (1 in an empty table), without the overflow case at 2^63 - 1.
- `strptime`'s leniency: it also accepts fields that are not zero-padded. Every stored stamp is written zero-padded by `strftime`, so only those are modelled.
- `strftime("%Y")` for years below 1000, which the platform may leave unpadded: the model always writes four digits.
- `str.lower()` on non-ASCII letters: only ASCII letters are lowered. No non-ASCII letter lowers to one of ".pdf", so the extension test is unaffected.
- FPDF layout: fonts, widths, the logo, the column-width list (one longer than the titles, which `zip` truncates) and `output`.
- Queries.Select: its own contract only bounds the length; what it selects is stated by `SelectMembers`, `SelectPartition` and `SelectNoMatch`.
- MockPlc.Values: its own contract only fixes the count; what the client reads at each flag position (batch, Machine On, the alarms, the interval and the process values) is stated by `Scenarios.MockFlagsRead`.
- The mock's `ModbusServer` host and port and the block address 600: network configuration, with no effect on the values written.
- SQLite's INTEGER range is checked only for the two process columns, the only integer columns the client binds from a reading; the batch id is a String column, and `id` overflow is the rowid case above.

## Findings

| source | as written | input that shows it | evidently intended | confidence | as-written member | corrected member |
|---|---|---|---|---|---|---|
| client.py:130 | The PDF's "Tool Speed(RPM)" cell reads `row.get("Tool Speed")`. The report rows built at client_new.py:250-265 have no "Tool Speed" key, so `fmt_num(None)` prints "" on every line. | Any stored row whose register7 is 900.0: its report line has an empty "Tool Speed(RPM)" cell. | The report row carries register 7 (tool speed) under "Tool Speed", as `/view` does at client_new.py:121, and the cell shows it. `Queries.Report` models the route as written; `Queries.ReportCorrected` builds its rows with the corrected `Queries.ReportRowOf`. | not executed; high | PdfReport.ToolSpeedBlankAsWritten | PdfReport.ToolSpeedShownCorrected |
