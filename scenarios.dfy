/** End-to-end behaviour of the mock PLC, the polling loop and the table
    together: what a simulated block turns into, a batch that is stored and then
    found, the newest row on the last page, a deletion that matches nothing, and
    a failed read followed by a good one. */
module Scenarios {

  import opened Basics
  import opened Numerics
  import opened RegisterCodec
  import opened Clock
  import opened Schema
  import opened Queries
  import opened Ingest
  import opened Store
  import opened MockPlc

  /** The client reads value k of the mock's block as the float the mock packed. */
  lemma MockValueAt(s: Sample, pack: real -> Pattern, asFloat: Pattern -> Float, k: nat)
    requires k < ValueCount
    ensures 2 * k + 1 < |MockBlock(s, pack)|
    ensures ValueAt(MockBlock(s, pack), asFloat, k) == asFloat(pack(Values(s)[k]))
  {
    var ps := Map(Values(s), pack);
    EncodeLayout(ps);
    JoinOfSplit(ps[k]);
  }

  /** Single-precision floats hold the small whole numbers exactly. */
  ghost predicate WholeNumbersExact(pack: real -> Pattern, asFloat: Pattern -> Float)
  {
    forall x: real :: x == x.Floor as real && 0.0 <= x <= 10.0 ==> asFloat(pack(x)) == Finite(x)
  }

  /** A small whole value of the sample reaches the client unchanged. */
  lemma ExactValueAt(s: Sample, pack: real -> Pattern, asFloat: Pattern -> Float, k: nat, n: int)
    requires k < ValueCount && WholeNumbersExact(pack, asFloat)
    requires 0 <= n <= 10 && Values(s)[k] == n as real
    ensures 2 * k + 1 < |MockBlock(s, pack)|
    ensures ValueAt(MockBlock(s, pack), asFloat, k) == Finite(n as real)
  {
    MockValueAt(s, pack, asFloat, k);
    assert (n as real).Floor == n;
  }

  function FlagValue(x: real): int
  {
    if x == 1.0 then 1 else 0
  }

  /** The block's batch, Machine On, alarm flags, interval and process flags, as
      the client reads them. */
  lemma MockFlagsRead(s: Sample, pack: real -> Pattern, asFloat: Pattern -> Float)
    requires InSimulatedRange(s) && WholeNumbersExact(pack, asFloat)
    ensures |MockBlock(s, pack)| == 2 * ValueCount
    ensures ValueAt(MockBlock(s, pack), asFloat, 0) == Finite(s.batchId as real)
    ensures ValueAt(MockBlock(s, pack), asFloat, 10) == Finite(s.machineOn)
    ensures ValueAt(MockBlock(s, pack), asFloat, 11) == Finite(s.driveTripAlarm)
    ensures ValueAt(MockBlock(s, pack), asFloat, 12) == Finite(s.pressureLowAlarm)
    ensures ValueAt(MockBlock(s, pack), asFloat, 13) == Finite(s.motorPtcAlarm)
    ensures ValueAt(MockBlock(s, pack), asFloat, 14) == Finite(s.tempSensorAlarm)
    ensures ValueAt(MockBlock(s, pack), asFloat, 15) == Finite(s.interval as real)
    ensures ValueAt(MockBlock(s, pack), asFloat, 16) == Finite(s.processStart)
    ensures ValueAt(MockBlock(s, pack), asFloat, 17) == Finite(1.0)
  {
    MockBlockDecodes(s, pack);
    ExactValueAt(s, pack, asFloat, 0, s.batchId);
    ExactValueAt(s, pack, asFloat, 10, FlagValue(s.machineOn));
    ExactValueAt(s, pack, asFloat, 11, FlagValue(s.driveTripAlarm));
    ExactValueAt(s, pack, asFloat, 12, FlagValue(s.pressureLowAlarm));
    ExactValueAt(s, pack, asFloat, 13, FlagValue(s.motorPtcAlarm));
    ExactValueAt(s, pack, asFloat, 14, FlagValue(s.tempSensorAlarm));
    ExactValueAt(s, pack, asFloat, 15, s.interval);
    ExactValueAt(s, pack, asFloat, 16, FlagValue(s.processStart));
    ExactValueAt(s, pack, asFloat, 17, 1);
  }

  /** With machine_on 0.0 the pass stores nothing. */
  lemma MockBlockSkipsWhenOff(s: Sample, pack: real -> Pattern, asFloat: Pattern -> Float, now: Instant)
    requires InSimulatedRange(s) && WholeNumbersExact(pack, asFloat)
    requires s.machineOn == 0.0
    ensures Cycle(Some(MockBlock(s, pack)), now, asFloat) == Skipped
  {
    MockFlagsRead(s, pack, asFloat);
    CycleSkipsWhenOff(Some(MockBlock(s, pack)), now, asFloat);
  }

  /** With machine_on 1.0 the pass stores a row carrying the mock's batch number
      as text, its process start and end flags, and its four alarm flags. */
  lemma MockBlockInsertsWhenOn(s: Sample, pack: real -> Pattern, asFloat: Pattern -> Float, now: Instant)
    requires InSimulatedRange(s) && WholeNumbersExact(pack, asFloat)
    requires s.machineOn == 1.0
    ensures Cycle(Some(MockBlock(s, pack)), now, asFloat).Inserted?
    ensures var p := Cycle(Some(MockBlock(s, pack)), now, asFloat).payload;
      && p.batchId == IntText(s.batchId)
      && p.processStart == FlagValue(s.processStart)
      && p.processEnd == 1
      && p.registers[11] == Some(Finite(s.driveTripAlarm))
      && p.registers[12] == Some(Finite(s.pressureLowAlarm))
      && p.registers[13] == Some(Finite(s.motorPtcAlarm))
      && p.registers[14] == Some(Finite(s.tempSensorAlarm))
  {
    var read := Some(MockBlock(s, pack));
    MockFlagsRead(s, pack, asFloat);
    CycleInsertsIff(read, now, asFloat);
    InsertedPayloadFields(read, now, asFloat);
    assert (s.batchId as real).Floor == s.batchId;
  }

  /** The stored row's alarm bits are the mock's alarm flags. */
  lemma MockAlarmsStored(s: Sample, pack: real -> Pattern, asFloat: Pattern -> Float, now: Instant, id: nat)
    requires InSimulatedRange(s) && WholeNumbersExact(pack, asFloat)
    requires s.machineOn == 1.0
    ensures Cycle(Some(MockBlock(s, pack)), now, asFloat).Inserted?
    ensures AlarmBitsFromRow(Row(id, Stored(Cycle(Some(MockBlock(s, pack)), now, asFloat).payload)))
      == AlarmBits(FlagValue(s.driveTripAlarm), FlagValue(s.pressureLowAlarm),
                   FlagValue(s.motorPtcAlarm), FlagValue(s.tempSensorAlarm))
  {
    MockBlockInsertsWhenOn(s, pack, asFloat, now);
    var p := Cycle(Some(MockBlock(s, pack)), now, asFloat).payload;
    assert Stored(p).registers[11] == StoredFloat(p.registers[11]);
    assert Stored(p).registers[12] == StoredFloat(p.registers[12]);
    assert Stored(p).registers[13] == StoredFloat(p.registers[13]);
    assert Stored(p).registers[14] == StoredFloat(p.registers[14]);
  }

  /** A reading whose batch value lies strictly between 2.5 and 3.5 (3.2, say,
      as single precision holds it) is stored under batch "3". */
  lemma BatchThreePointTwo(regs: seq<Word>, now: Instant, asFloat: Pattern -> Float)
    requires |regs| == 2 * ValueCount
    requires RoundsAt(regs, asFloat, 0) && 2.5 < ValueAt(regs, asFloat, 0).value < 3.5
    requires ValueAt(regs, asFloat, TriggerIndex) == Finite(1.0)
    requires RoundsToInteger(regs, asFloat, 16) && RoundsToInteger(regs, asFloat, 17)
    ensures Cycle(Some(regs), now, asFloat).Inserted?
    ensures Cycle(Some(regs), now, asFloat).payload.batchId == "3"
  {
    CycleInsertsIff(Some(regs), now, asFloat);
    InsertedPayloadFields(Some(regs), now, asFloat);
    var x := ValueAt(regs, asFloat, 0).value;
    assert RoundHalfEven(x) == 3;
  }

  /** Once a row of a batch no earlier row has is appended, a search for that
      batch finds exactly that row, and its count is one. */
  lemma NewBatchFoundAlone(rows: seq<Row>, row: Row, req: FilterRequest)
    requires req.search != ""
    requires forall k :: 0 <= k < |rows| ==> rows[k].data.batchId != req.search
    requires row.data.batchId == req.search
    requires (req.start.None? || req.start.value <= 0) && (req.length.None? || req.length.value != 0)
    ensures Matching(rows + [row], req.search) == [row]
    ensures FilterRows(rows + [row], req) == [row]
    ensures FilterData(rows + [row], req).recordsFiltered == 1
  {
    SelectNoMatch(rows, req.search);
    SelectAppend(rows, row, req.search, true);
    var column, descending := OrderColumnName(req.orderColumn), req.orderDirection == "desc";
    SortBySingleton(row, column, descending);
    WindowOfSingleton([row], req.start, req.length);
  }

  /** A pass that stores a batch-3 reading into a table holding no batch "3"
      makes that row the whole answer to a search for "3". */
  method StoreThenSearch(table: RegisterTable, regs: seq<Word>, now: Instant, asFloat: Pattern -> Float,
                         req: FilterRequest) returns (outcome: CycleOutcome)
    requires table.Valid()
    requires |regs| == 2 * ValueCount
    requires RoundsAt(regs, asFloat, 0) && 2.5 < ValueAt(regs, asFloat, 0).value < 3.5
    requires ValueAt(regs, asFloat, TriggerIndex) == Finite(1.0)
    requires RoundsToInteger(regs, asFloat, 16) && RoundsToInteger(regs, asFloat, 17)
    requires forall k :: 0 <= k < |table.rows| ==> table.rows[k].data.batchId != "3"
    requires req.search == "3"
    requires (req.start.None? || req.start.value <= 0) && (req.length.None? || req.length.value != 0)
    modifies table
    ensures table.Valid() && outcome.Inserted?
    ensures |table.rows| == |old(table.rows)| + 1 && table.rows[..|old(table.rows)|] == old(table.rows)
    ensures FilterRows(table.rows, req) == [table.rows[|table.rows| - 1]]
    ensures FilterData(table.rows, req).recordsFiltered == 1
  {
    BatchThreePointTwo(regs, now, asFloat);
    var before := table.rows;
    outcome := table.PollCycle(Some(regs), now, asFloat);
    var row := table.rows[|table.rows| - 1];
    assert table.rows == before + [row];
    assert row.data.batchId == "3";
    NewBatchFoundAlone(before, row, req);
  }

  /** Sorting one row gives that row. */
  lemma SortBySingleton(row: Row, column: string, descending: bool)
    ensures SortBy([row], column, descending) == [row]
  {
    var r := SortBy([row], column, descending);
    assert |r| == 1 && r[0] in multiset(r);
  }

  /** With no offset and a limit that is absent or not zero, a one-row result is
      returned whole. */
  lemma WindowOfSingleton<T>(s: seq<T>, offset: Option<int>, limit: Option<int>)
    requires |s| == 1
    requires (offset.None? || offset.value <= 0) && (limit.None? || limit.value != 0)
    ensures Window(s, offset, limit) == s
  {
  }

  /** A row of a batch no earlier row has, appended to the table, is the whole
      report for that batch, numbered 1, and its register16 is the interval. */
  lemma NewBatchReportedAlone(rows: seq<Row>, row: Row)
    requires IdsIncreasing(rows + [row])
    requires row.data.batchId != ""
    requires forall k :: 0 <= k < |rows| ==> rows[k].data.batchId != row.data.batchId
    ensures Report(rows + [row], Some(row.data.batchId)) == RenderPdf([ReportRowAsWritten(1, row)], Register(row, 16))
  {
    var batch := row.data.batchId;
    SelectNoMatch(rows, batch);
    SelectAppend(rows, row, batch, true);
    assert Chosen(rows + [row], Some(batch)) == [row];
    ReportSelectionInTableOrder(rows + [row], Some(batch));
    assert ReportRows([row], false) == [ReportRowAsWritten(1, row)];
  }

  /** The last row in id order closes the page that reaches the end of the table. */
  lemma LastRowClosesLastPage(rows: seq<Row>, page: int, perPage: int)
    requires IdsIncreasing(rows)
    requires page >= 1 && perPage >= 0
    requires (page - 1) * perPage < |rows| <= page * perPage
    ensures var listed := ReadDataFromDb(rows, page, perPage);
      |listed| > 0 && listed[|listed| - 1] == rows[|rows| - 1]
  {
    PageStep(page, perPage);
    var a := (page - 1) * perPage;
    assert a + perPage >= |rows|;
    SortByIdOfIncreasing(rows);
    assert ReadDataFromDb(rows, page, perPage) == Window(rows, Some(a), Some(perPage));
    assert Window(rows, Some(a), Some(perPage)) == rows[a..];
    LastOfSuffix(rows, a);
  }

  lemma LastOfSuffix<T>(s: seq<T>, a: int)
    requires 0 <= a < |s|
    ensures |s[a..]| > 0 && s[a..][|s[a..]| - 1] == s[|s| - 1]
  {
  }

  /** After an insert the new row is the last row listed by id: it closes the
      page that holds the previous row count. */
  lemma InsertedRowListedLast(rows: seq<Row>, p: Payload, page: int, perPage: int)
    requires IdsIncreasing(rows)
    requires page >= 1 && perPage >= 0
    requires (page - 1) * perPage <= |rows| < page * perPage
    ensures var row := Row(NextRowId(rows), Stored(p));
      var listed := ReadDataFromDb(rows + [row], page, perPage);
      |listed| > 0 && listed[|listed| - 1] == row
  {
    var row := Row(NextRowId(rows), Stored(p));
    AppendKeepsIdsIncreasing(rows, Stored(p));
    LastRowClosesLastPage(rows + [row], page, perPage);
  }

  /** Deleting a batch no row belongs to leaves the table as it was. */
  method DeleteUnknownBatch(table: RegisterTable, batch: string)
    requires table.Valid()
    requires forall k :: 0 <= k < |table.rows| ==> table.rows[k].data.batchId != batch
    modifies table
    ensures table.Valid() && table.rows == old(table.rows)
  {
    SelectNoMatch(table.rows, batch);
    table.DeleteBatch(batch);
  }

  /** A read that fails (the client's read returns None) stores nothing, and a
      following pass on the mock's block for a running machine stores exactly one
      row, with the mock's batch number. */
  method FailureThenSuccess(s: Sample, pack: real -> Pattern, asFloat: Pattern -> Float,
                            first: Instant, second: Instant)
    returns (failed: CycleOutcome, stored: CycleOutcome, count: nat, batch: string)
    requires InSimulatedRange(s) && WholeNumbersExact(pack, asFloat)
    requires s.machineOn == 1.0
    ensures failed == NoData && stored.Inserted?
    ensures count == 1 && batch == IntText(s.batchId)
  {
    var table := new RegisterTable();
    failed := table.PollCycle(None, first, asFloat);
    var registers := RegisterBlock(Values(s), pack);
    MockBlockInsertsWhenOn(s, pack, asFloat, second);
    stored := table.PollCycle(Some(registers), second, asFloat);
    count := |table.rows|;
    batch := table.rows[0].data.batchId;
  }
}
