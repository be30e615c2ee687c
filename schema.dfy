/** The register_data table's row shape (client_new.py:22-32), the row helpers
    alarm_bits_from_row and as_row_list, and the getattr-by-name column access
    they rely on. */
module Schema {

  import opened Basics
  import opened Numerics

  const RegisterCount := 18

  /** The Float columns register1..register18; register i is at index i - 1,
      None is SQL NULL. */
  type Registers = s: seq<Option<Float>> | |s| == 18 witness [None, None, None, None, None, None, None, None, None, None, None, None, None, None, None, None, None, None]

  /** The values an insert supplies: everything but the store-assigned id. */
  datatype Payload = Payload(
    timestamp: string,
    date: string,
    time: string,
    batchId: string,
    processStart: int,
    processEnd: int,
    registers: Registers)

  /** One stored row. */
  datatype Row = Row(id: nat, data: Payload)

  function Register(row: Row, i: int): Option<Float>
    requires 1 <= i <= RegisterCount
  {
    row.data.registers[i - 1]
  }

  /** SQLite has no NaN: binding a NaN double stores NULL. */
  function StoredFloat(v: Option<Float>): Option<Float>
  {
    if v == Some(NaN) then None else v
  }

  /** The payload as it reads back after the insert: every column but the
      registers unchanged, no register NaN, every other register value kept,
      and a NaN register NULL. */
  function Stored(p: Payload): (q: Payload)
    ensures q.(registers := p.registers) == p
    ensures forall k :: 0 <= k < RegisterCount ==> q.registers[k] != Some(NaN)
    ensures forall k :: 0 <= k < RegisterCount && p.registers[k] != Some(NaN) ==> q.registers[k] == p.registers[k]
    ensures forall k :: 0 <= k < RegisterCount && p.registers[k] == Some(NaN) ==> q.registers[k] == None
  {
    p.(registers := seq(RegisterCount, k requires 0 <= k < RegisterCount => StoredFloat(p.registers[k])))
  }

  /** Storing what was read back stores it unchanged: a stored payload is a
      fixed point of the insert. */
  lemma StoredIdempotent(p: Payload)
    ensures Stored(Stored(p)) == p.(registers := Stored(p).registers)
    ensures Stored(Stored(p)) == Stored(p)
  {
    var q := Stored(p);
    assert Stored(q).registers == q.registers;
  }

  /** The range of an SQLite INTEGER, a signed 64-bit value: the sqlite3 driver
      raises OverflowError when asked to bind an int outside it. */
  predicate FitsInteger(i: int)
  {
    -0x8000_0000_0000_0000 <= i <= 0x7FFF_FFFF_FFFF_FFFF
  }

  /** Row ids strictly increase along the table. */
  predicate IdsIncreasing(rows: seq<Row>)
  {
    forall i, j :: 0 <= i < j < |rows| ==> rows[i].id < rows[j].id
  }

  /** Python truthiness of a stored Float column: NULL and 0.0 are false,
      everything else (infinities included) is true. */
  predicate Truthy(v: Option<Float>)
  {
    match v
    case None => false
    case Some(Finite(x)) => x != 0.0
    case Some(_) => true
  }

  function Bit(b: bool): int
  {
    if b then 1 else 0
  }

  datatype AlarmBits = AlarmBits(driveTrip: int, pressureLow: int, motorPtc: int, tempSensor: int)

  /** alarm_bits_from_row: registers 12..15 as 0/1 flags, in the order
      drive trip, pressure low, motor PTC, temperature sensor. */
  function AlarmBitsFromRow(row: Row): AlarmBits
  {
    AlarmBits(
      Bit(Truthy(Register(row, 12))),
      Bit(Truthy(Register(row, 13))),
      Bit(Truthy(Register(row, 14))),
      Bit(Truthy(Register(row, 15))))
  }

  /** A stored column that Python reads as false: NULL or zero. */
  predicate NullOrZero(v: Option<Float>)
  {
    v == None || v == Some(Finite(0.0))
  }

  /** Truthiness of a stored column is exactly "neither NULL nor zero"; an
      infinity counts as true. */
  lemma TruthyIff(v: Option<Float>)
    ensures Truthy(v) <==> !NullOrZero(v)
  {
  }

  /** Each alarm bit is 0 exactly when its register is NULL or zero, and 1
      exactly when it holds anything else, 0.3 and the infinities included. */
  lemma AlarmBitsMeaning(row: Row)
    ensures var b := AlarmBitsFromRow(row);
      && (b.driveTrip == 0 <==> NullOrZero(Register(row, 12))) && (b.driveTrip == 1 <==> !NullOrZero(Register(row, 12)))
      && (b.pressureLow == 0 <==> NullOrZero(Register(row, 13))) && (b.pressureLow == 1 <==> !NullOrZero(Register(row, 13)))
      && (b.motorPtc == 0 <==> NullOrZero(Register(row, 14))) && (b.motorPtc == 1 <==> !NullOrZero(Register(row, 14)))
      && (b.tempSensor == 0 <==> NullOrZero(Register(row, 15))) && (b.tempSensor == 1 <==> !NullOrZero(Register(row, 15)))
  {
    TruthyIff(Register(row, 12));
    TruthyIff(Register(row, 13));
    TruthyIff(Register(row, 14));
    TruthyIff(Register(row, 15));
  }

  /** A value of the lists /filterData returns. */
  datatype Cell = IntCell(i: int) | TextCell(s: string) | FloatCell(f: Float) | NullCell

  function ColumnValue(v: Option<Float>): Cell
  {
    match v
    case None => NullCell
    case Some(f) => FloatCell(f)
  }

  function RegisterColumn(i: nat): string
  {
    "register" + NatText(i)
  }

  /** The index i of a column named "register<i>" with 1 <= i <= 18, else 0. */
  function RegisterIndex(name: string): (i: int)
    ensures 0 <= i <= RegisterCount
  {
    if |name| > 8 && name[..8] == "register" && AllDigits(name[8..])
       && NatText(TextValue(name[8..])) == name[8..]
       && 1 <= TextValue(name[8..]) <= RegisterCount
    then TextValue(name[8..])
    else 0
  }

  lemma RegisterIndexOfColumn(i: nat)
    requires 1 <= i <= RegisterCount
    ensures RegisterIndex(RegisterColumn(i)) == i
  {
    var name := RegisterColumn(i);
    assert name[..8] == "register" && name[8..] == NatText(i);
    NatTextValue(i);
  }

  const HeaderColumns: seq<string> :=
    ["id", "timestamp", "date", "time", "batch_id", "process_start", "process_end",
     "drive_trip_alarm", "pressure_low_alarm", "motor_ptc_alarm", "temp_sensor_alarm"]

  /** The /filterData column list: 11 header columns, then register1..register18. */
  const Columns: seq<string> := HeaderColumns + RegisterColumns(RegisterCount)

  /** register1 .. register<n>. */
  function RegisterColumns(n: nat): (names: seq<string>)
    ensures |names| == n
    ensures forall k :: 0 <= k < n ==> names[k] == RegisterColumn(k + 1)
  {
    if n == 0 then [] else RegisterColumns(n - 1) + [RegisterColumn(n)]
  }

  const AlarmColumns: set<string> :=
    {"drive_trip_alarm", "pressure_low_alarm", "motor_ptc_alarm", "temp_sensor_alarm"}

  /** getattr(row, name, None) on the stored columns. */
  function DbCell(row: Row, name: string): Cell
  {
    if name == "id" then IntCell(row.id)
    else if name == "timestamp" then TextCell(row.data.timestamp)
    else if name == "date" then TextCell(row.data.date)
    else if name == "time" then TextCell(row.data.time)
    else if name == "batch_id" then TextCell(row.data.batchId)
    else if name == "process_start" then IntCell(row.data.processStart)
    else if name == "process_end" then IntCell(row.data.processEnd)
    else if RegisterIndex(name) != 0 then ColumnValue(Register(row, RegisterIndex(name)))
    else NullCell
  }

  /** The value a column name denotes in the /filterData and /data views: the four
      alarm names are derived by alarm_bits_from_row, the rest are stored. */
  function ColumnCell(row: Row, name: string): Cell
  {
    var bits := AlarmBitsFromRow(row);
    if name == "drive_trip_alarm" then IntCell(bits.driveTrip)
    else if name == "pressure_low_alarm" then IntCell(bits.pressureLow)
    else if name == "motor_ptc_alarm" then IntCell(bits.motorPtc)
    else if name == "temp_sensor_alarm" then IntCell(bits.tempSensor)
    else DbCell(row, name)
  }

  /** as_row_list: the 11 header values, then register1..register18. */
  function AsRowList(row: Row): (cells: seq<Cell>)
    ensures |cells| == |HeaderColumns| + RegisterCount
  {
    HeaderCells(row) + seq(RegisterCount, k requires 0 <= k < RegisterCount => ColumnValue(row.data.registers[k]))
  }

  /** The stored header values and the four alarm bits, in column order. */
  function HeaderCells(row: Row): (cells: seq<Cell>)
    ensures |cells| == |HeaderColumns|
  {
    var bits := AlarmBitsFromRow(row);
    [IntCell(row.id), TextCell(row.data.timestamp), TextCell(row.data.date), TextCell(row.data.time),
     TextCell(row.data.batchId), IntCell(row.data.processStart), IntCell(row.data.processEnd),
     IntCell(bits.driveTrip), IntCell(bits.pressureLow), IntCell(bits.motorPtc), IntCell(bits.tempSensor)]
  }

  /** A register column's name differs from every header column's name. */
  lemma RegisterColumnIsNotHeader(i: nat)
    requires 1 <= i <= RegisterCount
    ensures RegisterColumn(i) !in HeaderColumns
  {
    var name := RegisterColumn(i);
    assert name[0] == 'r' && name[2] == 'g' && |name| >= 9;
  }

  /** A register column names its register's stored value. */
  lemma ColumnCellOfRegister(row: Row, i: nat)
    requires 1 <= i <= RegisterCount
    ensures ColumnCell(row, RegisterColumn(i)) == ColumnValue(row.data.registers[i - 1])
  {
    RegisterColumnIsNotHeader(i);
    RegisterIndexOfColumn(i);
  }

  /** Position 10 + i of a flattened row is register i. */
  lemma AsRowListRegister(row: Row, i: nat)
    requires 1 <= i <= RegisterCount
    ensures AsRowList(row)[|HeaderColumns| + i - 1] == ColumnValue(row.data.registers[i - 1])
  {
  }

  /** The first eleven positions of a flattened row hold the header columns. */
  lemma AsRowListHeader(row: Row, k: int)
    requires 0 <= k < |HeaderColumns|
    ensures AsRowList(row)[k] == ColumnCell(row, HeaderColumns[k])
  {
    assert AsRowList(row)[k] == HeaderCells(row)[k];
    if k < 7 {
      StoredHeaderCell(row, k);
    } else {
      AlarmHeaderCell(row, k);
    }
  }

  lemma StoredHeaderCell(row: Row, k: int)
    requires 0 <= k < 7
    ensures HeaderCells(row)[k] == ColumnCell(row, HeaderColumns[k])
  {
  }

  lemma AlarmHeaderCell(row: Row, k: int)
    requires 7 <= k < |HeaderColumns|
    ensures HeaderCells(row)[k] == ColumnCell(row, HeaderColumns[k])
  {
  }

  /** as_row_list lists every row in the column order of /filterData: position k
      holds the value that column k's name denotes. */
  lemma AsRowListFollowsColumns(row: Row, k: int)
    requires 0 <= k < |Columns|
    ensures AsRowList(row)[k] == ColumnCell(row, Columns[k])
  {
    if k >= |HeaderColumns| {
      var i := k - |HeaderColumns| + 1;
      assert Columns[k] == RegisterColumn(i);
      ColumnCellOfRegister(row, i);
      AsRowListRegister(row, i);
    } else {
      assert Columns[k] == HeaderColumns[k];
      AsRowListHeader(row, k);
    }
  }
}
