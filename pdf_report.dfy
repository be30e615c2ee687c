/** The text content of the PDF report (client.py): the output file name, the
    four header lines on the right, and one line of twelve cells per report row.
    Fonts, widths and page layout are not modelled; the texts are. */
module PdfReport {

  import opened Basics
  import opened Numerics
  import opened Clock
  import opened Schema
  import opened Queries

  // ---------------------------------------------------------------- file name

  /** The filename_override argument: None, something that is not a string, or a string. */
  datatype Override = Absent | NonText | Text(s: string)

  /** The characters str.strip() removes (str.isspace()). */
  predicate IsPyWhitespace(c: char)
  {
    || ('\U{9}' <= c <= '\U{D}') || ('\U{1C}' <= c <= '\U{20}')
    || c == '\U{85}' || c == '\U{A0}' || c == '\U{1680}'
    || ('\U{2000}' <= c <= '\U{200A}') || c == '\U{2028}' || c == '\U{2029}'
    || c == '\U{202F}' || c == '\U{205F}' || c == '\U{3000}'
  }

  /** s.strip() is empty. */
  predicate IsBlank(s: string)
  {
    forall k :: 0 <= k < |s| ==> IsPyWhitespace(s[k])
  }

  function LowerChar(c: char): char
  {
    if 'A' <= c <= 'Z' then (c as int + 32) as char else c
  }

  /** str.lower() on ASCII letters. */
  function AsciiLower(s: string): (t: string)
    ensures |t| == |s|
    ensures forall k :: 0 <= k < |s| ==> t[k] == LowerChar(s[k])
  {
    if s == [] then [] else AsciiLower(s[..|s| - 1]) + [LowerChar(s[|s| - 1])]
  }

  /** s.lower().endswith(".pdf") */
  predicate EndsWithPdf(s: string)
  {
    |s| >= 4 && AsciiLower(s[|s| - 4..]) == ".pdf"
  }

  /** The file the report is written to: a non-blank string override, with ".pdf"
      added unless it already ends so in any letter case; otherwise a name from the
      clock. */
  function ChooseFilename(o: Override, now: Instant): string
  {
    if o.Text? && !IsBlank(o.s) then
      if EndsWithPdf(o.s) then o.s else o.s + ".pdf"
    else
      "report_data_" + FileStamp(now) + ".pdf"
  }

  lemma PdfSuffix(s: string)
    ensures EndsWithPdf(s + ".pdf")
  {
    assert (s + ".pdf")[|s| + 4 - 4..] == ".pdf";
  }

  /** Every chosen name ends in ".pdf" (in some letter case). */
  lemma ChooseFilenameEndsWithPdf(o: Override, now: Instant)
    ensures EndsWithPdf(ChooseFilename(o, now))
  {
    if o.Text? && !IsBlank(o.s) {
      PdfSuffix(o.s);
    } else {
      PdfSuffix("report_data_" + FileStamp(now));
      assert "report_data_" + FileStamp(now) + ".pdf" == ("report_data_" + FileStamp(now)) + ".pdf";
    }
  }

  /** A usable override is kept as typed, extended by ".pdf" exactly when it does
      not already end in it. */
  lemma ChooseFilenameKeepsOverride(s: string, now: Instant)
    requires !IsBlank(s)
    ensures |ChooseFilename(Text(s), now)| >= |s| && ChooseFilename(Text(s), now)[..|s|] == s
    ensures ChooseFilename(Text(s), now) == s <==> EndsWithPdf(s)
    ensures ChooseFilename(Text(s), now) != s ==> ChooseFilename(Text(s), now)[|s|..] == ".pdf"
  {
  }

  /** With no usable override, the name is "report_data_", the clock's stamp and
      ".pdf"; None, a non-string, "" and all-whitespace strings all fall back. */
  lemma ChooseFilenameFallback(o: Override, now: Instant)
    requires o.Absent? || o.NonText? || (o.Text? && IsBlank(o.s))
    ensures ChooseFilename(o, now) == "report_data_" + FileStamp(now) + ".pdf"
    ensures |ChooseFilename(o, now)| == 35
  {
  }

  /** Asking again with the chosen name as the override gives the same name back. */
  lemma ChooseFilenameIdempotent(o: Override, now: Instant, later: Instant)
    ensures ChooseFilename(Text(ChooseFilename(o, now)), later) == ChooseFilename(o, now)
  {
    var name := ChooseFilename(o, now);
    ChooseFilenameEndsWithPdf(o, now);
    assert !IsPyWhitespace(name[|name| - 1]) by {
      assert AsciiLower(name[|name| - 4..])[3] == 'f';
    }
    assert !IsBlank(name);
  }

  // ---------------------------------------------------------------- cells

  /** row.get(key) */
  function Get(row: ReportRow, key: ReportKey): Option<ReportValue>
  {
    if key in row then Some(row[key]) else None
  }

  /** Python truthiness of a report value. */
  predicate PyTruthy(v: ReportValue)
  {
    match v
    case RInt(i) => i != 0
    case RText(s) => s != ""
    case RNum(x) => Truthy(x)
  }

  /** "Active" if row.get(key, 0) else "" */
  function AlarmCell(row: ReportRow, key: ReportKey): (cell: string)
    ensures cell == "Active" <==> key in row && PyTruthy(row[key])
    ensures cell != "Active" ==> cell == ""
  {
    if key in row && PyTruthy(row[key]) then "Active" else ""
  }

  /** fmt_num: str(round(float(v), 2)), with "" where float(v) raises; the
      formatting of a float is the parameter fmt. */
  function FmtNum(v: Option<ReportValue>, fmt: Float -> string): string
  {
    match v
    case None => ""
    case Some(RNum(None)) => ""
    case Some(RNum(Some(f))) => fmt(f)
    case Some(RInt(i)) => fmt(Finite(i as real))
    case Some(RText(_)) => ""
  }

  /** str(v) in an f-string; show is str() of a float. */
  function ValueText(v: ReportValue, show: Float -> string): string
  {
    match v
    case RInt(i) => IntText(i)
    case RText(s) => s
    case RNum(None) => "None"
    case RNum(Some(f)) => show(f)
  }

  /** The date and time cells: the "Date & Time" value re-read with strptime and
      written day first; when it does not parse, the value itself and an empty time. */
  function SplitDateTime(v: Option<ReportValue>, show: Float -> string): (cells: (string, string))
  {
    match v
    case None => ("", "")
    case Some(RText(s)) =>
      (match ParseStamp(s)
       case Some(dt) => (DayFirstDate(dt), TimeText(dt))
       case None => (s, ""))
    case Some(other) => (ValueText(other, show), "")
  }

  /** A stamp that parses is cut into its fields: the date cell is day/month/year
      of the same digits and the time cell is the stamp's last eight characters. */
  lemma SplitDateTimeOfStamp(s: string, show: Float -> string)
    requires ParseStamp(s).Some?
    ensures SplitDateTime(Some(RText(s)), show) == (s[8..10] + "/" + s[5..7] + "/" + s[0..4], s[11..19])
  {
    var dt := ParseStamp(s).value;
    StampOfParse(s);
    var t := StampText(dt);
    assert t[8..10] == Pad2(dt.day) && t[5..7] == Pad2(dt.month) && t[0..4] == Pad4(dt.year);
    assert t[11..19] == TimeText(dt);
  }

  /** The time cell is empty exactly when the stamp does not parse, and then the
      date cell is the stamp unchanged. */
  lemma SplitDateTimeFallback(s: string, show: Float -> string)
    ensures SplitDateTime(Some(RText(s)), show).1 == "" <==> ParseStamp(s).None?
    ensures ParseStamp(s).None? ==> SplitDateTime(Some(RText(s)), show).0 == s
  {
    if ParseStamp(s).Some? {
      assert |TimeText(ParseStamp(s).value)| == 8;
    }
  }

  /** The table's column titles; there is no batch column. */
  const TableHeaders: seq<string> :=
    ["S.no", "Date(DD/MM/yyyy)", "Time(HH:MM:SS)", "Motor Rpm", "Torque", "Tool Speed(RPM)",
     "Current(Amp)", "Temperature(c)", "Pressure Low", "Drive Trip", "Motor PTC", "Temp Sensor"]

  /** One table line: the serial number, the split date and time, five numbers
      and four alarm cells, one per title. */
  function BodyCells(i: int, row: ReportRow, show: Float -> string, fmt: Float -> string): (cells: seq<string>)
    ensures |cells| == |TableHeaders|
  {
    [IntText(i),
     SplitDateTime(Get(row, DateAndTime), show).0,
     SplitDateTime(Get(row, DateAndTime), show).1,
     FmtNum(Get(row, MotorSpeed), fmt),
     FmtNum(Get(row, MotorTorque), fmt),
     FmtNum(Get(row, ToolSpeed), fmt),
     FmtNum(Get(row, MotorCurrent), fmt),
     FmtNum(Get(row, ProductTemperature), fmt),
     AlarmCell(row, PressureLowAlarm),
     AlarmCell(row, DriveTripAlarm),
     AlarmCell(row, MotorPtcAlarm),
     AlarmCell(row, TempSensorAlarm)]
  }

  /** Where each value of a row lands in its line. */
  lemma BodyCellsLayout(i: int, row: ReportRow, show: Float -> string, fmt: Float -> string)
    ensures var cells := BodyCells(i, row, show, fmt);
      && cells[0] == IntText(i)
      && cells[1] == SplitDateTime(Get(row, DateAndTime), show).0
      && cells[2] == SplitDateTime(Get(row, DateAndTime), show).1
      && cells[3] == FmtNum(Get(row, MotorSpeed), fmt)
      && cells[4] == FmtNum(Get(row, MotorTorque), fmt)
      && cells[5] == FmtNum(Get(row, ToolSpeed), fmt)
      && cells[6] == FmtNum(Get(row, MotorCurrent), fmt)
      && cells[7] == FmtNum(Get(row, ProductTemperature), fmt)
      && cells[8] == AlarmCell(row, PressureLowAlarm)
      && cells[9] == AlarmCell(row, DriveTripAlarm)
      && cells[10] == AlarmCell(row, MotorPtcAlarm)
      && cells[11] == AlarmCell(row, TempSensorAlarm)
  {
  }

  /** The table body: line k is row k numbered from 1. */
  function TableBody(data: seq<ReportRow>, show: Float -> string, fmt: Float -> string): (lines: seq<seq<string>>)
    ensures |lines| == |data|
    ensures forall k :: 0 <= k < |data| ==> lines[k] == BodyCells(k + 1, data[k], show, fmt)
  {
    if data == [] then []
    else TableBody(data[..|data| - 1], show, fmt) + [BodyCells(|data|, data[|data| - 1], show, fmt)]
  }

  /** The fixed left-hand header block. */
  const LeftInfo: seq<string> :=
    ["PROCESS PILOT : ICA", "Project Number : ICA", "Serial Number : ICA", "User Name : ica@ica.com"]

  /** The right-hand header block: first and last row times, the print time and
      the interval ("-" when there is none). */
  function HeaderLines(data: seq<ReportRow>, interval: Option<Float>, now: Instant, show: Float -> string): (lines: seq<string>)
    requires |data| > 0 && DateAndTime in data[0] && DateAndTime in data[|data| - 1]
    ensures |lines| == |LeftInfo|
  {
    ["Process Start Time : " + ValueText(data[0][DateAndTime], show),
     "Process End Time   : " + ValueText(data[|data| - 1][DateAndTime], show),
     "Date : " + DayFirstDate(now) + " " + TimeText(now),
     "Interval : " + (if interval.None? then "-" else show(interval.value))]
  }

  // ---------------------------------------------------------------- the report's document

  /** The serial cell is the row's "S.no", and the alarm cells read "Active"
      exactly for registers 13, 12, 14 and 15 that are neither NULL nor zero. */
  lemma ReportRowAlarmCells(idx: int, row: Row, show: Float -> string, fmt: Float -> string)
    ensures var cells := BodyCells(idx, ReportRowAsWritten(idx, row), show, fmt);
      && cells[0] == ValueText(ReportRowAsWritten(idx, row)[SerialNo], show)
      && (cells[8] == "Active" <==> !NullOrZero(Register(row, 13)))
      && (cells[9] == "Active" <==> !NullOrZero(Register(row, 12)))
      && (cells[10] == "Active" <==> !NullOrZero(Register(row, 14)))
      && (cells[11] == "Active" <==> !NullOrZero(Register(row, 15)))
  {
    BodyCellsLayout(idx, ReportRowAsWritten(idx, row), show, fmt);
    ReportRowHead(idx, row);
    ReportRowAlarms(idx, row);
    AlarmBitsMeaning(row);
  }

  /** The number cells show motor speed, torque, current and product temperature
      (registers 2, 4, 3 and 6) through fmt_num. */
  lemma ReportRowNumberCells(idx: int, row: Row, show: Float -> string, fmt: Float -> string)
    ensures var cells := BodyCells(idx, ReportRowAsWritten(idx, row), show, fmt);
      && cells[3] == FmtNum(Some(RNum(Register(row, 2))), fmt)
      && cells[4] == FmtNum(Some(RNum(Register(row, 4))), fmt)
      && cells[6] == FmtNum(Some(RNum(Register(row, 3))), fmt)
      && cells[7] == FmtNum(Some(RNum(Register(row, 6))), fmt)
  {
    BodyCellsLayout(idx, ReportRowAsWritten(idx, row), show, fmt);
    ReportRowMeasurements(idx, row);
  }

  /** A row whose date and time came from the clock prints that moment as
      DD/MM/YYYY and HH:MM:SS. */
  lemma ReportRowDateCells(idx: int, row: Row, dt: Instant, show: Float -> string, fmt: Float -> string)
    requires row.data.date == DateText(dt) && row.data.time == TimeText(dt)
    ensures BodyCells(idx, ReportRowAsWritten(idx, row), show, fmt)[1] == DayFirstDate(dt)
    ensures BodyCells(idx, ReportRowAsWritten(idx, row), show, fmt)[2] == TimeText(dt)
  {
    BodyCellsLayout(idx, ReportRowAsWritten(idx, row), show, fmt);
    StampIsDateSpaceTime(dt);
    ParseOfStamp(dt);
    ReportRowHead(idx, row);
    assert Get(ReportRowAsWritten(idx, row), DateAndTime) == Some(RText(StampText(dt)));
  }

  /** As written, no row /report passes to the document has a "Tool Speed" key,
      so the "Tool Speed(RPM)" column is blank on every line of the table. */
  lemma ToolSpeedBlankAsWritten(rows: seq<Row>, batchQuery: Option<string>, show: Float -> string,
                                fmt: Float -> string, k: int)
    requires Report(rows, batchQuery).RenderPdf?
    requires 0 <= k < |Report(rows, batchQuery).data|
    ensures ToolSpeed !in Report(rows, batchQuery).data[k]
    ensures TableBody(Report(rows, batchQuery).data, show, fmt)[k][5] == ""
  {
    RenderedToolSpeedBlank(ReportSelection(rows, batchQuery), show, fmt, k);
  }

  /** The same for the document of any selection. */
  lemma RenderedToolSpeedBlank(selected: seq<Row>, show: Float -> string, fmt: Float -> string, k: int)
    requires 0 <= k < |selected|
    ensures Render(selected, false).RenderPdf? && |Render(selected, false).data| == |selected|
    ensures ToolSpeed !in Render(selected, false).data[k]
    ensures TableBody(Render(selected, false).data, show, fmt)[k][5] == ""
  {
    var data := ReportRows(selected, false);
    assert data[k] == ReportRowAsWritten(k + 1, selected[k]);
    ReportRowAsWrittenKeys(k + 1, selected[k]);
    BlankWithoutKey(k + 1, data[k], show, fmt);
  }

  /** A row without a "Tool Speed" key prints an empty tool speed cell. */
  lemma BlankWithoutKey(i: int, r: ReportRow, show: Float -> string, fmt: Float -> string)
    requires ToolSpeed !in r
    ensures BodyCells(i, r, show, fmt)[5] == ""
  {
    BodyCellsLayout(i, r, show, fmt);
  }

  /** With the corrected rows, line k's "Tool Speed(RPM)" cell shows register 7
      of the k-th selected row whenever it is stored. */
  lemma ToolSpeedShownCorrected(rows: seq<Row>, batchQuery: Option<string>, show: Float -> string,
                                fmt: Float -> string, k: int)
    requires ReportCorrected(rows, batchQuery).RenderPdf?
    requires 0 <= k < |ReportCorrected(rows, batchQuery).data|
    ensures k < |ReportSelection(rows, batchQuery)|
    ensures var row := ReportSelection(rows, batchQuery)[k];
      var cell := TableBody(ReportCorrected(rows, batchQuery).data, show, fmt)[k][5];
      && (Register(row, 7).Some? ==> cell == fmt(Register(row, 7).value))
      && (Register(row, 7).None? ==> cell == "")
  {
    RenderedToolSpeedShown(ReportSelection(rows, batchQuery), show, fmt, k);
  }

  /** The same for the corrected document of any selection. */
  lemma RenderedToolSpeedShown(selected: seq<Row>, show: Float -> string, fmt: Float -> string, k: int)
    requires 0 <= k < |selected|
    ensures Render(selected, true).RenderPdf? && |Render(selected, true).data| == |selected|
    ensures var cell := TableBody(Render(selected, true).data, show, fmt)[k][5];
      && (Register(selected[k], 7).Some? ==> cell == fmt(Register(selected[k], 7).value))
      && (Register(selected[k], 7).None? ==> cell == "")
  {
    var data := ReportRows(selected, true);
    assert data[k] == ReportRowOf(k + 1, selected[k]);
    ToolSpeedCellCorrected(k + 1, selected[k], show, fmt);
    assert TableBody(data, show, fmt)[k] == BodyCells(k + 1, data[k], show, fmt);
  }

  /** A corrected report row prints register 7 in its tool speed cell. */
  lemma ToolSpeedCellCorrected(i: int, row: Row, show: Float -> string, fmt: Float -> string)
    ensures var cell := BodyCells(i, ReportRowOf(i, row), show, fmt)[5];
      && (Register(row, 7).Some? ==> cell == fmt(Register(row, 7).value))
      && (Register(row, 7).None? ==> cell == "")
  {
    BodyCellsLayout(i, ReportRowOf(i, row), show, fmt);
    assert Get(ReportRowOf(i, row), ToolSpeed) == Some(RNum(Register(row, 7)));
  }

  /** The start line shows the first row's date and time. */
  lemma StartLineOfReportRow(data: seq<ReportRow>, interval: Option<Float>, now: Instant, show: Float -> string,
                             first: Row, i: int)
    requires |data| > 0 && data[0] == ReportRowAsWritten(i, first)
    requires DateAndTime in data[|data| - 1]
    ensures DateAndTime in data[0]
    ensures HeaderLines(data, interval, now, show)[0]
      == "Process Start Time : " + first.data.date + " " + first.data.time
  {
    ReportRowHead(i, first);
  }

  /** The end line shows the last row's date and time. */
  lemma EndLineOfReportRow(data: seq<ReportRow>, interval: Option<Float>, now: Instant, show: Float -> string,
                           last: Row, j: int)
    requires |data| > 0 && data[|data| - 1] == ReportRowAsWritten(j, last)
    requires DateAndTime in data[0]
    ensures DateAndTime in data[|data| - 1]
    ensures HeaderLines(data, interval, now, show)[1]
      == "Process End Time   : " + last.data.date + " " + last.data.time
  {
    ReportRowHead(j, last);
  }

  /** The interval line shows the interval, or "-" when there is none. */
  lemma IntervalLine(data: seq<ReportRow>, interval: Option<Float>, now: Instant, show: Float -> string)
    requires |data| > 0 && DateAndTime in data[0] && DateAndTime in data[|data| - 1]
    ensures HeaderLines(data, interval, now, show)[3]
      == "Interval : " + (if interval.None? then "-" else show(interval.value))
  {
  }

  /** The document /report renders: its header's start and end times are the
      first and last selected rows' date and time, and the interval line shows
      the first row's register16. */
  lemma ReportDocument(rows: seq<Row>, batchQuery: Option<string>, now: Instant, show: Float -> string)
    requires IdsIncreasing(rows)
    requires Report(rows, batchQuery).RenderPdf?
    ensures var doc := Report(rows, batchQuery);
      var chosen := Chosen(rows, batchQuery);
      && |doc.data| == |chosen| > 0
      && DateAndTime in doc.data[0] && DateAndTime in doc.data[|doc.data| - 1]
      && HeaderLines(doc.data, doc.interval, now, show)[0]
           == "Process Start Time : " + chosen[0].data.date + " " + chosen[0].data.time
      && HeaderLines(doc.data, doc.interval, now, show)[1]
           == "Process End Time   : " + chosen[|chosen| - 1].data.date + " " + chosen[|chosen| - 1].data.time
      && HeaderLines(doc.data, doc.interval, now, show)[3]
           == "Interval : " + (if Register(chosen[0], 16).None? then "-" else show(Register(chosen[0], 16).value))
  {
    ReportRendersIff(rows, batchQuery);
    var doc := Report(rows, batchQuery);
    var chosen := Chosen(rows, batchQuery);
    var n := |chosen|;
    assert doc.data[0] == ReportRowAsWritten(1, chosen[0]);
    assert doc.data[n - 1] == ReportRowAsWritten(n, chosen[n - 1]);
    ReportRowHead(1, chosen[0]);
    ReportRowHead(n, chosen[n - 1]);
    StartLineOfReportRow(doc.data, doc.interval, now, show, chosen[0], 1);
    EndLineOfReportRow(doc.data, doc.interval, now, show, chosen[n - 1], n);
    IntervalLine(doc.data, doc.interval, now, show);
  }

  /** Line k of the table carries serial number k + 1, the "S.no" of row k. */
  lemma ReportDocumentSerials(rows: seq<Row>, batchQuery: Option<string>, show: Float -> string, fmt: Float -> string, k: int)
    requires IdsIncreasing(rows)
    requires Report(rows, batchQuery).RenderPdf?
    requires 0 <= k < |Chosen(rows, batchQuery)|
    ensures var doc := Report(rows, batchQuery);
      && |TableBody(doc.data, show, fmt)| == |Chosen(rows, batchQuery)|
      && TableBody(doc.data, show, fmt)[k][0] == NatText(k + 1)
      && TableBody(doc.data, show, fmt)[k][0] == ValueText(doc.data[k][SerialNo], show)
  {
    ReportRowsNumbered(rows, batchQuery, k);
  }
}
