/**
 * DataExporter.to_csv in backend/utils.py: a header line and one line of
 * eleven comma-separated fields per reading, joined by newlines.
 */
module Export {
  import opened Wrappers
  import opened Text
  import opened Vitals
  import opened Records

  /**
   * How numbers and times are printed (`str(float)`, `strftime`); the text
   * of a non-numeric value the table holds is `other`.
   */
  datatype Render = Render(number: real -> string, date: int -> string, time: int -> string, other: string)

  /** A field text that cannot break the layout. */
  predicate Plain(s: string) {
    ',' !in s && '\n' !in s
  }

  ghost predicate PlainRender(render: Render) {
    && (forall v :: Plain(render.number(v)))
    && (forall t :: Plain(render.date(t)) && Plain(render.time(t)))
    && Plain(render.other)
  }

  const HeaderFields: seq<string> := [
    "ID", "User ID", "Date", "Time", "Body Temperature (\U{B0}C)", "Pulse Rate (bpm)",
    "Heart Rate (bpm)", "SpO2 (%)", "Blood Pressure", "Battery (%)", "Valid"]

  const Header: string := Join(HeaderFields, ',')

  /** `str(x) if x else ""` */
  function Cell(f: Field, render: Render): (c: string)
    ensures f.Num? && f.v != 0.0 ==> c == render.number(f.v)
    ensures !f.Truthy() ==> c == ""
  {
    match f
    case Num(v) => if v != 0.0 then render.number(v) else ""
    case Malformed => render.other
    case _ => ""
  }

  /** The eleven fields of one reading's line; the row timestamp is NOT NULL, so its date and time are always printed. */
  function Fields(r: Reading, render: Render): (fs: seq<string>)
    ensures |fs| == |HeaderFields|
    ensures fs[0] == IntToString(r.id) && fs[1] == IntToString(r.userId)
    ensures fs[2] == render.date(r.timestamp) && fs[3] == render.time(r.timestamp)
    ensures fs[4] == Cell(r.bodyTemperature, render) && fs[5] == Cell(r.pulseRate, render)
    ensures fs[6] == Cell(r.heartRate, render) && fs[7] == Cell(r.spo2, render)
    ensures fs[8] == BloodPressureText(r.bpSystolic, r.bpDiastolic).GetOr("")
    ensures fs[9] == Cell(r.batteryLevel, render)
    ensures fs[10] == if r.isValid then "Yes" else "No"
  {
    [IntToString(r.id), IntToString(r.userId), render.date(r.timestamp), render.time(r.timestamp),
     Cell(r.bodyTemperature, render), Cell(r.pulseRate, render), Cell(r.heartRate, render), Cell(r.spo2, render),
     BloodPressureText(r.bpSystolic, r.bpDiastolic).GetOr(""), Cell(r.batteryLevel, render),
     if r.isValid then "Yes" else "No"]
  }

  function Row(r: Reading, render: Render): string {
    Join(Fields(r, render), ',')
  }

  /** The data lines, one per reading, in the order given. */
  function Lines(rows: seq<Reading>, render: Render): (lines: seq<string>)
    ensures |lines| == |rows|
    ensures forall i :: 0 <= i < |rows| ==> lines[i] == Row(rows[i], render)
  {
    if |rows| == 0 then [] else Lines(rows[..|rows| - 1], render) + [Row(rows[|rows| - 1], render)]
  }

  /** The list to_csv builds: the header line, then the data lines. */
  function CsvLines(rows: seq<Reading>, render: Render): seq<string> {
    [Header] + Lines(rows, render)
  }

  lemma CsvLinesStep(rows: seq<Reading>, render: Render, i: nat)
    requires i < |rows|
    ensures CsvLines(rows[..i + 1], render) == CsvLines(rows[..i], render) + [Row(rows[i], render)]
  {
    LinesStep(rows, render, i);
    PushBehind(Header, Lines(rows[..i], render), Row(rows[i], render));
  }

  lemma LinesStep(rows: seq<Reading>, render: Render, i: nat)
    requires i < |rows|
    ensures Lines(rows[..i + 1], render) == Lines(rows[..i], render) + [Row(rows[i], render)]
  {
    assert rows[..i + 1][..i] == rows[..i];
  }

  lemma PushBehind(first: string, middle: seq<string>, last: string)
    ensures [first] + (middle + [last]) == [first] + middle + [last]
  {
  }

  /** The text to_csv returns: "" for no readings, else the header and the data lines. */
  function Csv(rows: seq<Reading>, render: Render): string {
    if |rows| == 0 then "" else Join(CsvLines(rows, render), '\n')
  }

  /** to_csv, building the list of lines one reading at a time. */
  method ToCsv(rows: seq<Reading>, render: Render) returns (csv: string)
    ensures rows == [] ==> csv == ""
    ensures rows != [] ==> csv == Join(CsvLines(rows, render), '\n')
  {
    if |rows| == 0 {
      return "";
    }
    var lines := [Header];
    for i := 0 to |rows|
      invariant lines == CsvLines(rows[..i], render)
    {
      CsvLinesStep(rows, render, i);
      lines := lines + [Row(rows[i], render)];
    }
    assert rows[..|rows|] == rows;
    csv := Join(lines, '\n');
  }

  lemma IntTextIsPlain(i: int)
    ensures Plain(IntToString(i))
  {
    var s := IntToString(i);
    assert forall k :: 0 <= k < |s| ==> s[k] != ',' && s[k] != '\n';
  }

  lemma FieldsArePlain(r: Reading, render: Render)
    requires PlainRender(render)
    ensures forall k :: 0 <= k < |Fields(r, render)| ==> Plain(Fields(r, render)[k])
  {
    IntTextIsPlain(r.id);
    IntTextIsPlain(r.userId);
    if r.bpSystolic.Some? {
      IntTextIsPlain(r.bpSystolic.value);
      if r.bpDiastolic.Some? {
        IntTextIsPlain(r.bpDiastolic.value);
      }
    }
  }

  /** Every line splits back into its eleven fields, the last one "Yes" or "No". */
  lemma RowSplits(r: Reading, render: Render)
    requires PlainRender(render)
    ensures '\n' !in Row(r, render)
    ensures Split(Row(r, render), ',') == Fields(r, render)
    ensures |Split(Row(r, render), ',')| == 11
    ensures Split(Row(r, render), ',')[10] in {"Yes", "No"}
  {
    FieldsArePlain(r, render);
    SplitJoin(Fields(r, render), ',');
    JoinAvoids(Fields(r, render), ',', '\n');
  }

  lemma HeaderSplits()
    ensures '\n' !in Header
    ensures Split(Header, ',') == HeaderFields
  {
    assert forall k :: 0 <= k < |HeaderFields| ==> ',' !in HeaderFields[k] && '\n' !in HeaderFields[k];
    SplitJoin(HeaderFields, ',');
    JoinAvoids(HeaderFields, ',', '\n');
  }

  /**
   * The layout of to_csv: for n > 0 readings, n + 1 lines, the header first,
   * line i + 1 holding the eleven fields of reading i.
   */
  lemma CsvLayout(rows: seq<Reading>, render: Render)
    requires |rows| > 0 && PlainRender(render)
    ensures |Split(Csv(rows, render), '\n')| == |rows| + 1
    ensures Split(Csv(rows, render), '\n')[0] == Header
    ensures forall i :: 0 <= i < |rows| ==> Split(Csv(rows, render), '\n')[i + 1] == Row(rows[i], render)
  {
    var lines := CsvLines(rows, render);
    HeaderSplits();
    forall k | 0 <= k < |lines| ensures '\n' !in lines[k] {
      if k > 0 {
        RowSplits(rows[k - 1], render);
      }
    }
    SplitJoin(lines, '\n');
  }
}
