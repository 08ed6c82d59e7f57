/**
 * data/observations/temperature_observations.csv as the app writes it and
 * the trainer reads it. The file is modelled at the level of CSV fields: a
 * line is a sequence of cells, and the file is None until the first
 * observation creates it. Writing follows csv.writer (a None value becomes
 * an empty field); reading follows pandas.read_csv with its defaults (the
 * first line names the columns, a short line is padded with missing values,
 * and the default NA strings read as missing).
 */
module ObservationLog {
  import opened Wrappers
  import opened Text
  import opened Calendar

  /** One CSV field: a string, a number (written as str(x) and read back as the same float), or an empty field. */
  datatype Cell = Str(s: string) | Num(x: real) | Empty

  type Line = seq<Cell>

  /** The file: None when it does not exist, otherwise its lines in order. */
  type CsvFile = Option<seq<Line>>

  /** The header the app writes, in its order. */
  const Columns: seq<string> := [
    "date_enregistrement", "ville", "date_prevision",
    "temp_predite_modele", "temp_observee_api",
    "humidity_api", "pressure_api", "wind_speed_api"]

  /** The header line: the column names as string fields. */
  function HeaderOf(names: seq<string>): (line: Line)
    ensures |line| == |names| && forall k :: 0 <= k < |names| ==> line[k] == Str(names[k])
  {
    if names == [] then [] else [Str(names[0])] + HeaderOf(names[1..])
  }

  const Header: Line := HeaderOf(Columns)

  /** One call's worth of data: when it was logged, for which city and day, and the five values. */
  datatype Observation = Observation(
    loggedAt: DateTime,
    city: string,
    forecastDate: Date,
    modelTemp: Option<real>,
    apiTemp: Option<real>,
    humidity: Option<real>,
    pressure: Option<real>,
    windSpeed: Option<real>)

  predicate ValidObservation(o: Observation) {
    ValidDateTime(o.loggedAt) && ValidDate(o.forecastDate)
  }

  /** How csv.writer writes an optional number: the number, or an empty field for None. */
  function NumberCell(v: Option<real>): Cell {
    match v
    case Some(x) => Num(x)
    case None => Empty
  }

  /** The cell an observation puts under the column called `name`, looked up by name. */
  function Field(o: Observation, name: string): Cell
    requires ValidObservation(o)
  {
    if name == "date_enregistrement" then Str(FormatDateTime(o.loggedAt))
    else if name == "ville" then Str(o.city)
    else if name == "date_prevision" then Str(FormatDate(o.forecastDate))
    else if name == "temp_predite_modele" then NumberCell(o.modelTemp)
    else if name == "temp_observee_api" then NumberCell(o.apiTemp)
    else if name == "humidity_api" then NumberCell(o.humidity)
    else if name == "pressure_api" then NumberCell(o.pressure)
    else if name == "wind_speed_api" then NumberCell(o.windSpeed)
    else Empty
  }

  /** The data row save_observation writes. */
  function EncodeRow(o: Observation): (line: Line)
    requires ValidObservation(o)
    ensures |line| == |Columns|
  {
    [Str(FormatDateTime(o.loggedAt)), Str(o.city), Str(FormatDate(o.forecastDate)),
     NumberCell(o.modelTemp), NumberCell(o.apiTemp),
     NumberCell(o.humidity), NumberCell(o.pressure), NumberCell(o.windSpeed)]
  }

  /** The file after csv.writer appends `row` in append mode: the header goes first when the file did not exist. */
  function AddRow(file: CsvFile, row: Line): CsvFile {
    Some(file.GetOr([]) + (if file.None? then [Header] else []) + [row])
  }

  /** The file after appending `rows` one call at a time. */
  function AddRows(file: CsvFile, rows: seq<Line>): CsvFile {
    if rows == [] then file else AddRow(AddRows(file, rows[..|rows| - 1]), rows[|rows| - 1])
  }

  /** The file after one save_observation call. */
  function Appended(file: CsvFile, o: Observation): CsvFile
    requires ValidObservation(o)
  {
    AddRow(file, EncodeRow(o))
  }

  predicate AllValid(os: seq<Observation>) {
    forall k :: 0 <= k < |os| ==> ValidObservation(os[k])
  }

  /** The data rows of `os`, in order (see RowsInOrder). */
  function Rows(os: seq<Observation>): (rows: seq<Line>)
    requires AllValid(os)
    ensures |rows| == |os|
  {
    if os == [] then []
    else
      var init, last := os[..|os| - 1], os[|os| - 1];
      assert AllValid(init) by {
        assert forall k :: 0 <= k < |init| ==> init[k] == os[k];
      }
      Rows(init) + [EncodeRow(last)]
  }

  /** The file after saving `os` in order. */
  function AppendAll(file: CsvFile, os: seq<Observation>): CsvFile
    requires AllValid(os)
  {
    AddRows(file, Rows(os))
  }

  // ------------------------------------------------------------- reading

  /** pandas' default strings that read_csv turns into a missing value. */
  const NaStrings: set<string> := {
    "", "#N/A", "#N/A N/A", "#NA", "-1.#IND", "-1.#QNAN", "-NaN", "-nan",
    "1.#IND", "1.#QNAN", "<NA>", "N/A", "NA", "NULL", "NaN", "None", "n/a", "nan", "null"}

  /** A field read_csv reads as NaN. */
  predicate IsMissing(c: Cell) {
    c.Empty? || (c.Str? && c.s in NaStrings)
  }

  /** The position of the first header field named `name`, or None for the KeyError selecting it raises. */
  function ColumnIndex(header: Line, name: string): (r: Option<nat>)
    ensures r.Some? ==> r.value < |header|
  {
    if header == [] then None
    else if header[0] == Str(name) then Some(0)
    else match ColumnIndex(header[1..], name)
      case Some(k) => Some(k + 1)
      case None => None
  }

  /** A field of a data line; past its end the line reads as missing. */
  function CellAt(line: Line, k: nat): Cell {
    if k < |line| then line[k] else Empty
  }

  /** The field of `line` under the column called `name`, None when the header has no such column. */
  function Lookup(header: Line, line: Line, name: string): Option<Cell> {
    match ColumnIndex(header, name)
    case Some(k) => Some(CellAt(line, k))
    case None => None
  }

  // -------------------------------------------------------------- lemmas

  /** A column lookup finds the first header field with that name, and None means no field has it. */
  lemma {:induction false} ColumnIndexFinds(header: Line, name: string)
    ensures var r := ColumnIndex(header, name);
      && (r.Some? ==> header[r.value] == Str(name) && forall j :: 0 <= j < r.value ==> header[j] != Str(name))
      && (r.None? ==> forall j :: 0 <= j < |header| ==> header[j] != Str(name))
  {
    if header != [] && header[0] != Str(name) {
      ColumnIndexFinds(header[1..], name);
      assert forall j :: 1 <= j < |header| ==> header[j] == header[1..][j - 1];
    }
  }

  /** No two columns share a name. */
  lemma ColumnsDistinct()
    ensures forall i, j :: 0 <= i < j < |Columns| ==> Columns[i] != Columns[j]
  {
    assert Columns[0][0] != Columns[3][0];
    assert Columns[2][0] != Columns[7][0];
    assert Columns[5][0] != Columns[6][0];
  }

  /** Every column of the header is found at its own position. */
  lemma HeaderPositions(k: nat)
    requires k < |Columns|
    ensures ColumnIndex(Header, Columns[k]) == Some(k)
  {
    ColumnsDistinct();
    ColumnIndexFinds(Header, Columns[k]);
    var r := ColumnIndex(Header, Columns[k]);
    assert Header[k] == Str(Columns[k]);
    var i := r.value;
    assert Header[i] == Str(Columns[i]);
  }

  /** Each position of a data row holds the field its header column names. */
  lemma RowFollowsHeader(o: Observation)
    requires ValidObservation(o)
    ensures forall k :: 0 <= k < |Columns| ==> EncodeRow(o)[k] == Field(o, Columns[k])
  {
  }

  /** Reading a written row back under the written header gives, for each column, the field of that name. */
  lemma RowReadsBack(o: Observation, name: string)
    requires ValidObservation(o) && name in Columns
    ensures Lookup(Header, EncodeRow(o), name) == Some(Field(o, name))
  {
    var k :| 0 <= k < |Columns| && Columns[k] == name;
    HeaderPositions(k);
    RowFollowsHeader(o);
    var row := EncodeRow(o);
    assert Lookup(Header, row, name) == Some(CellAt(row, k));
    assert CellAt(row, k) == row[k] == Field(o, Columns[k]);
  }

  /**
   * One save_observation call writes the header exactly when the file did not exist,
   * then one data row, and leaves every existing line as it was.
   */
  lemma SaveOnce(file: CsvFile, o: Observation)
    requires ValidObservation(o)
    ensures var lines := Appended(file, o).value;
      && |lines| == |file.GetOr([])| + (if file.None? then 2 else 1)
      && lines[..|file.GetOr([])|] == file.GetOr([])
      && (file.None? ==> lines[0] == Header)
      && lines[|lines| - 1] == EncodeRow(o)
  {
    var row := EncodeRow(o);
    if file.None? {
      assert Appended(file, o).value == [] + [Header] + [row];
    } else {
      assert Appended(file, o).value == file.value + [] + [row];
    }
  }

  /** Appending to a file that exists adds the row and nothing else. */
  lemma AddRowToExisting(lines: seq<Line>, rows: seq<Line>, row: Line)
    ensures AddRow(Some(lines + rows), row) == Some(lines + (rows + [row]))
  {
    assert (lines + rows) + [] + [row] == lines + (rows + [row]);
  }

  /** Appending a non-empty sequence of rows adds the header if the file did not exist, then the rows. */
  lemma {:induction false} AddRowsShape(file: CsvFile, rows: seq<Line>)
    requires rows != []
    ensures AddRows(file, rows) == Some(file.GetOr([]) + (if file.None? then [Header] else []) + rows)
  {
    var init, last := rows[..|rows| - 1], rows[|rows| - 1];
    assert rows == init + [last];
    if init != [] {
      AddRowsShape(file, init);
      AddRowToExisting(file.GetOr([]) + (if file.None? then [Header] else []), init, last);
    }
  }

  /** The k-th data row is the k-th observation's row. */
  lemma {:induction false} RowsInOrder(os: seq<Observation>, k: nat)
    requires AllValid(os) && k < |os|
    ensures Rows(os)[k] == EncodeRow(os[k])
  {
    var init := os[..|os| - 1];
    assert AllValid(init) by {
      assert forall j :: 0 <= j < |init| ==> init[j] == os[j];
    }
    var rows, last := Rows(os), EncodeRow(os[|os| - 1]);
    assert rows == Rows(init) + [last];
    if k < |init| {
      RowsInOrder(init, k);
      assert init[k] == os[k];
      assert rows[k] == Rows(init)[k];
    } else {
      assert rows[k] == last;
    }
  }

  /** Saving one more observation extends the file of the earlier ones by its row. */
  lemma AppendAllSnoc(file: CsvFile, os: seq<Observation>, o: Observation)
    requires AllValid(os) && ValidObservation(o)
    ensures AllValid(os + [o])
    ensures AppendAll(file, os + [o]) == Appended(AppendAll(file, os), o)
  {
    var all := os + [o];
    assert all[..|all| - 1] == os;
    var rows := Rows(all);
    assert rows[..|rows| - 1] == Rows(os);
  }

  /** Rows appended one by one to a missing file follow a single header. */
  lemma FreshRows(rows: seq<Line>)
    requires rows != []
    ensures AddRows(None, rows) == Some([Header] + rows)
  {
    AddRowsShape(None, rows);
    assert [] + [Header] + rows == [Header] + rows;
  }

  /** Rows appended one by one to an existing file follow its lines. */
  lemma ExistingRows(lines: seq<Line>, rows: seq<Line>)
    ensures AddRows(Some(lines), rows) == Some(lines + rows)
  {
    if rows == [] {
      assert lines + rows == lines;
    } else {
      AddRowsShape(Some(lines), rows);
      assert lines + [] + rows == lines + rows;
    }
  }

  /** Saving N observations on a missing file gives the header followed by their N rows, in order. */
  lemma FreshLog(os: seq<Observation>)
    requires AllValid(os) && os != []
    ensures AppendAll(None, os) == Some([Header] + Rows(os))
  {
    FreshRows(Rows(os));
  }

  /** Saving N observations on an existing file appends exactly their N rows and keeps every line before them. */
  lemma ExistingLog(lines: seq<Line>, os: seq<Observation>)
    requires AllValid(os)
    ensures AppendAll(Some(lines), os) == Some(lines + Rows(os))
  {
    ExistingRows(lines, Rows(os));
  }
}
