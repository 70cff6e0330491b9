/** The per-row conversion of `upload_csv` (app_name/views.py): the helpers
    `parse_int` and `parse_bool`, the normalisation of the "GPS时间" separators,
    and the construction of one `IrregularBlock` from a CSV row, column by
    column in the order Python evaluates them, stopping at the first failure. */
module Parsing {
  import opened Basics
  import opened Text
  import opened Models

  /** One row as `csv.DictReader` yields it: header to cell, where a cell is
      `None` when the row is shorter than the header. */
  type Row = map<string, Option<string>>

  /** The library calls the row conversion makes, which this model does not
      define: `float(cell)` (the error is the exception's text),
      `datetime.fromisoformat(s)` and `datetime.strptime(s, '%Y-%m-%dT%H:%M')`
      (each giving the wall-clock fields). */
  datatype Library = Library(
    toFloat: Option<string> -> Result<PyFloat, string>,
    fromIsoFormat: string -> Option<CivilTime>,
    strptime: string -> Result<CivilTime, string>)

  /** Why a row was rejected; `ErrorText` gives the exception's `str`. */
  datatype RowError =
    | MissingColumn(column: string)                      // KeyError from row[column]
    | TimeNotText                                        // None.replace(...)
    | NotAnInteger(column: string, raw: Option<string>)  // raised by parse_int
    | NotABoolean(token: string)                         // raised by parse_bool
    | LibraryFailure(message: string)                    // raised by float() or strptime

  /** `str(value)` of a cell. */
  function Show(v: Option<string>): string {
    match v
    case Some(s) => s
    case None => "None"
  }

  function ErrorText(e: RowError): string {
    match e
    case MissingColumn(c) => "'" + c + "'"
    case TimeNotText => "'NoneType' object has no attribute 'replace'"
    case NotAnInteger(c, v) => "字段 [" + c + "] 值 '" + Show(v) + "' 无法转换为整数"
    case NotABoolean(t) => "无效的布尔值: " + t
    case LibraryFailure(m) => m
  }

  // ---------------------------------------------------------------------
  // parse_bool

  const TrueTokens: set<string> := {"1", "TRUE", "T", "YES", "Y"}
  const FalseTokens: set<string> := {"0", "FALSE", "F", "NO", "N"}

  /** The token `parse_bool` compares: the cell's text, stripped and upper-cased. */
  function BoolToken(v: Option<string>): string {
    Upper(Strip(Show(v)))
  }

  /** The decision `parse_bool` makes on the normalised token. */
  function BoolOfToken(token: string): (r: Result<bool, RowError>)
    ensures r == Ok(true) <==> token in TrueTokens
    ensures r == Ok(false) <==> token in FalseTokens
    ensures r.Err? <==> token !in TrueTokens + FalseTokens
    ensures r.Err? ==> r.error == NotABoolean(token)
  {
    if token in TrueTokens then Ok(true)
    else if token in FalseTokens then Ok(false)
    else Err(NotABoolean(token))
  }

  /** `parse_bool`: the cell's text, stripped and upper-cased, is true exactly
      for the true tokens and false exactly for the false tokens; any other
      token is refused, and the message quotes the normalised token. */
  function ParseBool(v: Option<string>): (r: Result<bool, RowError>)
    ensures r == Ok(true) <==> BoolToken(v) in TrueTokens
    ensures r == Ok(false) <==> BoolToken(v) in FalseTokens
    ensures r.Err? <==> BoolToken(v) !in TrueTokens + FalseTokens
    ensures r.Err? ==> r.error == NotABoolean(BoolToken(v))
  {
    BoolOfToken(BoolToken(v))
  }

  /** A word surrounded by whitespace is read as that word, in upper case. */
  lemma ParseBoolPadded(before: string, word: string, after: string)
    requires AllSpace(before) && AllSpace(after)
    requires word == [] || (!IsSpace(word[0]) && !IsSpace(word[|word| - 1]))
    ensures ParseBool(Some(before + word + after)) ==
      if Upper(word) in TrueTokens then Ok(true)
      else if Upper(word) in FalseTokens then Ok(false)
      else Err(NotABoolean(Upper(word)))
  {
    StripPadded(before, word, after);
  }

  lemma {:induction false} StripLeadingLower(s: string)
    ensures StripLeading(Lower(s)) == Lower(StripLeading(s))
  {
    if s != [] {
      var l := Lower(s);
      assert l[0] == LowerChar(s[0]);
      assert IsSpace(l[0]) == IsSpace(s[0]);
      assert l[1..] == Lower(s[1..]);
      StripLeadingLower(s[1..]);
    }
  }

  lemma {:induction false} StripTrailingLower(s: string)
    ensures StripTrailing(Lower(s)) == Lower(StripTrailing(s))
  {
    if s != [] {
      var l := Lower(s);
      assert l[|s| - 1] == LowerChar(s[|s| - 1]);
      assert IsSpace(l[|s| - 1]) == IsSpace(s[|s| - 1]);
      assert l[..|s| - 1] == Lower(s[..|s| - 1]);
      StripTrailingLower(s[..|s| - 1]);
    }
  }

  /** `parse_bool` does not depend on the case of ASCII letters. */
  lemma ParseBoolIgnoresCase(s: string)
    ensures ParseBool(Some(Lower(s))) == ParseBool(Some(s))
  {
    StripLeadingLower(s);
    StripTrailingLower(StripLeading(s));
    UpperIgnoresCase(Strip(s));
  }

  // ---------------------------------------------------------------------
  // parse_int

  /** `int(x)` of a finite float: truncation toward zero. */
  function Trunc(x: real): (i: int)
    ensures 0.0 <= x ==> 0 <= i && i as real <= x < i as real + 1.0
    ensures x < 0.0 ==> i <= 0 && i as real - 1.0 < x <= i as real
  {
    if x >= 0.0 then x.Floor else -((-x).Floor)
  }

  /** `parse_int`: the float value truncated to an integer. Any failure,
      including NaN and the infinities that `int()` refuses, is reported
      naming the column and the raw value. */
  function ParseInt(lib: Library, v: Option<string>, column: string): (r: Result<int, RowError>)
    ensures r.Ok? <==> lib.toFloat(v).Ok? && lib.toFloat(v).value.Finite?
    ensures r.Ok? ==> r.value == Trunc(lib.toFloat(v).value.r)
    ensures r.Err? ==> r.error == NotAnInteger(column, v)
  {
    match lib.toFloat(v)
    case Ok(Finite(x)) => Ok(Trunc(x))
    case _ => Err(NotAnInteger(column, v))
  }

  lemma ParseIntExamples(lib: Library, column: string)
    requires lib.toFloat(Some("12.0")) == Ok(Finite(12.0))
    requires lib.toFloat(Some("-3.7")) == Ok(Finite(-3.7))
    requires lib.toFloat(Some("nan")) == Ok(NaN)
    ensures ParseInt(lib, Some("12.0"), column) == Ok(12)
    ensures ParseInt(lib, Some("-3.7"), column) == Ok(-3)
    ensures ParseInt(lib, Some("nan"), column) == Err(NotAnInteger(column, Some("nan")))
  {
  }

  // ---------------------------------------------------------------------
  // GPS time

  /** Every slash becomes a dash, and the first space a 'T'. */
  function NormalizeTimestamp(s: string): (r: string)
    ensures |r| == |s| && '/' !in r
    ensures forall i | 0 <= i < |s| ::
      r[i] == if s[i] == '/' then '-' else if i == IndexOf(s, ' ') then 'T' else s[i]
  {
    var dashed := ReplaceChar(s, '/', '-');
    SameFirstSpace(s, dashed);
    ReplaceFirstChar(dashed, ' ', 'T')
  }

  lemma SameFirstSpace(s: string, t: string)
    requires |s| == |t|
    requires forall i | 0 <= i < |s| :: (s[i] == ' ') == (t[i] == ' ')
    ensures IndexOf(s, ' ') == IndexOf(t, ' ')
  {
    var i, j := IndexOf(s, ' '), IndexOf(t, ' ');
    assert i < |s| ==> t[i] == ' ';
    assert j < |t| ==> s[j] == ' ';
  }

  /** Both separator conventions come out in ISO form. */
  lemma NormalizeSlashes()
    ensures NormalizeTimestamp("2024/01/05 10:30") == "2024-01-05T10:30"
  {
    NormalizeExample("2024/01/05 10:30", 10, "2024-01-05T10:30");
  }

  lemma NormalizeDashes()
    ensures NormalizeTimestamp("2024-01-05 10:30") == "2024-01-05T10:30"
  {
    NormalizeExample("2024-01-05 10:30", 10, "2024-01-05T10:30");
  }

  lemma NormalizeExample(s: string, space: nat, expected: string)
    requires |s| == |expected| && space <= |s|
    requires forall i | 0 <= i < space :: s[i] != ' '
    requires space < |s| ==> s[space] == ' '
    requires forall i | 0 <= i < |s| ::
      expected[i] == if s[i] == '/' then '-' else if i == space then 'T' else s[i]
    ensures NormalizeTimestamp(s) == expected
  {
    assert IndexOf(s, ' ') == space by {
      var i := IndexOf(s, ' ');
      assert i < |s| ==> s[i] == ' ';
      assert space < |s| ==> i <= space;
    }
  }

  /** The "GPS时间" cell: normalise the separators, try the ISO parse, fall
      back to the fixed pattern, and attach Asia/Shanghai. */
  function ParseGpsTime(lib: Library, cell: Option<string>): (r: Result<DateTime, RowError>)
    ensures cell.None? ==> r == Err(TimeNotText)
    ensures cell.Some? ==>
      var t := NormalizeTimestamp(cell.value);
      && (lib.fromIsoFormat(t).Some? ==> r == Ok(DateTime(lib.fromIsoFormat(t).value, AsiaShanghai)))
      && (lib.fromIsoFormat(t).None? && lib.strptime(t).Ok? ==> r == Ok(DateTime(lib.strptime(t).value, AsiaShanghai)))
      && (lib.fromIsoFormat(t).None? && lib.strptime(t).Err? ==> r == Err(LibraryFailure(lib.strptime(t).error)))
  {
    match cell
    case None => Err(TimeNotText)
    case Some(s) =>
      var t := NormalizeTimestamp(s);
      match lib.fromIsoFormat(t)
      case Some(c) => Ok(DateTime(c, AsiaShanghai))
      case None =>
        match lib.strptime(t)
        case Ok(c) => Ok(DateTime(c, AsiaShanghai))
        case Err(m) => Err(LibraryFailure(m))
  }

  /** Cells that differ only in the separator conventions give the same time. */
  lemma SeparatorsAgree(lib: Library, a: string, b: string)
    requires NormalizeTimestamp(a) == NormalizeTimestamp(b)
    ensures ParseGpsTime(lib, Some(a)) == ParseGpsTime(lib, Some(b))
  {
  }

  // ---------------------------------------------------------------------
  // One row

  /** `row[column]`, which raises KeyError for a column the header lacks. */
  function Lookup(row: Row, column: string): (r: Result<Option<string>, RowError>)
    ensures r.Ok? <==> column in row
    ensures r.Ok? ==> r.value == row[column]
    ensures r.Err? ==> r.error == MissingColumn(column)
  {
    if column in row then Ok(row[column]) else Err(MissingColumn(column))
  }

  function TimeAt(lib: Library, row: Row, column: string): Result<DateTime, RowError> {
    var v :- Lookup(row, column);
    ParseGpsTime(lib, v)
  }

  function IntAt(lib: Library, row: Row, column: string): Result<int, RowError> {
    var v :- Lookup(row, column);
    ParseInt(lib, v, column)
  }

  function FloatAt(lib: Library, row: Row, column: string): Result<PyFloat, RowError> {
    var v :- Lookup(row, column);
    match lib.toFloat(v)
    case Ok(f) => Ok(f)
    case Err(m) => Err(LibraryFailure(m))
  }

  function BoolAt(lib: Library, row: Row, column: string): Result<bool, RowError> {
    var v :- Lookup(row, column);
    ParseBool(v)
  }

  // The columns of the CSV header that the conversion reads.
  const GpsTimeColumn: string := "GPS时间"
  const PointIndexColumn: string := "序列号"
  const LongitudeColumn: string := "经度"
  const LatitudeColumn: string := "纬度"
  const XColumn: string := "x"
  const YColumn: string := "y"
  const VelocityColumn: string := "速度(km/h)"
  const YawColumn: string := "航向"
  const StateColumn: string := "工作状态"
  const AmplitudeColumn: string := "幅宽(m)"
  const DepthColumn: string := "深度(mm)"
  const DepthValueColumn: string := "深度标准值"

  /** The row conversion as the source writes it: the time first, then the
      constructor's keyword arguments from left to right; the first exception
      decides the row's error. */
  function ParseRow(lib: Library, row: Row): Result<TrackRecord, RowError> {
    var gpsTime :- TimeAt(lib, row, GpsTimeColumn);
    var pointIndex :- IntAt(lib, row, PointIndexColumn);
    var longitude :- FloatAt(lib, row, LongitudeColumn);
    var latitude :- FloatAt(lib, row, LatitudeColumn);
    var x :- FloatAt(lib, row, XColumn);
    var y :- FloatAt(lib, row, YColumn);
    var velocity :- FloatAt(lib, row, VelocityColumn);
    var yaw :- FloatAt(lib, row, YawColumn);
    var state :- BoolAt(lib, row, StateColumn);
    var amplitude :- FloatAt(lib, row, AmplitudeColumn);
    var depth :- IntAt(lib, row, DepthColumn);
    var depthValue :- IntAt(lib, row, DepthValueColumn);
    Ok(TrackRecord(pointIndex, gpsTime, longitude, latitude, x, y, velocity, yaw, state, amplitude, depth, depthValue))
  }

  /** ParseRow as a value, for the row loop. */
  function Converter(lib: Library): Row -> Result<TrackRecord, RowError> {
    row => ParseRow(lib, row)
  }

  // ---------------------------------------------------------------------
  // The same conversion as a table of columns, used to state what ParseRow does

  datatype Kind = TimeKind | IntKind | FloatKind | BoolKind

  datatype Cell = TimeCell(t: DateTime) | IntCell(i: int) | FloatCell(f: PyFloat) | BoolCell(b: bool)

  /** The number of columns a row needs. */
  const ColumnCount: nat := 12

  /** Column `k`, in the order the source reads the columns, with its kind. */
  function Column(k: nat): (string, Kind)
    requires k < ColumnCount
  {
    match k
    case 0 => (GpsTimeColumn, TimeKind)
    case 1 => (PointIndexColumn, IntKind)
    case 2 => (LongitudeColumn, FloatKind)
    case 3 => (LatitudeColumn, FloatKind)
    case 4 => (XColumn, FloatKind)
    case 5 => (YColumn, FloatKind)
    case 6 => (VelocityColumn, FloatKind)
    case 7 => (YawColumn, FloatKind)
    case 8 => (StateColumn, BoolKind)
    case 9 => (AmplitudeColumn, FloatKind)
    case 10 => (DepthColumn, IntKind)
    case _ => (DepthValueColumn, IntKind)
  }

  function ParseCell(lib: Library, row: Row, k: nat): Result<Cell, RowError>
    requires k < ColumnCount
  {
    var (column, kind) := Column(k);
    match kind
    case TimeKind => var t :- TimeAt(lib, row, column); Ok(TimeCell(t))
    case IntKind => var i :- IntAt(lib, row, column); Ok(IntCell(i))
    case FloatKind => var f :- FloatAt(lib, row, column); Ok(FloatCell(f))
    case BoolKind => var b :- BoolAt(lib, row, column); Ok(BoolCell(b))
  }

  /** The field of a record that column `k` fills. */
  function CellOf(r: TrackRecord, k: nat): Cell
    requires k < ColumnCount
  {
    match k
    case 0 => TimeCell(r.gpsTime)
    case 1 => IntCell(r.pointIndex)
    case 2 => FloatCell(r.longitude)
    case 3 => FloatCell(r.latitude)
    case 4 => FloatCell(r.x)
    case 5 => FloatCell(r.y)
    case 6 => FloatCell(r.velocity)
    case 7 => FloatCell(r.yaw)
    case 8 => BoolCell(r.state)
    case 9 => FloatCell(r.amplitude)
    case 10 => IntCell(r.depth)
    case _ => IntCell(r.depthValue)
  }

  /** Whether each column's cell parses, in reading order. */
  function ColumnsParse(lib: Library, row: Row): (oks: seq<bool>)
    ensures |oks| == ColumnCount
    ensures forall k | 0 <= k < ColumnCount :: oks[k] == ParseCell(lib, row, k).Ok?
  {
    seq(ColumnCount, k requires 0 <= k < ColumnCount => ParseCell(lib, row, k).Ok?)
  }

  /** The first position, from `k` on, holding false; `|oks|` if none. */
  function FirstFalse(oks: seq<bool>, k: nat): (i: nat)
    requires k <= |oks|
    ensures k <= i <= |oks|
    ensures forall j | k <= j < i :: oks[j]
    ensures i < |oks| ==> !oks[i]
    decreases |oks| - k
  {
    if k == |oks| || !oks[k] then k else FirstFalse(oks, k + 1)
  }

  /** Positions holding true are skipped over when looking for the first false. */
  lemma {:induction false} FirstFalseSkip(oks: seq<bool>, j: nat, k: nat)
    requires j <= k <= |oks|
    requires forall i | j <= i < k :: oks[i]
    ensures FirstFalse(oks, j) == FirstFalse(oks, k)
    decreases k - j
  {
    if j < k {
      FirstFalseSkip(oks, j + 1, k);
    }
  }

  /** The first column whose cell fails to parse; `ColumnCount` if none. */
  function FirstBadColumn(lib: Library, row: Row): (bad: nat)
    ensures bad <= ColumnCount
    ensures forall j | 0 <= j < bad :: ParseCell(lib, row, j).Ok?
    ensures bad < ColumnCount ==> ParseCell(lib, row, bad).Err?
  {
    FirstFalse(ColumnsParse(lib, row), 0)
  }

  predicate CellsParse(lib: Library, row: Row, j: nat, k: nat)
    requires j <= k <= ColumnCount
  {
    forall i | j <= i < k :: ParseCell(lib, row, i).Ok?
  }

  lemma CellsParseStep(lib: Library, row: Row, k: nat)
    requires k < ColumnCount
    requires CellsParse(lib, row, 0, k) && ParseCell(lib, row, k).Ok?
    ensures CellsParse(lib, row, 0, k + 1)
  {
  }

  /** A row succeeds exactly when every column parses, its record holds each
      column's value, and a failing row reports the first failing column in
      reading order. */
  lemma ParseRowFollowsColumns(lib: Library, row: Row)
    ensures var r := ParseRow(lib, row);
      var bad := FirstBadColumn(lib, row);
      && (r.Ok? <==> bad == ColumnCount)
      && (r.Err? ==> bad < ColumnCount && ParseCell(lib, row, bad) == Err(r.error))
      && (r.Ok? ==> forall k | 0 <= k < ColumnCount :: ParseCell(lib, row, k) == Ok(CellOf(r.value, k)))
  {
    var oks := ColumnsParse(lib, row);
    if ParseRow(lib, row).Ok? {
      BuiltRowCells(lib, row);
      FirstFalseSkip(oks, 0, ColumnCount);
    } else {
      var k := FailingColumn(lib, row);
      FirstFalseSkip(oks, 0, k);
    }
  }

  lemma BuiltRowCells(lib: Library, row: Row)
    requires ParseRow(lib, row).Ok?
    ensures forall k | 0 <= k < ColumnCount :: ParseCell(lib, row, k) == Ok(CellOf(ParseRow(lib, row).value, k))
  {
    var r := ParseRow(lib, row).value;
    BuiltRowParts(lib, row);
    forall k | 0 <= k < ColumnCount ensures ParseCell(lib, row, k) == Ok(CellOf(r, k)) {
      match k
      case 0 =>
      case 1 =>
      case 2 =>
      case 3 =>
      case 4 =>
      case 5 =>
      case 6 =>
      case 7 =>
      case 8 =>
      case 9 =>
      case 10 =>
      case 11 =>
    }
  }

  lemma BuiltRowParts(lib: Library, row: Row)
    requires ParseRow(lib, row).Ok?
    ensures && TimeAt(lib, row, GpsTimeColumn).Ok? && IntAt(lib, row, PointIndexColumn).Ok?
            && FloatAt(lib, row, LongitudeColumn).Ok? && FloatAt(lib, row, LatitudeColumn).Ok?
            && FloatAt(lib, row, XColumn).Ok? && FloatAt(lib, row, YColumn).Ok?
            && FloatAt(lib, row, VelocityColumn).Ok? && FloatAt(lib, row, YawColumn).Ok?
            && BoolAt(lib, row, StateColumn).Ok? && FloatAt(lib, row, AmplitudeColumn).Ok?
            && IntAt(lib, row, DepthColumn).Ok? && IntAt(lib, row, DepthValueColumn).Ok?
    ensures ParseRow(lib, row).value == TrackRecord(
      IntAt(lib, row, PointIndexColumn).value, TimeAt(lib, row, GpsTimeColumn).value,
      FloatAt(lib, row, LongitudeColumn).value, FloatAt(lib, row, LatitudeColumn).value,
      FloatAt(lib, row, XColumn).value, FloatAt(lib, row, YColumn).value,
      FloatAt(lib, row, VelocityColumn).value, FloatAt(lib, row, YawColumn).value,
      BoolAt(lib, row, StateColumn).value, FloatAt(lib, row, AmplitudeColumn).value,
      IntAt(lib, row, DepthColumn).value, IntAt(lib, row, DepthValueColumn).value)
  {
  }

  /** The column at which ParseRow stops. */
  lemma FailingColumn(lib: Library, row: Row) returns (k: nat)
    requires ParseRow(lib, row).Err?
    ensures k < ColumnCount
    ensures CellsParse(lib, row, 0, k)
    ensures ParseCell(lib, row, k) == Err(ParseRow(lib, row).error)
  {
    if TimeAt(lib, row, GpsTimeColumn).Err? { return 0; }
    CellsParseStep(lib, row, 0);
    if IntAt(lib, row, PointIndexColumn).Err? { return 1; }
    CellsParseStep(lib, row, 1);
    if FloatAt(lib, row, LongitudeColumn).Err? { return 2; }
    CellsParseStep(lib, row, 2);
    if FloatAt(lib, row, LatitudeColumn).Err? { return 3; }
    CellsParseStep(lib, row, 3);
    if FloatAt(lib, row, XColumn).Err? { return 4; }
    CellsParseStep(lib, row, 4);
    if FloatAt(lib, row, YColumn).Err? { return 5; }
    CellsParseStep(lib, row, 5);
    k := FailingColumnFrom6(lib, row);
  }

  /** FailingColumn once the first six columns have parsed. */
  lemma FailingColumnFrom6(lib: Library, row: Row) returns (k: nat)
    requires ParseRow(lib, row).Err? && CellsParse(lib, row, 0, 6)
    ensures 6 <= k < ColumnCount
    ensures CellsParse(lib, row, 0, k)
    ensures ParseCell(lib, row, k) == Err(ParseRow(lib, row).error)
  {
    assert ParseCell(lib, row, 0).Ok? && ParseCell(lib, row, 1).Ok? && ParseCell(lib, row, 2).Ok?;
    assert ParseCell(lib, row, 3).Ok? && ParseCell(lib, row, 4).Ok? && ParseCell(lib, row, 5).Ok?;
    if FloatAt(lib, row, VelocityColumn).Err? { return 6; }
    CellsParseStep(lib, row, 6);
    if FloatAt(lib, row, YawColumn).Err? { return 7; }
    CellsParseStep(lib, row, 7);
    k := FailingColumnFrom8(lib, row);
  }

  lemma FailingColumnFrom8(lib: Library, row: Row) returns (k: nat)
    requires ParseRow(lib, row).Err? && CellsParse(lib, row, 0, 8)
    ensures 8 <= k < ColumnCount
    ensures CellsParse(lib, row, 0, k)
    ensures ParseCell(lib, row, k) == Err(ParseRow(lib, row).error)
  {
    assert ParseCell(lib, row, 0).Ok? && ParseCell(lib, row, 1).Ok? && ParseCell(lib, row, 2).Ok?;
    assert ParseCell(lib, row, 3).Ok? && ParseCell(lib, row, 4).Ok? && ParseCell(lib, row, 5).Ok?;
    assert ParseCell(lib, row, 6).Ok? && ParseCell(lib, row, 7).Ok?;
    if BoolAt(lib, row, StateColumn).Err? { return 8; }
    CellsParseStep(lib, row, 8);
    if FloatAt(lib, row, AmplitudeColumn).Err? { return 9; }
    CellsParseStep(lib, row, 9);
    k := FailingColumnFrom10(lib, row);
  }

  lemma FailingColumnFrom10(lib: Library, row: Row) returns (k: nat)
    requires ParseRow(lib, row).Err? && CellsParse(lib, row, 0, 10)
    ensures 10 <= k < ColumnCount
    ensures CellsParse(lib, row, 0, k)
    ensures ParseCell(lib, row, k) == Err(ParseRow(lib, row).error)
  {
    assert ParseCell(lib, row, 0).Ok? && ParseCell(lib, row, 1).Ok? && ParseCell(lib, row, 2).Ok?;
    assert ParseCell(lib, row, 3).Ok? && ParseCell(lib, row, 4).Ok? && ParseCell(lib, row, 5).Ok?;
    assert ParseCell(lib, row, 6).Ok? && ParseCell(lib, row, 7).Ok?;
    assert ParseCell(lib, row, 8).Ok? && ParseCell(lib, row, 9).Ok?;
    if IntAt(lib, row, DepthColumn).Err? { return 10; }
    CellsParseStep(lib, row, 10);
    return 11;
  }
}
