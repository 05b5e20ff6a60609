/** The column heuristics of the biometric analysis script, shared by the
    insight and dataset-comparison scripts: type coercion of a freshly read
    frame, classification of its columns by dtype and name, the success and
    failure label mapping, and the choice of the cluster count. */
module Schema {
  import opened Wrappers
  import opened Seqs
  import opened Text
  import opened Calendar
  import opened Frames

  /** Name fragments that send a column down the datetime path. */
  const DatetimeKeys: seq<string> := ["date", "time", "dt", "timestamp"]

  /** Name fragments of outcome-label columns. */
  const LabelKeys: seq<string> := [
    "status", "result", "outcome", "verification_status", "biometric_status",
    "success", "failed", "failure", "quality_pass", "match_result"
  ]

  /** Name fragments of geographic columns. */
  const GeoKeys: seq<string> := ["state", "district", "pincode", "pin", "center"]

  // ---------------------------------------------------------------------
  // Numeric cleaning and coercion
  // ---------------------------------------------------------------------

  predicate NotComma(c: char) {
    c != ','
  }

  predicate NotPercent(c: char) {
    c != '%'
  }

  /** The characters the cleaning regular expression keeps. */
  predicate IsNumericChar(c: char) {
    IsDigit(c) || c == '.' || c == '-'
  }

  /** Removes `,`, then `%`, then every character other than a digit, `.` or
      `-`. The result is the input's numeric characters, in order. */
  function CleanNumeric(s: string): (r: string)
    ensures r == Filter(s, IsNumericChar)
    ensures forall c :: c in r ==> IsNumericChar(c)
  {
    FilterSubsumed(s, NotComma, IsNumericChar);
    FilterSubsumed(Filter(s, NotComma), NotPercent, IsNumericChar);
    Filter(Filter(Filter(s, NotComma), NotPercent), IsNumericChar)
  }

  /** Cleaning an already cleaned value changes nothing. */
  lemma CleanNumericIdempotent(s: string)
    ensures CleanNumeric(CleanNumeric(s)) == CleanNumeric(s)
  {
    FilterSubsumed(s, IsNumericChar, IsNumericChar);
  }

  /** `pd.to_numeric(cleaned, errors="coerce")` on one cell of an object
      column. */
  function ParseCell(c: Cell): Option<real> {
    match c
    case Str(s) => ParseNumber(CleanNumeric(s))
    case _ => None
  }

  predicate IsParsed(o: Option<real>) {
    o.Some?
  }

  function ParsedCells(cells: seq<Cell>): (r: seq<Option<real>>)
    ensures |r| == |cells|
    ensures forall i :: 0 <= i < |cells| ==> r[i] == ParseCell(cells[i])
    ensures forall o :: o in r <==> exists c :: c in cells && ParseCell(c) == o
  {
    seq(|cells|, i requires 0 <= i < |cells| => ParseCell(cells[i]))
  }

  /** Number of cells that `to_numeric` reads as a number. */
  function ParsedCount(cells: seq<Cell>): nat {
    |Filter(ParsedCells(cells), IsParsed)|
  }

  /** `to_numeric` yields int64 when every cell is present and has no
      decimal point, and float64 otherwise. */
  predicate AllIntegerLiterals(cells: seq<Cell>) {
    forall i :: 0 <= i < |cells| ==>
      cells[i].Str? && IsIntegerLiteral(CleanNumeric(cells[i].s))
  }

  function NumericCell(o: Option<real>): Cell {
    match o
    case Some(x) => Num(x)
    case None => Null
  }

  /** `pd.to_datetime(col, errors="coerce")`, given the date parser (a library
      call) as `parseDate`. */
  function DatetimeCell(c: Cell, parseDate: string -> Option<CalDate>): Cell {
    match c
    case Str(s) => (match parseDate(s) case Some(d) => Stamp(d) case None => Null)
    case _ => Null
  }

  /** One pass of the coercion loop on an object column. */
  function CoerceColumn(col: Column, parseDate: string -> Option<CalDate>): (r: Column)
    requires col.kind == Object
    ensures r.name == col.name && |r.cells| == |col.cells|
  {
    if NameHasKeyword(col.name, DatetimeKeys) then
      Column(col.name, DateTime,
        seq(|col.cells|, i requires 0 <= i < |col.cells| => DatetimeCell(col.cells[i], parseDate)))
    else
      var parsed := ParsedCells(col.cells);
      if 2 * ParsedCount(col.cells) > |col.cells| then
        Column(col.name, if AllIntegerLiterals(col.cells) then Int else Float,
          seq(|col.cells|, i requires 0 <= i < |col.cells| => NumericCell(parsed[i])))
      else col
  }

  /** A column whose lower-cased name contains a datetime fragment becomes a
      datetime column and never takes the numeric path. */
  lemma CoerceDatetimePath(col: Column, parseDate: string -> Option<CalDate>)
    requires col.kind == Object && NameHasKeyword(col.name, DatetimeKeys)
    ensures CoerceColumn(col, parseDate).kind == DateTime
    ensures forall i :: 0 <= i < |col.cells| ==>
      (CoerceColumn(col, parseDate).cells[i].Stamp? <==>
        col.cells[i].Str? && parseDate(col.cells[i].s).Some?)
  {
  }

  /** Any other column is replaced by its numeric form exactly when strictly
      more than half of its cells parse, and is otherwise left as it was; a
      replaced cell is the parsed number, or missing when it does not parse. */
  lemma CoerceNumericPath(col: Column, parseDate: string -> Option<CalDate>)
    requires col.kind == Object && !NameHasKeyword(col.name, DatetimeKeys)
    ensures var r := CoerceColumn(col, parseDate);
      (r.kind == Float || r.kind == Int) <==> 2 * ParsedCount(col.cells) > |col.cells|
    ensures var r := CoerceColumn(col, parseDate);
      r.kind == Object ==> r == col
    ensures var r := CoerceColumn(col, parseDate);
      r.kind != Object ==> forall i :: 0 <= i < |col.cells| ==>
        (r.cells[i] == Null <==> ParseCell(col.cells[i]).None?)
        && (r.cells[i].Num? ==> Some(r.cells[i].x) == ParseCell(col.cells[i]))
  {
  }

  /** Coercion yields a column that fits its new dtype: in particular an int64
      column holds only whole numbers. */
  lemma CoerceColumnFits(col: Column, parseDate: string -> Option<CalDate>)
    requires col.kind == Object && ColumnFits(col)
    ensures ColumnFits(CoerceColumn(col, parseDate))
  {
    var r := CoerceColumn(col, parseDate);
    if r.kind == Int {
      forall i | 0 <= i < |col.cells|
        ensures CellFits(Int, r.cells[i])
      {
        var t := CleanNumeric(col.cells[i].s);
        assert IsIntegerLiteral(t);
        IntegerLiteralIntegral(t);
      }
    }
  }

  /** Every column of a freshly read frame has dtype object. */
  predicate IsRaw(f: Frame) {
    forall i :: 0 <= i < |f.columns| ==> f.columns[i].kind == Object
  }

  function CoercedColumns(cols: seq<Column>, parseDate: string -> Option<CalDate>): (r: seq<Column>)
    requires forall i :: 0 <= i < |cols| ==> cols[i].kind == Object
    ensures |r| == |cols|
    ensures forall i :: 0 <= i < |r| ==> r[i].name == cols[i].name && |r[i].cells| == |cols[i].cells|
  {
    seq(|cols|, i requires 0 <= i < |cols| => CoerceColumn(cols[i], parseDate))
  }

  /** `coerce_types`: rewrites the columns one by one. */
  method CoerceTypes(df: Frame, parseDate: string -> Option<CalDate>) returns (r: Frame)
    requires IsRaw(df)
    ensures r == Frame(df.rowCount, CoercedColumns(df.columns, parseDate))
  {
    var cols: seq<Column> := [];
    var i := 0;
    while i < |df.columns|
      invariant 0 <= i <= |df.columns|
      invariant cols == CoercedColumns(df.columns[..i], parseDate)
    {
      cols := cols + [CoerceColumn(df.columns[i], parseDate)];
      i := i + 1;
    }
    assert df.columns[..i] == df.columns;
    r := Frame(df.rowCount, cols);
  }

  /** Coercion keeps the frame well formed: same names, same row count, and
      each column fits its new dtype. */
  lemma CoercedWellFormed(df: Frame, parseDate: string -> Option<CalDate>)
    requires IsRaw(df) && WellFormed(df)
    ensures WellFormed(Frame(df.rowCount, CoercedColumns(df.columns, parseDate)))
    ensures ColumnNames(CoercedColumns(df.columns, parseDate)) == ColumnNames(df.columns)
  {
    var cols := CoercedColumns(df.columns, parseDate);
    forall i | 0 <= i < |cols|
      ensures |cols[i].cells| == df.rowCount && ColumnFits(cols[i])
    {
      CoerceColumnFits(df.columns[i], parseDate);
    }
  }

  // ---------------------------------------------------------------------
  // Column roles
  // ---------------------------------------------------------------------

  datatype Roles = Roles(
    numeric: seq<string>,
    datetime: seq<string>,
    categorical: seq<string>,
    labels: seq<string>,
    geo: seq<string>)

  predicate IsNumericColumn(col: Column) {
    col.kind == Float || col.kind == Int
  }

  predicate IsDatetimeColumn(col: Column) {
    col.kind == DateTime
  }

  predicate IsLabelName(name: string) {
    NameHasKeyword(name, LabelKeys)
  }

  predicate IsGeoName(name: string) {
    NameHasKeyword(name, GeoKeys)
  }

  /** Names of the columns, in order, that are not `excluded` and have at
      most 100 distinct non-missing values. */
  function CategoricalNames(cols: seq<Column>, excluded: seq<string>): (r: seq<string>)
    ensures forall c :: c in r ==> c !in excluded
    ensures forall c :: c in r ==> exists col :: col in cols && col.name == c && NUnique(col) <= 100
    ensures forall col :: col in cols && col.name !in excluded && NUnique(col) <= 100 ==> col.name in r
  {
    if cols == [] then []
    else
      var rest := CategoricalNames(cols[1..], excluded);
      assert forall col :: col in cols[1..] ==> col in cols;
      if cols[0].name !in excluded && NUnique(cols[0]) <= 100 then [cols[0].name] + rest else rest
  }

  /** The names of columns drawn from `cols` are names of `cols`. */
  lemma NamesWithin(sub: seq<Column>, cols: seq<Column>)
    requires forall x :: x in sub ==> x in cols
    ensures forall c :: c in ColumnNames(sub) ==> c in ColumnNames(cols)
  {
    forall c | c in ColumnNames(sub) ensures c in ColumnNames(cols) {
      var k :| 0 <= k < |sub| && ColumnNames(sub)[k] == c;
      assert sub[k] in cols;
      var m :| 0 <= m < |cols| && cols[m] == sub[k];
      assert ColumnNames(cols)[m] == c;
    }
  }

  /** `identify_columns`. */
  function IdentifyColumns(df: Frame): (r: Roles)
    ensures forall c :: c in r.numeric ==> c in ColumnNames(df.columns)
    ensures forall c :: c in r.datetime ==> c in ColumnNames(df.columns)
    ensures forall c :: c in r.categorical ==> c in ColumnNames(df.columns)
    ensures forall c :: c in r.labels ==> c in ColumnNames(df.columns) && IsLabelName(c)
    ensures forall c :: c in r.geo ==> c in ColumnNames(df.columns) && IsGeoName(c)
  {
    var numeric := ColumnNames(Filter(df.columns, IsNumericColumn));
    var datetime := ColumnNames(Filter(df.columns, IsDatetimeColumn));
    var names := ColumnNames(df.columns);
    NamesWithin(Filter(df.columns, IsNumericColumn), df.columns);
    NamesWithin(Filter(df.columns, IsDatetimeColumn), df.columns);
    assert forall col :: col in df.columns ==> col.name in names by {
      forall col | col in df.columns ensures col.name in names {
        var m :| 0 <= m < |df.columns| && df.columns[m] == col;
        assert names[m] == col.name;
      }
    }
    Roles(numeric, datetime, CategoricalNames(df.columns, numeric + datetime),
      Filter(names, IsLabelName), Filter(names, IsGeoName))
  }

  /** Categorical columns are neither numeric nor datetime columns and have
      at most 100 distinct values; numeric and datetime columns are exactly
      those of the matching dtypes. */
  lemma RolesByDtype(df: Frame)
    ensures var r := IdentifyColumns(df);
      forall c :: c in r.categorical ==> c !in r.numeric && c !in r.datetime
    ensures var r := IdentifyColumns(df);
      forall c :: c in r.categorical ==>
        exists col :: col in df.columns && col.name == c && NUnique(col) <= 100
    ensures var r := IdentifyColumns(df);
      forall col :: col in df.columns ==>
        (IsNumericColumn(col) ==> col.name in r.numeric)
        && (IsDatetimeColumn(col) ==> col.name in r.datetime)
    ensures var r := IdentifyColumns(df);
      forall c :: c in r.numeric ==> exists col :: col in df.columns && col.name == c && IsNumericColumn(col)
    ensures var r := IdentifyColumns(df);
      forall c :: c in r.datetime ==> exists col :: col in df.columns && col.name == c && IsDatetimeColumn(col)
    ensures var r := IdentifyColumns(df);
      forall col ::
        (col in df.columns && col.name !in r.numeric && col.name !in r.datetime && NUnique(col) <= 100)
        ==> col.name in r.categorical
  {
    var r := IdentifyColumns(df);
    forall c | c in r.numeric
      ensures exists col :: col in df.columns && col.name == c && IsNumericColumn(col)
    {
      var f := Filter(df.columns, IsNumericColumn);
      var k :| 0 <= k < |f| && ColumnNames(f)[k] == c;
      assert f[k] in f;
    }
    forall c | c in r.datetime
      ensures exists col :: col in df.columns && col.name == c && IsDatetimeColumn(col)
    {
      var f := Filter(df.columns, IsDatetimeColumn);
      var k :| 0 <= k < |f| && ColumnNames(f)[k] == c;
      assert f[k] in f;
    }
    forall col | col in df.columns
      ensures (IsNumericColumn(col) ==> col.name in r.numeric)
        && (IsDatetimeColumn(col) ==> col.name in r.datetime)
    {
      if IsNumericColumn(col) {
        var f := Filter(df.columns, IsNumericColumn);
        var k :| 0 <= k < |f| && f[k] == col;
        assert ColumnNames(f)[k] == col.name;
      }
      if IsDatetimeColumn(col) {
        var f := Filter(df.columns, IsDatetimeColumn);
        var k :| 0 <= k < |f| && f[k] == col;
        assert ColumnNames(f)[k] == col.name;
      }
    }
  }

  /** Label and geographic candidates are exactly the column names holding
      one of their fragments, and they come in column order: the candidates
      of the first `k` columns are a prefix of the candidates of all. */
  lemma CandidatesInOrder(df: Frame, k: nat)
    requires k <= |df.columns|
    ensures var r := IdentifyColumns(df);
      forall c :: (c in r.labels <==> c in ColumnNames(df.columns) && IsLabelName(c))
        && (c in r.geo <==> c in ColumnNames(df.columns) && IsGeoName(c))
    ensures var front := IdentifyColumns(Frame(df.rowCount, df.columns[..k]));
      front.labels <= IdentifyColumns(df).labels && front.geo <= IdentifyColumns(df).geo
  {
    var names := ColumnNames(df.columns);
    assert names == ColumnNames(df.columns[..k]) + names[k..];
    FilterAppend(ColumnNames(df.columns[..k]), names[k..], IsLabelName);
    FilterAppend(ColumnNames(df.columns[..k]), names[k..], IsGeoName);
  }

  // ---------------------------------------------------------------------
  // Outcome labels
  // ---------------------------------------------------------------------

  const SuccessWords: seq<string> := ["success", "pass", "matched", "true", "1"]
  const FailureWords: seq<string> := ["failure", "fail", "not matched", "false", "0"]

  /** The label mapping: success words give 1, failure words give 0, any
      other text is unmapped. */
  function LabelCode(s: string): (r: Option<nat>)
    ensures r == Some(1) <==> s in SuccessWords
    ensures r == Some(0) <==> s in FailureWords
    ensures r.None? <==> s !in SuccessWords && s !in FailureWords
  {
    if s in SuccessWords then Some(1)
    else if s in FailureWords then Some(0)
    else None
  }

  /** No mapping key contains a decimal point. */
  lemma NoKeyHasDot(s: string)
    requires '.' in s
    ensures LabelCode(s).None?
  {
    assert forall w :: w in SuccessWords + FailureWords ==> '.' !in w;
  }

  /** The mapped label of one cell as written: `astype(str).str.lower()` then
      the mapping. A missing cell renders as "nan", an int64 value as its
      digits, a whole float64 value as its digits followed by ".0" (other
      float64 values render with a `.`, an exponent, "nan" or "inf"), and a
      timestamp as an ISO date; none of the last three is a mapping key. */
  function LabelValueAsWritten(kind: Kind, c: Cell): (r: Option<nat>)
    ensures r.Some? ==> r.value <= 1
  {
    match c
    case Null => LabelCode("nan")
    case Str(s) => LabelCode(Lower(s))
    case Num(x) =>
      if kind == Int then LabelCode(IntToString(x.Floor))
      else if IsIntegral(x) then LabelCode(IntToString(x.Floor) + ".0")
      else None
    case Stamp(_) => None
  }

  /** The mapped label of one cell with the numeric case handled: a number
      maps by value, so 1 and 1.0 both count as success. */
  function LabelValue(c: Cell): (r: Option<nat>)
    ensures r.Some? ==> r.value <= 1
  {
    match c
    case Null => None
    case Str(s) => LabelCode(Lower(s))
    case Num(x) => if x == 1.0 then Some(1) else if x == 0.0 then Some(0) else None
    case Stamp(_) => None
  }

  /** Of all mapping keys only "1" and "0" read as numbers. */
  lemma NumericKeys()
    ensures forall w :: w in SuccessWords || w in FailureWords ==>
      (ParseNumber(w).Some? <==> w == "1" || w == "0")
  {
    forall w | w in SuccessWords || w in FailureWords
      ensures ParseNumber(w).Some? <==> w == "1" || w == "0"
    {
      if w == "1" || w == "0" {
        DigitKeysParse();
      } else {
        WordDoesNotParse(w);
      }
    }
  }

  lemma DigitKeysParse()
    ensures ParseNumber("1") == Some(1.0) && ParseNumber("0") == Some(0.0)
  {
    assert '.' !in "1" && '.' !in "0";
    assert AllDigits("1") && AllDigits("0");
    assert DigitsValue("1") == 1 by {
      assert "1"[..0] == [];
    }
    assert DigitsValue("0") == 0 by {
      assert "0"[..0] == [];
    }
  }

  lemma WordDoesNotParse(w: string)
    requires |w| > 0 && 'a' <= w[0] <= 'z' && '.' !in w
    ensures ParseNumber(w).None?
  {
    assert !AllDigits(w) by {
      assert !IsDigit(w[0]);
    }
  }

  /** The digits of an integer are a mapping key only for 1 and 0. */
  lemma IntLabelCode(n: int)
    ensures LabelCode(IntToString(n)) == (if n == 1 then Some(1) else if n == 0 then Some(0) else None)
  {
    IntToStringRoundTrip(n);
    var s := IntToString(n);
    NumericKeys();
    DigitKeysParse();
    if n == 1 {
      assert s == "1";
    } else if n == 0 {
      assert s == "0";
    }
  }

  /** The two agree on text and int64 columns; they part only on float64
      cells, where the as-written mapping never maps. */
  lemma LabelValueAgrees(kind: Kind, c: Cell)
    requires CellFits(kind, c) && kind != Float
    ensures LabelValueAsWritten(kind, c) == LabelValue(c)
  {
    if c.Num? {
      IntLabelCode(c.x.Floor);
    }
  }

  lemma FloatLabelUnmapped(c: Cell)
    requires CellFits(Float, c)
    ensures LabelValueAsWritten(Float, c).None?
  {
    if c.Num? && IsIntegral(c.x) {
      var s := IntToString(c.x.Floor) + ".0";
      assert s[|s| - 2] == '.';
      NoKeyHasDot(s);
    }
  }

  predicate IsMapped(o: Option<nat>) {
    o.Some?
  }

  /** The mapped 0/1 values of a label column, in order, skipping the
      unmapped cells. */
  function MappedLabels(cells: seq<Cell>): (r: seq<nat>)
    ensures |r| <= |cells|
    ensures forall v :: v in r ==> v <= 1
  {
    if cells == [] then []
    else
      var rest := MappedLabels(cells[1..]);
      match LabelValue(cells[0])
      case Some(v) => [v] + rest
      case None => rest
  }

  function MappedLabelsAsWritten(kind: Kind, cells: seq<Cell>): (r: seq<nat>)
    ensures |r| <= |cells|
    ensures forall v :: v in r ==> v <= 1
  {
    if cells == [] then []
    else
      var rest := MappedLabelsAsWritten(kind, cells[1..]);
      match LabelValueAsWritten(kind, cells[0])
      case Some(v) => [v] + rest
      case None => rest
  }

  /** "status" holds no datetime fragment. */
  lemma StatusNotDatetime()
    ensures !NameHasKeyword("status", DatetimeKeys)
  {
    assert Lower("status") == "status";
    AbsentCharNotContained("status", "date", 'd');
    AbsentCharNotContained("status", "dt", 'd');
    AbsentCharNotContained("status", "time", 'i');
    AbsentCharNotContained("status", "timestamp", 'i');
  }

  /** The column of the example below, read from CSV. */
  const StatusColumn := Column("status", Object, [Str("1"), Str("0"), Null])

  lemma StatusColumnCoerced(parseDate: string -> Option<CalDate>)
    ensures CoerceColumn(StatusColumn, parseDate) == Column("status", Float, [Num(1.0), Num(0.0), Null])
  {
    StatusNotDatetime();
    DigitKeysParse();
    var cells := StatusColumn.cells;
    assert CleanNumeric("1") == "1" && CleanNumeric("0") == "0";
    assert ParsedCells(cells) == [Some(1.0), Some(0.0), None];
    assert ParsedCount(cells) == 2;
    assert !AllIntegerLiterals(cells) by {
      assert !cells[2].Str?;
    }
  }

  /** A label column of "1" and "0" with one missing value: coercion turns
      it into float64, after which no cell maps as written, while by value
      both present cells map. */
  lemma FloatLabelsLost(parseDate: string -> Option<CalDate>)
    ensures var col := CoerceColumn(StatusColumn, parseDate);
      col.kind == Float
      && MappedLabelsAsWritten(col.kind, col.cells) == []
      && MappedLabels(col.cells) == [1, 0]
  {
    StatusColumnCoerced(parseDate);
    StatusCellsMapped();
  }

  lemma StatusCellsMapped()
    ensures MappedLabelsAsWritten(Float, [Num(1.0), Num(0.0), Null]) == []
    ensures MappedLabels([Num(1.0), Num(0.0), Null]) == [1, 0]
  {
    var cells := [Num(1.0), Num(0.0), Null];
    assert cells[1..] == [Num(0.0), Null] && cells[2..] == [Null] && cells[3..] == [];
    assert MappedLabels([Null]) == [];
    assert MappedLabels([Num(0.0), Null]) == [0];
    FloatLabelUnmapped(Num(1.0));
    FloatLabelUnmapped(Num(0.0));
    assert MappedLabelsAsWritten(Float, [Null]) == [];
    assert MappedLabelsAsWritten(Float, [Num(0.0), Null]) == [];
  }

  datatype OutcomePath = NoLabel | CountsOnly(column: string) | Binary(column: string)

  /** The branch `outcome_analysis` takes: nothing without a label candidate,
      the value counts when fewer than half the labels map as written (the
      labels go through `astype(str)` before the mapping), the binary
      analysis otherwise. An empty column has a mean of NaN, which is not
      below one half, so it takes the binary branch. */
  function Outcome(df: Frame, labels: seq<string>): (r: OutcomePath)
    requires forall l :: l in labels ==> l in ColumnNames(df.columns)
    ensures r.NoLabel? <==> labels == []
    ensures labels != [] ==> r.column == labels[0]
    ensures labels != [] ==>
      var col := FindColumn(df.columns, labels[0]).value;
      (r.CountsOnly? <==> 2 * |MappedLabelsAsWritten(col.kind, col.cells)| < |col.cells|)
  {
    if labels == [] then NoLabel
    else
      var col := FindColumn(df.columns, labels[0]).value;
      if 2 * |MappedLabelsAsWritten(col.kind, col.cells)| < |col.cells| then CountsOnly(labels[0])
      else Binary(labels[0])
  }

  /** The branch with numeric labels mapped by value. */
  function OutcomeCorrected(df: Frame, labels: seq<string>): (r: OutcomePath)
    requires forall l :: l in labels ==> l in ColumnNames(df.columns)
    ensures r.NoLabel? <==> labels == []
    ensures labels != [] ==> r.column == labels[0]
    ensures labels != [] ==>
      var col := FindColumn(df.columns, labels[0]).value;
      (r.CountsOnly? <==> 2 * |MappedLabels(col.cells)| < |col.cells|)
  {
    if labels == [] then NoLabel
    else
      var col := FindColumn(df.columns, labels[0]).value;
      if 2 * |MappedLabels(col.cells)| < |col.cells| then CountsOnly(labels[0]) else Binary(labels[0])
  }

  /** The two branches agree on text and int64 label columns. */
  lemma {:induction false} MappedLabelsAgree(kind: Kind, cells: seq<Cell>)
    requires kind != Float && forall i :: 0 <= i < |cells| ==> CellFits(kind, cells[i])
    ensures MappedLabelsAsWritten(kind, cells) == MappedLabels(cells)
  {
    if cells != [] {
      LabelValueAgrees(kind, cells[0]);
      MappedLabelsAgree(kind, cells[1..]);
    }
  }

  /** The coerced "1", "0", missing column takes the counts branch as
      written, while two of its three labels map by value. */
  lemma StatusOutcome(parseDate: string -> Option<CalDate>)
    ensures var df := Frame(3, [CoerceColumn(StatusColumn, parseDate)]);
      ColumnNames(df.columns) == ["status"]
      && Outcome(df, ["status"]) == CountsOnly("status")
      && OutcomeCorrected(df, ["status"]) == Binary("status")
  {
    StatusColumnCoerced(parseDate);
    CoercedStatusOutcome();
  }

  lemma CoercedStatusOutcome()
    ensures var df := Frame(3, [Column("status", Float, [Num(1.0), Num(0.0), Null])]);
      ColumnNames(df.columns) == ["status"]
      && Outcome(df, ["status"]) == CountsOnly("status")
      && OutcomeCorrected(df, ["status"]) == Binary("status")
  {
    var col := Column("status", Float, [Num(1.0), Num(0.0), Null]);
    assert ColumnNames([col]) == ["status"];
    assert FindColumn([col], "status") == Some(col);
    StatusCellsMapped();
  }

  // ---------------------------------------------------------------------
  // Cluster count
  // ---------------------------------------------------------------------

  /** The best-k loop over k = 2..6 with `score(k)` the silhouette of the
      k-means labelling (a library result, given here). The comparison is
      strict, so the first k reaching the maximum wins; no k is chosen when
      every score is at most the starting -1. */
  method BestK(score: int -> real) returns (best: Option<int>, bestScore: real)
    ensures best.None? <==> forall k :: 2 <= k <= 6 ==> score(k) <= -1.0
    ensures best.None? ==> bestScore == -1.0
    ensures best.Some? ==> 2 <= best.value <= 6 && bestScore == score(best.value)
    ensures best.Some? ==> forall k :: 2 <= k <= 6 ==> score(k) <= bestScore
    ensures best.Some? ==> forall k :: 2 <= k < best.value ==> score(k) < bestScore
  {
    best, bestScore := None, -1.0;
    for k := 2 to 7
      invariant best.None? <==> forall j :: 2 <= j < k ==> score(j) <= -1.0
      invariant best.None? ==> bestScore == -1.0
      invariant best.Some? ==> 2 <= best.value < k && bestScore == score(best.value)
      invariant forall j :: 2 <= j < k ==> score(j) <= bestScore
      invariant best.Some? ==> forall j :: 2 <= j < best.value ==> score(j) < bestScore
      invariant best.Some? ==> bestScore > -1.0
    {
      var s := score(k);
      if s > bestScore {
        best, bestScore := Some(k), s;
      }
    }
  }
}
