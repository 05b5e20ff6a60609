/** A data frame as the scripts see it: named columns of equal length, each
    with a pandas dtype (object, float64, int64 or datetime64) and cells that
    are either missing or a value of that dtype. */
module Frames {
  import opened Wrappers
  import opened Seqs
  import opened Calendar

  datatype Cell = Null | Str(s: string) | Num(x: real) | Stamp(d: CalDate)

  /** The dtype of a column. `Int` columns never hold a missing cell (pandas
      falls back to float64 as soon as one value is missing). */
  datatype Kind = Object | Float | Int | DateTime

  datatype Column = Column(name: string, kind: Kind, cells: seq<Cell>)

  datatype Frame = Frame(rowCount: nat, columns: seq<Column>)

  predicate IsIntegral(x: real) {
    x.Floor as real == x
  }

  /** A cell may sit in a column of the given dtype. */
  predicate CellFits(kind: Kind, c: Cell) {
    match kind
    case Object => c.Null? || c.Str?
    case Float => c.Null? || c.Num?
    case Int => c.Num? && IsIntegral(c.x)
    case DateTime => c.Null? || c.Stamp?
  }

  predicate ColumnFits(col: Column) {
    forall i :: 0 <= i < |col.cells| ==> CellFits(col.kind, col.cells[i])
  }

  function ColumnNames(cols: seq<Column>): (r: seq<string>)
    ensures |r| == |cols|
    ensures forall i :: 0 <= i < |cols| ==> r[i] == cols[i].name
  {
    seq(|cols|, i requires 0 <= i < |cols| => cols[i].name)
  }

  /** Every column has one cell per row and fits its dtype, and column names
      are distinct (CSV headers are de-duplicated on reading). */
  predicate WellFormed(f: Frame) {
    NoDup(ColumnNames(f.columns))
    && forall i :: 0 <= i < |f.columns| ==>
         |f.columns[i].cells| == f.rowCount && ColumnFits(f.columns[i])
  }

  /** `df.empty`: no rows or no columns. */
  predicate IsEmpty(f: Frame) {
    f.rowCount == 0 || |f.columns| == 0
  }

  /** `df[name]`: the first column with that name. */
  function FindColumn(cols: seq<Column>, name: string): (r: Option<Column>)
    ensures r.None? <==> name !in ColumnNames(cols)
    ensures r.Some? ==> r.value in cols && r.value.name == name
  {
    if cols == [] then None
    else if cols[0].name == name then Some(cols[0])
    else
      assert ColumnNames(cols) == [cols[0].name] + ColumnNames(cols[1..]);
      FindColumn(cols[1..], name)
  }

  predicate IsNull(c: Cell) {
    c.Null?
  }

  predicate NotNull(c: Cell) {
    !c.Null?
  }

  /** `col.isna().mean()`, taken as 0 for a column without cells. */
  function NullFraction(col: Column): (r: real)
    ensures 0.0 <= r <= 1.0
  {
    if |col.cells| == 0 then 0.0
    else
      var k := |Filter(col.cells, IsNull)| as real;
      var n := |col.cells| as real;
      if k == 0.0 then k / n
      else
        FractionAtMostOne(k, n);
        k / n
  }

  /** `df.isna().mean().mean()`: the mean over the columns of each column's
      share of missing cells; it lies in [0, 1]. */
  function MissingRate(f: Frame): (r: real)
    requires |f.columns| > 0
    ensures 0.0 <= r <= 1.0
  {
    MeanBounds(f.columns, NullFraction, 0.0, 1.0);
    Mean(f.columns, NullFraction)
  }

  /** `col.nunique(dropna=True)`. */
  function NUnique(col: Column): (n: nat)
    ensures n <= |col.cells|
  {
    var present := Filter(col.cells, NotNull);
    DistinctNoLonger(present);
    |Distinct(present)|
  }
}
