/** The national insights summary: per-dataset KPIs, state shares, daily
    volumes, the comparison of state shares between datasets and the daily
    volatility figure. */
module Insights {
  import opened Wrappers
  import opened Seqs
  import opened Text
  import opened Calendar
  import opened Frames
  import opened Schema

  // ---------------------------------------------------------------------
  // pick_col
  // ---------------------------------------------------------------------

  /** The first name, in order, whose lowercase form contains one of the
      keys; none when no name does. */
  function FirstMatch(cols: seq<string>, keys: seq<string>): (r: Option<string>)
    ensures r.None? <==> forall i :: 0 <= i < |cols| ==> !NameHasKeyword(cols[i], keys)
    ensures r.Some? ==> exists i :: (0 <= i < |cols| && cols[i] == r.value
      && NameHasKeyword(cols[i], keys)
      && forall j :: 0 <= j < i ==> !NameHasKeyword(cols[j], keys))
  {
    if cols == [] then None
    else if NameHasKeyword(cols[0], keys) then Some(cols[0])
    else
      var rest := FirstMatch(cols[1..], keys);
      assert rest.Some? ==> exists i :: (0 <= i < |cols| && cols[i] == rest.value
        && NameHasKeyword(cols[i], keys)
        && forall j :: 0 <= j < i ==> !NameHasKeyword(cols[j], keys)) by {
        if rest.Some? {
          var i :| 0 <= i < |cols[1..]| && cols[1..][i] == rest.value
            && NameHasKeyword(cols[1..][i], keys)
            && forall j :: 0 <= j < i ==> !NameHasKeyword(cols[1..][j], keys);
          assert forall j :: 0 <= j < i + 1 ==> !NameHasKeyword(cols[j], keys) by {
            forall j | 0 <= j < i + 1 ensures !NameHasKeyword(cols[j], keys) {
              if j > 0 {
                assert cols[j] == cols[1..][j - 1];
              }
            }
          }
          assert cols[i + 1] == rest.value;
        }
      }
      assert rest.None? ==> forall i :: 0 <= i < |cols| ==> !NameHasKeyword(cols[i], keys) by {
        if rest.None? {
          forall i | 0 <= i < |cols| ensures !NameHasKeyword(cols[i], keys) {
            if i > 0 {
              assert cols[i] == cols[1..][i - 1];
            }
          }
        }
      }
      rest
  }

  /** `pick_col`: scan the names in order and stop at the first match. */
  method PickCol(cols: seq<string>, keys: seq<string>) returns (r: Option<string>)
    ensures r == FirstMatch(cols, keys)
  {
    var i := 0;
    while i < |cols|
      invariant 0 <= i <= |cols|
      invariant FirstMatch(cols[i..], keys) == FirstMatch(cols, keys)
    {
      assert cols[i..][1..] == cols[i + 1..];
      if NameHasKeyword(cols[i], keys) {
        return Some(cols[i]);
      }
      i := i + 1;
    }
    return None;
  }

  // ---------------------------------------------------------------------
  // kpis_for_df
  // ---------------------------------------------------------------------

  datatype Kpis = Kpis(
    rows: nat, cols: nat, missingRate: real,
    datetimeCol: Option<string>, dateMin: Option<Date>, dateMax: Option<Date>,
    stateCol: Option<string>, districtCol: Option<string>,
    nStates: nat, nDistricts: nat)

  /** The figures reported for a table without rows or columns. */
  const EmptyKpis := Kpis(0, 0, 1.0, None, None, None, None, None, 0, 0)

  /** The dates of the timestamp cells, in order (`dropna`). */
  function Stamps(cells: seq<Cell>): (ds: seq<Date>)
    ensures |ds| <= |cells|
    ensures forall i :: 0 <= i < |cells| && cells[i].Stamp? ==> cells[i].d in ds
    ensures forall d :: d in ds ==> exists i :: 0 <= i < |cells| && cells[i].Stamp? && cells[i].d == d
  {
    if cells == [] then []
    else
      var rest := Stamps(cells[1..]);
      assert forall i :: 1 <= i < |cells| ==> cells[i] == cells[1..][i - 1];
      assert forall d :: d in rest ==> exists i :: 0 <= i < |cells| && cells[i].Stamp? && cells[i].d == d by {
        forall d | d in rest ensures exists i :: 0 <= i < |cells| && cells[i].Stamp? && cells[i].d == d {
          var j :| 0 <= j < |cells[1..]| && cells[1..][j].Stamp? && cells[1..][j].d == d;
          assert cells[j + 1] == cells[1..][j];
        }
      }
      if cells[0].Stamp? then [cells[0].d] + rest else rest
  }

  /** `nunique` of the named column, 0 when there is no such column. */
  function DistinctValues(df: Frame, name: Option<string>): (n: nat)
    ensures WellFormed(df) ==> n <= df.rowCount
  {
    match name
    case None => 0
    case Some(c) =>
      match FindColumn(df.columns, c)
      case None => 0
      case Some(col) =>
        assert WellFormed(df) ==> |col.cells| == df.rowCount by {
          if WellFormed(df) {
            var i :| 0 <= i < |df.columns| && df.columns[i] == col;
          }
        }
        NUnique(col)
  }

  /** The earliest and latest timestamp of the named column, when it has
      one. */
  function DateRange(df: Frame, name: Option<string>): (r: Option<(Date, Date)>)
    ensures r.Some? ==> DateLe(r.value.0, r.value.1)
    ensures name.None? || FindColumn(df.columns, name.value).None? ==> r.None?
    ensures name.Some? && FindColumn(df.columns, name.value).Some? ==>
      var ds := Stamps(FindColumn(df.columns, name.value).value.cells);
      (r.Some? <==> ds != [])
      && (r.Some? ==>
            r.value.0 in ds && r.value.1 in ds
            && forall d :: d in ds ==> DateLe(r.value.0, d) && DateLe(d, r.value.1))
  {
    match name
    case None => None
    case Some(c) =>
      match FindColumn(df.columns, c)
      case None => None
      case Some(col) =>
        var ds := Stamps(col.cells);
        if ds == [] then None
        else
          var lo := MinDate(ds);
          var hi := MaxDate(ds);
          assert DateLe(lo, hi);
          Some((lo, hi))
  }

  function Head(s: seq<string>): Option<string> {
    if s == [] then None else Some(s[0])
  }

  /** `kpis_for_df`. */
  function KpisFor(df: Frame): (k: Kpis)
    ensures IsEmpty(df) ==> k == EmptyKpis
    ensures !IsEmpty(df) ==> k.rows == df.rowCount && k.cols == |df.columns|
    ensures 0.0 <= k.missingRate <= 1.0
    ensures !IsEmpty(df) ==>
      k.stateCol == FirstMatch(ColumnNames(df.columns), ["state"])
      && k.districtCol == FirstMatch(ColumnNames(df.columns), ["district"])
      && k.datetimeCol == Head(IdentifyColumns(df).datetime)
    ensures k.dateMin.Some? <==> k.dateMax.Some?
    ensures k.dateMin.Some? ==> k.datetimeCol.Some? && DateLe(k.dateMin.value, k.dateMax.value)
    ensures !IsEmpty(df) && k.datetimeCol.Some? ==>
      FindColumn(df.columns, k.datetimeCol.value).Some?
      && var ds := Stamps(FindColumn(df.columns, k.datetimeCol.value).value.cells);
      (k.dateMin.Some? <==> ds != [])
      && (k.dateMin.Some? ==>
            k.dateMin.value in ds && k.dateMax.value in ds
            && forall d :: d in ds ==> DateLe(k.dateMin.value, d) && DateLe(d, k.dateMax.value))
    ensures WellFormed(df) ==> k.nStates <= df.rowCount && k.nDistricts <= df.rowCount
  {
    if IsEmpty(df) then EmptyKpis
    else
      var names := ColumnNames(df.columns);
      var stateCol := FirstMatch(names, ["state"]);
      var districtCol := FirstMatch(names, ["district"]);
      var dtCol := Head(IdentifyColumns(df).datetime);
      var range := DateRange(df, dtCol);
      Kpis(df.rowCount, |df.columns|, MissingRate(df), dtCol,
        if range.Some? then Some(range.value.0) else None,
        if range.Some? then Some(range.value.1) else None,
        stateCol, districtCol,
        DistinctValues(df, stateCol), DistinctValues(df, districtCol))
  }

  /** A picked column always exists in the table, so the distinct counts
      are those of real columns. */
  lemma PickedColumnsExist(df: Frame)
    requires !IsEmpty(df)
    ensures KpisFor(df).stateCol.Some? ==> KpisFor(df).stateCol.value in ColumnNames(df.columns)
    ensures KpisFor(df).districtCol.Some? ==>
      KpisFor(df).districtCol.value in ColumnNames(df.columns)
  {
  }

  // ---------------------------------------------------------------------
  // state_shares
  // ---------------------------------------------------------------------

  function ShareOf<T>(e: (T, real)): real {
    e.1
  }

  /** Each count as a fraction of `total`. */
  function Shares<T>(t: seq<(T, nat)>, total: nat): (r: seq<(T, real)>)
    requires total > 0
    ensures |r| == |t|
    ensures forall i :: 0 <= i < |t| ==> r[i] == (t[i].0, t[i].1 as real / total as real)
  {
    if t == [] then [] else [(t[0].0, t[0].1 as real / total as real)] + Shares(t[1..], total)
  }

  lemma {:induction false} SharesSum<T>(t: seq<(T, nat)>, total: nat)
    requires total > 0
    ensures SumBy(Shares(t, total), ShareOf) == CountsTotal(t) as real / total as real
  {
    if t != [] {
      SharesSum(t[1..], total);
      var n := total as real;
      assert Shares(t, total)[1..] == Shares(t[1..], total);
      assert t[0].1 as real / n + CountsTotal(t[1..]) as real / n
        == (t[0].1 + CountsTotal(t[1..])) as real / n;
    }
  }

  /** `state_shares`: the share of each value of the state column (missing
      values included), largest first; empty without a column or rows. */
  function StateShares(df: Frame, stateCol: Option<string>): (r: seq<(Cell, real)>)
    ensures stateCol.None? ==> r == []
    ensures stateCol.Some? && stateCol.value !in ColumnNames(df.columns) ==> r == []
    ensures SortedDesc(r, ShareOf)
  {
    match stateCol
    case None => []
    case Some(name) =>
      match FindColumn(df.columns, name)
      case None => []
      case Some(col) =>
        if |col.cells| == 0 then [] else SortDesc(Shares(Tally(col.cells), |col.cells|), ShareOf)
  }

  /** The shares of a state column with cells are its tally over its
      number of cells, largest first. */
  lemma StateSharesOf(df: Frame, name: string, col: Column)
    requires FindColumn(df.columns, name) == Some(col)
    ensures |col.cells| == 0 <==> StateShares(df, Some(name)) == []
    ensures |col.cells| > 0 ==>
      StateShares(df, Some(name)) == SortDesc(Shares(Tally(col.cells), |col.cells|), ShareOf)
  {
    if |col.cells| > 0 {
      var sh := Shares(Tally(col.cells), |col.cells|);
      assert |SortDesc(sh, ShareOf)| == |sh|;
      assert |Tally(col.cells)| > 0 by {
        assert col.cells[0] in KeysOf(Tally(col.cells));
      }
    }
  }

  /** The shares of the values of a non-empty column sum to 1. */
  lemma TallySharesSumToOne<T(!new)>(cells: seq<T>)
    requires |cells| > 0
    ensures SumBy(Shares(Tally(cells), |cells|), ShareOf) == 1.0
  {
    var t := Tally(cells);
    SharesSum(t, |cells|);
    TallyTotal(cells);
    FractionAtMostOne(CountsTotal(t) as real, |cells| as real);
  }

  /** For a state column with cells, the shares sum to 1. */
  lemma StateSharesSumToOne(df: Frame, name: string, col: Column)
    requires FindColumn(df.columns, name) == Some(col)
    ensures StateShares(df, Some(name)) != [] ==> SumBy(StateShares(df, Some(name)), ShareOf) == 1.0
  {
    StateSharesOf(df, name, col);
    if |col.cells| > 0 {
      TallySharesSumToOne(col.cells);
      SortDescSum(Shares(Tally(col.cells), |col.cells|), ShareOf, ShareOf);
    }
  }

  /** Each share of a non-empty column's values is the value's count over
      the number of cells. */
  lemma TallySharesCounts<T(!new)>(cells: seq<T>)
    requires |cells| > 0
    ensures var sh := Shares(Tally(cells), |cells|);
      forall i :: 0 <= i < |sh| ==>
        (0.0 < sh[i].1 <= 1.0 && sh[i].1 == Count(cells, sh[i].0) as real / |cells| as real)
  {
    var n := |cells|;
    var t := Tally(cells);
    var sh := Shares(t, n);
    forall i | 0 <= i < |sh|
      ensures 0.0 < sh[i].1 <= 1.0 && sh[i].1 == Count(cells, sh[i].0) as real / n as real
    {
      assert KeysOf(t)[i] == t[i].0;
      CountPositive(cells, t[i].0);
      CountAtMost(cells, t[i].0);
      FractionAtMostOne(t[i].1 as real, n as real);
    }
  }

  /** Each share is its value's count over the number of cells, so it lies
      in (0, 1]. */
  lemma StateSharesCounts(df: Frame, name: string, col: Column)
    requires FindColumn(df.columns, name) == Some(col)
    ensures forall e :: e in StateShares(df, Some(name)) ==>
      (0.0 < e.1 <= 1.0 && e.1 == Count(col.cells, e.0) as real / |col.cells| as real)
  {
    StateSharesOf(df, name, col);
    if |col.cells| > 0 {
      var sh := Shares(Tally(col.cells), |col.cells|);
      TallySharesCounts(col.cells);
      forall e | e in StateShares(df, Some(name))
        ensures 0.0 < e.1 <= 1.0 && e.1 == Count(col.cells, e.0) as real / |col.cells| as real
      {
        var i :| 0 <= i < |sh| && sh[i] == e;
      }
    }
  }

  /** A value has a share exactly when it is a key of the counts. */
  lemma SharesKeys<T>(t: seq<(T, nat)>, total: nat, c: T)
    requires total > 0
    ensures c in KeysOf(t) <==> exists e :: e in Shares(t, total) && e.0 == c
  {
    var sh := Shares(t, total);
    if c in KeysOf(t) {
      var i :| 0 <= i < |t| && KeysOf(t)[i] == c;
      assert sh[i] in sh && sh[i].0 == c;
    }
    if exists e :: e in sh && e.0 == c {
      var e :| e in sh && e.0 == c;
      var i :| 0 <= i < |sh| && sh[i] == e;
      assert KeysOf(t)[i] == c;
    }
  }

  /** A value has a share exactly when it occurs among the cells. */
  lemma TallySharesKeys<T(!new)>(cells: seq<T>, c: T)
    requires |cells| > 0
    ensures c in cells <==>
      exists e :: e in SortDesc(Shares(Tally(cells), |cells|), ShareOf) && e.0 == c
  {
    var sh := Shares(Tally(cells), |cells|);
    SharesKeys(Tally(cells), |cells|, c);
    assert forall e :: e in SortDesc(sh, ShareOf) <==> e in sh;
  }

  /** Every value of the state column, missing or not, has a share, and only
      those values do. */
  lemma StateSharesKeys(df: Frame, name: string, col: Column, c: Cell)
    requires FindColumn(df.columns, name) == Some(col)
    ensures c in col.cells <==> exists e :: e in StateShares(df, Some(name)) && e.0 == c
  {
    StateSharesOf(df, name, col);
    if |col.cells| > 0 {
      TallySharesKeys(col.cells, c);
    }
  }

  // ---------------------------------------------------------------------
  // daily_volume
  // ---------------------------------------------------------------------

  /** `daily_volume`: the number of timestamps on each date of the named
      column (missing cells dropped); empty without such a column. */
  function DailyVolume(df: Frame, dtCol: Option<string>): (r: seq<(Date, nat)>)
    ensures NoDup(KeysOf(r))
    ensures dtCol.None? || dtCol.value !in ColumnNames(df.columns) ==> r == []
  {
    match dtCol
    case None => []
    case Some(name) =>
      match FindColumn(df.columns, name)
      case None => []
      case Some(col) => Tally(Stamps(col.cells))
  }

  lemma {:induction false} StampsOfDatetime(cells: seq<Cell>)
    requires forall i :: 0 <= i < |cells| ==> CellFits(DateTime, cells[i])
    ensures |Stamps(cells)| == |Filter(cells, NotNull)|
  {
    if cells != [] {
      StampsOfDatetime(cells[1..]);
    }
  }

  /** On a datetime column the daily counts add up to the number of
      non-missing cells; the dates are exactly the dates of its timestamps,
      each with its number of occurrences. */
  lemma DailyVolumeSpec(df: Frame, name: string, col: Column)
    requires FindColumn(df.columns, name) == Some(col)
    requires col.kind == DateTime && ColumnFits(col)
    ensures var r := DailyVolume(df, Some(name));
      CountsTotal(r) == |Filter(col.cells, NotNull)|
    ensures var r := DailyVolume(df, Some(name));
      forall d :: d in KeysOf(r) <==> exists i :: 0 <= i < |col.cells| && col.cells[i].Stamp? && col.cells[i].d == d
    ensures var r := DailyVolume(df, Some(name));
      forall i :: 0 <= i < |r| ==> r[i].1 == Count(Stamps(col.cells), r[i].0)
  {
    TallyTotal(Stamps(col.cells));
    StampsOfDatetime(col.cells);
  }

  // ---------------------------------------------------------------------
  // Throughput volatility
  // ---------------------------------------------------------------------

  function DayCountOf(e: (Date, nat)): real {
    e.1 as real
  }

  /** `max(1.0, dv.mean())`: never below 1, so the division is defined. */
  function VolatilityDenominator(dv: seq<(Date, nat)>): (d: real)
    requires dv != []
    ensures d >= 1.0 && d >= Mean(dv, DayCountOf)
    ensures Mean(dv, DayCountOf) >= 1.0 ==> d == Mean(dv, DayCountOf)
  {
    var m := Mean(dv, DayCountOf);
    if m > 1.0 then m else 1.0
  }

  /** The daily volatility figure for a given standard deviation of the daily
      counts (a library statistic): non-negative and never above the
      standard deviation itself. */
  function DailyVolatility(dv: seq<(Date, nat)>, std: real): (v: real)
    requires dv != [] && std >= 0.0
    ensures 0.0 <= v <= std
  {
    var d := VolatilityDenominator(dv);
    assert std / d * d == std;
    std / d
  }

  // ---------------------------------------------------------------------
  // Share deltas between datasets
  // ---------------------------------------------------------------------

  datatype ShareDelta = ShareDelta(state: Cell, base: real, target: real, delta: real)

  /** The share of a state, 0 when the state is absent (`fillna(0.0)`). */
  function ShareIn(t: seq<(Cell, real)>, k: Cell): (s: real)
    ensures k !in KeysOf(t) ==> s == 0.0
    ensures k in KeysOf(t) ==> exists i :: 0 <= i < |t| && t[i] == (k, s)
  {
    if t == [] then 0.0
    else if t[0].0 == k then
      assert KeysOf(t)[0] == k;
      t[0].1
    else
      assert KeysOf(t) == [t[0].0] + KeysOf(t[1..]);
      var s := ShareIn(t[1..], k);
      assert k in KeysOf(t[1..]) ==> t[1..][0..] == t[1..];
      s
  }

  function DeltaRow(base: seq<(Cell, real)>, target: seq<(Cell, real)>, k: Cell): ShareDelta {
    ShareDelta(k, ShareIn(base, k), ShareIn(target, k), ShareIn(target, k) - ShareIn(base, k))
  }

  /** The outer-joined comparison table: one row per state of either
      series. */
  function Comparison(base: seq<(Cell, real)>, target: seq<(Cell, real)>): (c: seq<ShareDelta>)
    ensures forall d :: d in c ==> d == DeltaRow(base, target, d.state)
    ensures forall k :: k in KeysOf(base) || k in KeysOf(target) <==> DeltaRow(base, target, k) in c
  {
    var keys := Distinct(KeysOf(base) + KeysOf(target));
    var c := seq(|keys|, i requires 0 <= i < |keys| => DeltaRow(base, target, keys[i]));
    assert forall k :: k in keys ==> DeltaRow(base, target, k) in c by {
      forall k | k in keys ensures DeltaRow(base, target, k) in c {
        var i :| 0 <= i < |keys| && keys[i] == k;
        assert c[i] == DeltaRow(base, target, k);
      }
    }
    assert forall d :: d in c ==> d.state in keys;
    c
  }

  function NegDelta(d: ShareDelta): real {
    -d.delta
  }

  /** The ten rows with the smallest delta, ascending (`sort_values("delta")
      .head(10)`). */
  function Worst(base: seq<(Cell, real)>, target: seq<(Cell, real)>): (w: seq<ShareDelta>)
    ensures |w| <= 10
    ensures |w| == if |Comparison(base, target)| < 10 then |Comparison(base, target)| else 10
  {
    Take(SortDesc(Comparison(base, target), NegDelta), 10)
  }

  /** The worst list has at most ten rows of the comparison in ascending
      delta order, and no comparison row left out has a smaller delta than a
      row kept. */
  lemma WorstSpec(base: seq<(Cell, real)>, target: seq<(Cell, real)>)
    ensures var w := Worst(base, target);
      |w| <= 10 && forall i, j :: 0 <= i < j < |w| ==> w[i].delta <= w[j].delta
    ensures var w := Worst(base, target);
      |w| == if |Comparison(base, target)| < 10 then |Comparison(base, target)| else 10
    ensures var w := Worst(base, target);
      forall d :: d in w ==> d in Comparison(base, target)
    ensures var w := Worst(base, target);
      forall x, d :: x in Comparison(base, target) && x !in w && d in w ==> d.delta <= x.delta
  {
    var c := Comparison(base, target);
    var s := SortDesc(c, NegDelta);
    var w := Worst(base, target);
    assert forall i, j :: 0 <= i < j < |w| ==> NegDelta(w[i]) >= NegDelta(w[j]);
    forall x, d | x in c && x !in w && d in w ensures d.delta <= x.delta {
      var j :| 0 <= j < |s| && s[j] == x;
      var i :| 0 <= i < |w| && w[i] == d;
      assert s[i] == d;
      assert NegDelta(s[i]) >= NegDelta(s[j]);
    }
  }

  // ---------------------------------------------------------------------
  // The per-dataset results and the report figures
  // ---------------------------------------------------------------------

  datatype DatasetResult = DatasetResult(
    kpis: Kpis, stateShares: seq<(Cell, real)>, dailyVol: seq<(Date, nat)>, dfCols: seq<string>)

  /** What `main` keeps for one loaded table. */
  function DatasetInsight(df: Frame): (r: DatasetResult)
    ensures r.kpis == KpisFor(df)
    ensures r.kpis.stateCol.None? ==> r.stateShares == []
    ensures IsEmpty(df) ==> r.stateShares == [] && r.dailyVol == []
  {
    var k := KpisFor(df);
    DatasetResult(k, StateShares(df, k.stateCol), DailyVolume(df, k.datetimeCol), ColumnNames(df.columns))
  }

  /** The datasets whose folder exists, by name. */
  datatype Results = Results(
    enrolment: Option<DatasetResult>, demographic: Option<DatasetResult>,
    biometric: Option<DatasetResult>)

  function RowsOf(o: Option<DatasetResult>): nat {
    match o case None => 0 case Some(r) => r.kpis.rows
  }

  /** The total number of records analysed. */
  function TotalRows(r: Results): (n: nat)
    ensures n >= RowsOf(r.enrolment) && n >= RowsOf(r.demographic) && n >= RowsOf(r.biometric)
    ensures n == 0 <==> RowsOf(r.enrolment) == 0 && RowsOf(r.demographic) == 0 && RowsOf(r.biometric) == 0
  {
    RowsOf(r.enrolment) + RowsOf(r.demographic) + RowsOf(r.biometric)
  }

  predicate HasShares(o: Option<DatasetResult>) {
    o.None? || o.value.stateShares != []
  }

  /** The state comparison of the report: skipped (none) unless every
      present dataset has state shares; otherwise the worst list of the
      demographic and of the biometric dataset against the enrolment one,
      each present exactly when both datasets are. */
  function ShareComparison(r: Results): (c: Option<(Option<seq<ShareDelta>>, Option<seq<ShareDelta>>)>)
    ensures c.None? <==> !(HasShares(r.enrolment) && HasShares(r.demographic) && HasShares(r.biometric))
    ensures c.Some? ==> (c.value.0.Some? <==> r.enrolment.Some? && r.demographic.Some?)
    ensures c.Some? ==> (c.value.1.Some? <==> r.enrolment.Some? && r.biometric.Some?)
    ensures c.Some? && c.value.0.Some? ==>
      c.value.0.value == Worst(r.enrolment.value.stateShares, r.demographic.value.stateShares)
    ensures c.Some? && c.value.1.Some? ==>
      c.value.1.value == Worst(r.enrolment.value.stateShares, r.biometric.value.stateShares)
  {
    if !(HasShares(r.enrolment) && HasShares(r.demographic) && HasShares(r.biometric)) then None
    else
      match r.enrolment
      case None => Some((None, None))
      case Some(e) =>
        Some((
          if r.demographic.Some? then Some(Worst(e.stateShares, r.demographic.value.stateShares)) else None,
          if r.biometric.Some? then Some(Worst(e.stateShares, r.biometric.value.stateShares)) else None))
  }
}
