/** The per-dataset metrics of the comparative dashboard: sizes, column
    roles, missingness, the success rate of the outcome label and the most
    frequent values of the first geographic columns. */
module DatasetMetrics {
  import opened Wrappers
  import opened Seqs
  import opened Calendar
  import opened Frames
  import opened Schema

  function AsReal(v: nat): real {
    v as real
  }

  /** The mean of the mapped 0/1 labels, none when no label maps. */
  function SuccessRateOf(mapped: seq<nat>): (r: Option<real>)
    requires forall v :: v in mapped ==> v <= 1
    ensures r.None? <==> mapped == []
    ensures r.Some? ==> 0.0 <= r.value <= 1.0
    ensures r.Some? ==> r.value * |mapped| as real == Count(mapped, 1) as real
  {
    if mapped == [] then None
    else
      MeanBounds(mapped, AsReal, 0.0, 1.0);
      SumOfBits(mapped);
      Some(Mean(mapped, AsReal))
  }

  /** Summing 0/1 values counts the ones. */
  lemma {:induction false} SumOfBits(s: seq<nat>)
    requires forall v :: v in s ==> v <= 1
    ensures SumBy(s, AsReal) == Count(s, 1) as real
  {
    if s != [] {
      assert s[0] in s;
      assert forall v :: v in s[1..] ==> v in s;
      SumOfBits(s[1..]);
    }
  }

  /** The success rate of the first label candidate, with numeric labels
      mapped by value. */
  function SuccessRate(df: Frame, labels: seq<string>): (r: Option<real>)
    ensures labels == [] || labels[0] !in ColumnNames(df.columns) ==> r.None?
    ensures labels != [] && labels[0] in ColumnNames(df.columns) ==>
      var col := FindColumn(df.columns, labels[0]).value;
      r == SuccessRateOf(MappedLabels(col.cells))
    ensures r.Some? ==> 0.0 <= r.value <= 1.0
  {
    if labels == [] then None
    else
      match FindColumn(df.columns, labels[0])
      case None => None
      case Some(col) => SuccessRateOf(MappedLabels(col.cells))
  }

  /** The success rate as written: labels are rendered with `astype(str)`
      before the mapping, so a float64 column never maps. */
  function SuccessRateAsWritten(df: Frame, labels: seq<string>): (r: Option<real>)
    ensures labels == [] || labels[0] !in ColumnNames(df.columns) ==> r.None?
    ensures labels != [] && labels[0] in ColumnNames(df.columns) ==>
      var col := FindColumn(df.columns, labels[0]).value;
      r == SuccessRateOf(MappedLabelsAsWritten(col.kind, col.cells))
    ensures r.Some? ==> 0.0 <= r.value <= 1.0
  {
    if labels == [] then None
    else
      match FindColumn(df.columns, labels[0])
      case None => None
      case Some(col) => SuccessRateOf(MappedLabelsAsWritten(col.kind, col.cells))
  }

  /** Half of the labels 1 and 0 are successes. */
  lemma HalfSuccess()
    ensures SuccessRateOf([1, 0]) == Some(0.5)
  {
    var s: seq<nat> := [1, 0];
    assert s[1..] == [0];
    SumOfBits(s);
    assert Count(s, 1) == 1;
  }

  /** The coerced status column: 1.0, 0.0 and a missing value. */
  const CoercedStatus := Column("status", Float, [Num(1.0), Num(0.0), Null])

  lemma CoercedStatusRates()
    ensures SuccessRateAsWritten(Frame(3, [CoercedStatus]), ["status"]).None?
    ensures SuccessRate(Frame(3, [CoercedStatus]), ["status"]) == Some(0.5)
  {
    assert FindColumn([CoercedStatus], "status") == Some(CoercedStatus);
    StatusCellsMapped();
    HalfSuccess();
  }

  /** A 0/1 status column with one missing value, once coerced, has no
      success rate as written, while half of its known labels are
      successes. */
  lemma StatusSuccessRate(parseDate: string -> Option<CalDate>)
    ensures var df := Frame(3, [CoerceColumn(StatusColumn, parseDate)]);
      SuccessRateAsWritten(df, ["status"]).None? && SuccessRate(df, ["status"]) == Some(0.5)
  {
    StatusColumnCoerced(parseDate);
    CoercedStatusRates();
  }

  // ---------------------------------------------------------------------
  // top_geo
  // ---------------------------------------------------------------------

  function CountKey(e: (Cell, nat)): real {
    e.1 as real
  }

  /** `value_counts(dropna=False).head(10)` of a column: at most ten
      distinct values with their counts, most frequent first; a value left
      out is only left out when ten values are kept, none of them less
      frequent than it. */
  function TopValues(col: Column): (r: seq<(Cell, nat)>)
    ensures |r| <= 10
    ensures SortedDesc(r, CountKey)
    ensures NoDup(KeysOf(r))
    ensures forall i :: 0 <= i < |r| ==> r[i].0 in col.cells && r[i].1 == Count(col.cells, r[i].0)
    ensures forall c :: c in col.cells && c !in KeysOf(r) ==>
      |r| == 10 && forall i :: 0 <= i < |r| ==> Count(col.cells, c) <= r[i].1
  {
    var t := Tally(col.cells);
    var sorted := SortDesc(t, CountKey);
    var r := Take(sorted, 10);
    TallyEntries(col.cells);
    SortDescNoDupKeys(t, CountKey);
    TopOfSorted(col.cells, sorted, r);
    r
  }

  /** Every entry of the tally of `cells` is a value of `cells` with its
      count, and every value of `cells` has an entry. */
  lemma TallyEntries(cells: seq<Cell>)
    ensures forall e :: e in Tally(cells) ==> e.0 in cells && e.1 == Count(cells, e.0)
    ensures forall c :: c in cells ==> exists e :: e in Tally(cells) && e.0 == c
  {
    var t := Tally(cells);
    forall e | e in t ensures e.0 in cells && e.1 == Count(cells, e.0) {
      var i :| 0 <= i < |t| && t[i] == e;
      assert KeysOf(t)[i] == e.0;
    }
    forall c | c in cells ensures exists e :: e in t && e.0 == c {
      assert c in KeysOf(t);
      var i :| 0 <= i < |t| && KeysOf(t)[i] == c;
      assert t[i] in t;
    }
  }

  /** The first ten entries of the sorted tally are the most frequent
      values, and no entry is dropped when fewer than ten exist. */
  lemma TopOfSorted(cells: seq<Cell>, sorted: seq<(Cell, nat)>, r: seq<(Cell, nat)>)
    requires SortedDesc(sorted, CountKey) && NoDup(KeysOf(sorted))
    requires forall e :: e in sorted ==> e.0 in cells && e.1 == Count(cells, e.0)
    requires forall c :: c in cells ==> exists e :: e in sorted && e.0 == c
    requires r == Take(sorted, 10)
    ensures NoDup(KeysOf(r))
    ensures forall i :: 0 <= i < |r| ==> r[i].0 in cells && r[i].1 == Count(cells, r[i].0)
    ensures forall c :: c in cells && c !in KeysOf(r) ==>
      |r| == 10 && forall i :: 0 <= i < |r| ==> Count(cells, c) <= r[i].1
  {
    var ks := KeysOf(sorted);
    var kr := KeysOf(r);
    assert forall i :: 0 <= i < |r| ==> r[i] == sorted[i] && kr[i] == ks[i];
    forall i | 0 <= i < |r| ensures r[i].0 in cells && r[i].1 == Count(cells, r[i].0) {
      assert sorted[i] in sorted;
    }
    forall c | c in cells && c !in kr
      ensures |r| == 10 && forall i :: 0 <= i < |r| ==> Count(cells, c) <= r[i].1
    {
      var e :| e in sorted && e.0 == c;
      var j :| 0 <= j < |sorted| && sorted[j] == e;
      assert |r| <= j;
      forall i | 0 <= i < |r| ensures Count(cells, c) <= r[i].1 {
        assert CountKey(sorted[i]) >= CountKey(sorted[j]);
      }
    }
  }

  function ValueCounts(df: Frame, name: string): seq<(Cell, nat)> {
    match FindColumn(df.columns, name)
    case None => []
    case Some(col) => TopValues(col)
  }

  /** The dictionary after filling it for the names of `gs` in order. */
  function TopGeoMap(df: Frame, gs: seq<string>): (m: map<string, seq<(Cell, nat)>>)
    ensures m.Keys == set g | g in gs
    ensures forall g :: g in m ==> m[g] == ValueCounts(df, g)
  {
    if gs == [] then map[]
    else
      var last := gs[|gs| - 1];
      assert gs == gs[..|gs| - 1] + [last];
      TopGeoMap(df, gs[..|gs| - 1])[last := ValueCounts(df, last)]
  }

  // ---------------------------------------------------------------------
  // compute_basic_metrics
  // ---------------------------------------------------------------------

  datatype BasicMetrics = BasicMetrics(
    rows: nat, cols: nat, numeric: nat, categorical: nat, datetime: nat,
    missingRate: real, hasLabel: bool, successRate: Option<real>,
    topGeo: map<string, seq<(Cell, nat)>>)

  /** The metrics reported for a table without rows or columns. */
  const EmptyMetrics := BasicMetrics(0, 0, 0, 0, 0, 1.0, false, None, map[])

  /** `compute_basic_metrics` as a value. */
  function BasicMetricsFor(df: Frame): (m: BasicMetrics)
    ensures IsEmpty(df) ==> m == EmptyMetrics
    ensures 0.0 <= m.missingRate <= 1.0
    ensures m.successRate.Some? ==> m.hasLabel && 0.0 <= m.successRate.value <= 1.0
    ensures !IsEmpty(df) ==> (m.hasLabel <==> IdentifyColumns(df).labels != [])
    ensures |m.topGeo.Keys| <= 2
    ensures forall g :: g in m.topGeo ==> g in IdentifyColumns(df).geo && |m.topGeo[g]| <= 10
  {
    if IsEmpty(df) then EmptyMetrics
    else
      var roles := IdentifyColumns(df);
      var top := TopGeoMap(df, Take(roles.geo, 2));
      TopGeoShape(df, roles.geo);
      BasicMetrics(df.rowCount, |df.columns|, |roles.numeric|, |roles.categorical|,
        |roles.datetime|, MissingRate(df), roles.labels != [],
        SuccessRate(df, roles.labels), top)
  }

  /** The dictionary of the first two geographic names has at most two
      keys, each one of those names with at most ten entries. */
  lemma TopGeoShape(df: Frame, geo: seq<string>)
    ensures var m := TopGeoMap(df, Take(geo, 2));
      |m.Keys| <= 2 && forall g :: g in m ==> g in geo && |m[g]| <= 10
  {
    var gs := Take(geo, 2);
    var m := TopGeoMap(df, gs);
    CardAtMost(gs);
    forall g | g in m ensures g in geo && |m[g]| <= 10 {
      var i :| 0 <= i < |gs| && gs[i] == g;
      assert geo[i] == g;
    }
  }

  lemma {:induction false} CardAtMost(s: seq<string>)
    ensures |set g | g in s| <= |s|
  {
    if s != [] {
      CardAtMost(s[1..]);
      assert (set g | g in s) == {s[0]} + (set g | g in s[1..]);
    }
  }

  /** The first two geographic candidates, and only they, have an entry in
      `top_geo`, each the top counts of its column. */
  lemma TopGeoKeys(df: Frame)
    requires !IsEmpty(df)
    ensures var m := BasicMetricsFor(df); var geo := IdentifyColumns(df).geo;
      forall g :: g in m.topGeo <==> g in Take(geo, 2)
    ensures var m := BasicMetricsFor(df);
      forall g :: g in m.topGeo ==> m.topGeo[g] == ValueCounts(df, g)
  {
  }

  /** `compute_basic_metrics`: the geographic dictionary is filled in a loop
      over the first two geographic candidates. */
  method ComputeBasicMetrics(df: Frame) returns (m: BasicMetrics)
    ensures m == BasicMetricsFor(df)
  {
    if IsEmpty(df) {
      return EmptyMetrics;
    }
    var roles := IdentifyColumns(df);
    var missing := MissingRate(df);
    var successRate: Option<real> := None;
    var hasLabel := false;
    if roles.labels != [] {
      hasLabel := true;
      successRate := SuccessRate(df, roles.labels);
    }
    assert hasLabel == (roles.labels != []) && successRate == SuccessRate(df, roles.labels);
    var gs := Take(roles.geo, 2);
    var topGeo: map<string, seq<(Cell, nat)>> := map[];
    var i := 0;
    while i < |gs|
      invariant 0 <= i <= |gs|
      invariant topGeo == TopGeoMap(df, gs[..i])
    {
      var prefix := gs[..i + 1];
      assert prefix[..i] == gs[..i] && prefix[i] == gs[i];
      topGeo := topGeo[gs[i] := ValueCounts(df, gs[i])];
      i := i + 1;
    }
    assert gs[..|gs|] == gs;
    assert topGeo == TopGeoMap(df, gs);
    m := BasicMetrics(df.rowCount, |df.columns|, |roles.numeric|, |roles.categorical|,
      |roles.datetime|, missing, hasLabel, successRate, topGeo);
  }

  // ---------------------------------------------------------------------
  // The dashboard's success-rate comparison
  // ---------------------------------------------------------------------

  predicate HasSuccessRate(entry: (string, BasicMetrics)) {
    entry.1.successRate.Some?
  }

  /** The datasets entering the success-rate chart: exactly those with a
      success rate, in order. */
  function SuccessRateRows(datasets: seq<(string, BasicMetrics)>): (r: seq<(string, BasicMetrics)>)
    ensures forall e :: e in r <==> e in datasets && e.1.successRate.Some?
  {
    Filter(datasets, HasSuccessRate)
  }
}
