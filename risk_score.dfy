/** The Citizen Exclusion Risk Score (CERS): per-district statistics of the
    integrated table, four clipped risk components, their weighted sum, the
    Low/Medium/High/Critical bucketing, the ranking and the summary. */
module RiskScore {
  import opened Wrappers
  import opened Seqs
  import opened RiskData

  datatype District = District(state: string, name: string)

  function DistrictOf(row: Row): District {
    District(row.key.state, row.key.district)
  }

  function DistrictSeq(rows: seq<Row>): (ds: seq<District>)
    ensures |ds| == |rows|
    ensures forall i :: 0 <= i < |rows| ==> ds[i] == DistrictOf(rows[i])
    ensures forall d :: d in ds <==> exists r :: r in rows && DistrictOf(r) == d
  {
    seq(|rows|, i requires 0 <= i < |rows| => DistrictOf(rows[i]))
  }

  /** The `groupby(['state', 'district'])` keys, each once. */
  function Districts(rows: seq<Row>): (ds: seq<District>)
    ensures NoDup(ds)
    ensures forall d :: d in ds <==> d in DistrictSeq(rows)
  {
    Distinct(DistrictSeq(rows))
  }

  /** The rows of one district, in order. */
  function RowsIn(rows: seq<Row>, d: District): (r: seq<Row>)
    ensures forall row :: row in r <==> row in rows && DistrictOf(row) == d
    ensures d in DistrictSeq(rows) ==> |r| > 0
  {
    if rows == [] then []
    else
      var rest := RowsIn(rows[1..], d);
      assert forall row :: row in rows <==> row == rows[0] || row in rows[1..];
      assert d in DistrictSeq(rows) ==> d == DistrictOf(rows[0]) || d in DistrictSeq(rows[1..]) by {
        if d in DistrictSeq(rows) {
          var i :| 0 <= i < |rows| && DistrictSeq(rows)[i] == d;
          if i > 0 {
            assert DistrictSeq(rows[1..])[i - 1] == d;
          }
        }
      }
      if DistrictOf(rows[0]) == d then [rows[0]] + rest else rest
  }

  // Feature columns of an engineered row. The analyzer scores only
  // engineered tables, so there the fallback of 0 is never read.

  function BioRate(r: Row): real {
    match r.features case Some(f) => f.bioCompletionRate case None => 0.0
  }

  function DemoRate(r: Row): real {
    match r.features case Some(f) => f.demoCompletionRate case None => 0.0
  }

  function BioGap(r: Row): real {
    match r.features case Some(f) => f.bioEnrolGap as real case None => 0.0
  }

  function YouthEnrol(r: Row): real {
    match r.features case Some(f) => f.youthRatioEnrol case None => 0.0
  }

  function YouthBio(r: Row): real {
    match r.features case Some(f) => f.youthRatioBio case None => 0.0
  }

  function EnrolCount(r: Row): nat {
    r.enrol.count
  }

  /** The per-district aggregates: means of the completion rates, of the
      biometric gap and of the youth ratios, the gap's standard deviation
      (`volatility`), and the summed enrolment count. */
  datatype DistrictStats = DistrictStats(
    district: District,
    avgBioCompletion: real, avgDemoCompletion: real, avgBioGap: real,
    bioGapVolatility: real, youthRatioEnrol: real, youthRatioBio: real,
    totalEnrolments: nat)

  /** The standard deviation of the biometric gap is a library statistic and
      is given per district; a district without one (a single row, where pandas
      gives NaN) has 0 after `fillna(0)`. */
  function VolatilityOf(volatility: map<District, real>, d: District): real {
    if d in volatility then volatility[d] else 0.0
  }

  predicate NonNegative(volatility: map<District, real>) {
    forall d :: d in volatility ==> volatility[d] >= 0.0
  }

  function StatsOf(rows: seq<Row>, d: District, volatility: map<District, real>): (s: DistrictStats)
    requires d in DistrictSeq(rows)
    ensures s.district == d
    ensures NonNegative(volatility) ==> s.bioGapVolatility >= 0.0
  {
    var rs := RowsIn(rows, d);
    DistrictStats(d, Mean(rs, BioRate), Mean(rs, DemoRate), Mean(rs, BioGap),
      VolatilityOf(volatility, d), Mean(rs, YouthEnrol), Mean(rs, YouthBio),
      SumByNat(rs, EnrolCount))
  }

  // ---------------------------------------------------------------------
  // Risk components
  // ---------------------------------------------------------------------

  function Clip(x: real, lo: real, hi: real): (r: real)
    requires lo <= hi
    ensures lo <= r <= hi
    ensures lo <= x <= hi ==> r == x
  {
    if x < lo then lo else if x > hi then hi else x
  }

  function Abs(x: real): (r: real)
    ensures r >= 0.0 && (r == x || r == -x)
  {
    if x < 0.0 then -x else x
  }

  /** Update-gap risk: the shortfall of the biometric completion rate,
      clipped to [0, 100], from 100. */
  function GapRisk(avgBio: real): (r: real)
    ensures 0.0 <= r <= 100.0
    ensures 0.0 <= avgBio <= 100.0 ==> r == 100.0 - avgBio
    ensures avgBio >= 100.0 ==> r == 0.0
  {
    100.0 - Clip(avgBio, 0.0, 100.0)
  }

  /** Migration risk: 500 times the gap between the enrolment and biometric
      youth ratios, clipped to [0, 100]. */
  function MigrationRisk(youthEnrol: real, youthBio: real): (r: real)
    ensures 0.0 <= r <= 100.0
    ensures Abs(youthEnrol - youthBio) <= 0.2 ==> r == 500.0 * Abs(youthEnrol - youthBio)
    ensures Abs(youthEnrol - youthBio) >= 0.2 ==> r == 100.0
  {
    Clip(Abs(youthEnrol - youthBio) * 500.0, 0.0, 100.0)
  }

  /** Volatility risk: the volatility as a percentage of the largest one, or 0
      when no district has any. */
  function VolatilityRisk(v: real, maxV: real): (r: real)
    requires 0.0 <= v <= maxV
    ensures 0.0 <= r <= 100.0
    ensures maxV == 0.0 ==> r == 0.0
    ensures maxV > 0.0 ==> r * maxV == v * 100.0
    ensures v == maxV > 0.0 ==> r == 100.0
  {
    if maxV > 0.0 then v / maxV * 100.0 else 0.0
  }

  /** Volume pressure: the percentile rank of the district's enrolments times
      the biometric shortfall, clipped to [0, 100]. */
  function VolumePressure(rank: real, avgBio: real): (r: real)
    ensures 0.0 <= r <= 100.0
  {
    Clip(rank * (100.0 - avgBio), 0.0, 100.0)
  }

  /** The weighted composite. */
  function Composite(gap: real, migration: real, volatility: real, pressure: real): real {
    gap * 0.40 + migration * 0.25 + volatility * 0.20 + pressure * 0.15
  }

  /** The weights sum to 1, so the composite is a convex combination: it lies
      between the smallest and the largest component, hence in [0, 100]. */
  lemma CompositeConvex(gap: real, migration: real, volatility: real, pressure: real, lo: real, hi: real)
    requires lo <= gap <= hi && lo <= migration <= hi && lo <= volatility <= hi && lo <= pressure <= hi
    ensures lo <= Composite(gap, migration, volatility, pressure) <= hi
    ensures Composite(lo, lo, lo, lo) == lo
  {
  }

  datatype Category = Low | Medium | High | Critical

  /** `pd.cut` with bins [0, 30, 50, 70, 100]: intervals open on the left and
      closed on the right, and no category outside (0, 100]. */
  function CategoryOf(cers: real): (c: Option<Category>)
    ensures c.None? <==> cers <= 0.0 || cers > 100.0
    ensures c == Some(Low) <==> 0.0 < cers <= 30.0
    ensures c == Some(Medium) <==> 30.0 < cers <= 50.0
    ensures c == Some(High) <==> 50.0 < cers <= 70.0
    ensures c == Some(Critical) <==> 70.0 < cers <= 100.0
  {
    if cers <= 0.0 || cers > 100.0 then None
    else if cers <= 30.0 then Some(Low)
    else if cers <= 50.0 then Some(Medium)
    else if cers <= 70.0 then Some(High)
    else Some(Critical)
  }

  function Level(c: Category): nat {
    match c
    case Low => 0
    case Medium => 1
    case High => 2
    case Critical => 3
  }

  /** A higher score never falls into a lower category. */
  lemma CategoryMonotone(a: real, b: real)
    requires 0.0 < a <= b <= 100.0
    ensures CategoryOf(a).Some? && CategoryOf(b).Some?
    ensures Level(CategoryOf(a).value) <= Level(CategoryOf(b).value)
  {
  }

  // ---------------------------------------------------------------------
  // Percentile rank of the enrolment volume
  // ---------------------------------------------------------------------

  function CountBelow(s: seq<nat>, x: nat): nat {
    if s == [] then 0 else (if s[0] < x then 1 else 0) + CountBelow(s[1..], x)
  }

  lemma {:induction false} CountsWithin(s: seq<nat>, x: nat)
    ensures CountBelow(s, x) + Count(s, x) <= |s|
    ensures x in s ==> Count(s, x) >= 1
  {
    if s != [] {
      CountsWithin(s[1..], x);
      assert x in s ==> x == s[0] || x in s[1..];
    }
  }

  lemma {:induction false} CountBelowGrows(s: seq<nat>, x: nat, y: nat)
    requires x < y
    ensures CountBelow(s, y) >= CountBelow(s, x) + Count(s, x)
  {
    if s != [] {
      CountBelowGrows(s[1..], x, y);
    }
  }

  /** `rank(pct=True)`: the average rank of `x` among `s` (ties share the
      mean of their positions) divided by the number of values. */
  function PercentRank(x: nat, s: seq<nat>): (r: real)
    requires x in s
    ensures 0.0 < r <= 1.0
  {
    CountsWithin(s, x);
    var n := |s| as real;
    var avgRank := CountBelow(s, x) as real + (Count(s, x) as real + 1.0) / 2.0;
    assert avgRank <= n;
    FractionAtMostOne(avgRank, n);
    avgRank / n
  }

  /** A strictly larger volume has a strictly larger percentile rank; the
      largest value has rank 1 when it is unique. */
  lemma PercentRankMonotone(x: nat, y: nat, s: seq<nat>)
    requires x in s && y in s && x < y
    ensures PercentRank(x, s) < PercentRank(y, s)
  {
    CountBelowGrows(s, x, y);
    CountsWithin(s, x);
    CountsWithin(s, y);
    var n := |s| as real;
    var ax := CountBelow(s, x) as real + (Count(s, x) as real + 1.0) / 2.0;
    var ay := CountBelow(s, y) as real + (Count(s, y) as real + 1.0) / 2.0;
    assert ax < ay;
    assert ax / n < ay / n;
  }

  // ---------------------------------------------------------------------
  // The scored table
  // ---------------------------------------------------------------------

  datatype DistrictRisk = DistrictRisk(
    stats: DistrictStats,
    gapRisk: real, migrationRisk: real, volatilityRisk: real,
    volumeRank: real, volumePressureRisk: real,
    cers: real, category: Option<Category>)

  function Score(s: DistrictStats, maxVol: real, totals: seq<nat>): (r: DistrictRisk)
    requires 0.0 <= s.bioGapVolatility <= maxVol
    requires s.totalEnrolments in totals
    ensures r.stats == s
    ensures WellScored(r)
    ensures s.bioGapVolatility == maxVol > 0.0 ==> r.volatilityRisk == 100.0
  {
    var gap := GapRisk(s.avgBioCompletion);
    var migration := MigrationRisk(s.youthRatioEnrol, s.youthRatioBio);
    var vol := VolatilityRisk(s.bioGapVolatility, maxVol);
    var rank := PercentRank(s.totalEnrolments, totals);
    var pressure := VolumePressure(rank, s.avgBioCompletion);
    var cers := Composite(gap, migration, vol, pressure);
    CompositeConvex(gap, migration, vol, pressure, 0.0, 100.0);
    DistrictRisk(s, gap, migration, vol, rank, pressure, cers, CategoryOf(cers))
  }

  function Volatility(s: DistrictStats): real {
    s.bioGapVolatility
  }

  /** The largest volatility, 0 for no districts. */
  function MaxVolatility(stats: seq<DistrictStats>): (m: real)
    requires forall i :: 0 <= i < |stats| ==> stats[i].bioGapVolatility >= 0.0
    ensures m >= 0.0
    ensures forall i :: 0 <= i < |stats| ==> stats[i].bioGapVolatility <= m
    ensures stats != [] ==> exists i :: 0 <= i < |stats| && stats[i].bioGapVolatility == m
  {
    if stats == [] then 0.0
    else
      var rest := MaxVolatility(stats[1..]);
      if stats[0].bioGapVolatility >= rest then stats[0].bioGapVolatility
      else
        assert stats[1..] != [];
        var i :| 0 <= i < |stats[1..]| && stats[1..][i].bioGapVolatility == rest;
        assert stats[i + 1].bioGapVolatility == rest;
        rest
  }

  function Totals(stats: seq<DistrictStats>): (t: seq<nat>)
    ensures |t| == |stats|
    ensures forall i :: 0 <= i < |stats| ==> t[i] == stats[i].totalEnrolments
    ensures forall n :: n in t <==> exists st :: st in stats && st.totalEnrolments == n
  {
    seq(|stats|, i requires 0 <= i < |stats| => stats[i].totalEnrolments)
  }

  function AllStats(rows: seq<Row>, volatility: map<District, real>): (s: seq<DistrictStats>)
    requires NonNegative(volatility)
    ensures |s| == |Districts(rows)|
    ensures forall i :: 0 <= i < |s| ==> s[i] == StatsOf(rows, Districts(rows)[i], volatility)
    ensures forall i :: 0 <= i < |s| ==> s[i].bioGapVolatility >= 0.0
  {
    var ds := Districts(rows);
    seq(|ds|, i requires 0 <= i < |ds| => StatsOf(rows, ds[i], volatility))
  }

  function Unsorted(rows: seq<Row>, volatility: map<District, real>): (r: seq<DistrictRisk>)
    requires NonNegative(volatility)
    ensures |r| == |Districts(rows)|
    ensures forall i :: 0 <= i < |r| ==> r[i].stats == AllStats(rows, volatility)[i]
  {
    var stats := AllStats(rows, volatility);
    var maxVol := MaxVolatility(stats);
    var totals := Totals(stats);
    seq(|stats|, i requires 0 <= i < |stats| => Score(stats[i], maxVol, totals))
  }

  function CersOf(r: DistrictRisk): real {
    r.cers
  }

  /** `calculate_exclusion_risk_score`: the scored districts, highest CERS
      first. */
  function RiskTable(rows: seq<Row>, volatility: map<District, real>): (t: seq<DistrictRisk>)
    requires NonNegative(volatility)
    ensures SortedDesc(t, CersOf)
  {
    SortDesc(Unsorted(rows, volatility), CersOf)
  }

  predicate WellScored(r: DistrictRisk) {
    0.0 <= r.gapRisk <= 100.0 && 0.0 <= r.migrationRisk <= 100.0
    && 0.0 <= r.volatilityRisk <= 100.0 && 0.0 < r.volumeRank <= 1.0
    && 0.0 <= r.volumePressureRisk <= 100.0
    && r.cers == Composite(r.gapRisk, r.migrationRisk, r.volatilityRisk, r.volumePressureRisk)
    && 0.0 <= r.cers <= 100.0
    && r.category == CategoryOf(r.cers)
  }

  function DistrictOfRisk(r: DistrictRisk): District {
    r.stats.district
  }

  /** The entries before sorting, position by position. */
  lemma UnsortedSpec(rows: seq<Row>, volatility: map<District, real>)
    requires NonNegative(volatility)
    ensures var u := Unsorted(rows, volatility);
      var m := MaxVolatility(AllStats(rows, volatility));
      forall i :: 0 <= i < |u| ==>
        WellScored(u[i]) && u[i].stats == StatsOf(rows, Districts(rows)[i], volatility)
        && u[i].stats.bioGapVolatility <= m
        && (u[i].stats.bioGapVolatility == m > 0.0 ==> u[i].volatilityRisk == 100.0)
    ensures var u := Unsorted(rows, volatility);
      var m := MaxVolatility(AllStats(rows, volatility));
      u != [] ==> exists i :: 0 <= i < |u| && u[i].stats.bioGapVolatility == m
  {
    var u := Unsorted(rows, volatility);
    var stats := AllStats(rows, volatility);
    var m := MaxVolatility(stats);
    forall i | 0 <= i < |u|
      ensures WellScored(u[i])
      ensures u[i].stats.bioGapVolatility == m > 0.0 ==> u[i].volatilityRisk == 100.0
    {
      assert u[i] == Score(stats[i], m, Totals(stats));
    }
  }

  /** Every entry is well scored (components in [0, 100], volume rank in
      (0, 1], CERS their weighted sum in [0, 100], category the bucket of the
      CERS) and carries its own district's statistics. */
  lemma RiskTableEntries(rows: seq<Row>, volatility: map<District, real>)
    requires NonNegative(volatility)
    ensures forall r :: r in RiskTable(rows, volatility) ==>
      WellScored(r) && DistrictOfRisk(r) in DistrictSeq(rows)
      && r.stats == StatsOf(rows, DistrictOfRisk(r), volatility)
  {
    var u := Unsorted(rows, volatility);
    var ds := Districts(rows);
    UnsortedSpec(rows, volatility);
    forall r | r in RiskTable(rows, volatility)
      ensures WellScored(r) && DistrictOfRisk(r) in DistrictSeq(rows)
      ensures r.stats == StatsOf(rows, DistrictOfRisk(r), volatility)
    {
      var i :| 0 <= i < |u| && u[i] == r;
      assert ds[i] in ds;
    }
  }

  /** A district appears in the table exactly when it appears in the
      integrated table. */
  lemma RiskTableDistricts(rows: seq<Row>, volatility: map<District, real>, d: District)
    requires NonNegative(volatility)
    ensures (exists r :: r in RiskTable(rows, volatility) && DistrictOfRisk(r) == d)
      <==> d in DistrictSeq(rows)
  {
    var u := Unsorted(rows, volatility);
    var ds := Districts(rows);
    UnsortedSpec(rows, volatility);
    if d in DistrictSeq(rows) {
      var i :| 0 <= i < |ds| && ds[i] == d;
      assert u[i] in RiskTable(rows, volatility) && DistrictOfRisk(u[i]) == d;
    }
    RiskTableEntries(rows, volatility);
  }

  /** The table holds one entry per district of the data: as many entries
      as districts, and no district twice. */
  lemma {:induction false} RiskTableOnePerDistrict(rows: seq<Row>, volatility: map<District, real>)
    requires NonNegative(volatility)
    ensures |RiskTable(rows, volatility)| == |Districts(rows)|
    ensures var t := RiskTable(rows, volatility);
      forall i, j :: 0 <= i < j < |t| ==> DistrictOfRisk(t[i]) != DistrictOfRisk(t[j])
  {
    var u := Unsorted(rows, volatility);
    var t := RiskTable(rows, volatility);
    var ds := Districts(rows);
    var stats := AllStats(rows, volatility);
    assert forall p :: 0 <= p < |u| ==> DistrictOfRisk(u[p]) == ds[p] by {
      forall p | 0 <= p < |u| ensures DistrictOfRisk(u[p]) == ds[p] {
        assert u[p].stats == stats[p] == StatsOf(rows, ds[p], volatility);
      }
    }
    assert NoDup(u) by {
      forall p, q | 0 <= p < q < |u| ensures u[p] != u[q] {
        assert DistrictOfRisk(u[p]) == ds[p] != ds[q] == DistrictOfRisk(u[q]);
      }
    }
    PermutationNoDup(u, t);
    forall i, j | 0 <= i < j < |t| ensures DistrictOfRisk(t[i]) != DistrictOfRisk(t[j]) {
      assert t[i] in u && t[j] in u;
      var p :| 0 <= p < |u| && u[p] == t[i];
      var q :| 0 <= q < |u| && u[q] == t[j];
      assert p != q;
    }
  }

  /** The district(s) with the largest volatility, when it is positive, get
      volatility risk 100. */
  lemma RiskTableMostVolatile(rows: seq<Row>, volatility: map<District, real>, r: DistrictRisk)
    requires NonNegative(volatility)
    requires r in RiskTable(rows, volatility) && r.stats.bioGapVolatility > 0.0
    requires forall r' :: r' in RiskTable(rows, volatility) ==>
      r'.stats.bioGapVolatility <= r.stats.bioGapVolatility
    ensures r.volatilityRisk == 100.0
  {
    var u := Unsorted(rows, volatility);
    var m := MaxVolatility(AllStats(rows, volatility));
    assert r in u;
    var x := UnsortedTopVolatility(rows, volatility);
    assert x in RiskTable(rows, volatility);
  }

  /** Before sorting, no entry exceeds the largest volatility, an entry at a
      positive maximum scores 100, and some entry reaches the maximum. */
  lemma UnsortedTopVolatility(rows: seq<Row>, volatility: map<District, real>) returns (x: DistrictRisk)
    requires NonNegative(volatility) && Unsorted(rows, volatility) != []
    ensures var u := Unsorted(rows, volatility);
      var m := MaxVolatility(AllStats(rows, volatility));
      (forall y :: y in u ==>
         y.stats.bioGapVolatility <= m
         && (y.stats.bioGapVolatility == m > 0.0 ==> y.volatilityRisk == 100.0))
      && x in u && x.stats.bioGapVolatility == m
  {
    var u := Unsorted(rows, volatility);
    UnsortedSpec(rows, volatility);
    var j :| 0 <= j < |u| && u[j].stats.bioGapVolatility == MaxVolatility(AllStats(rows, volatility));
    x := u[j];
  }

  // ---------------------------------------------------------------------
  // Summary
  // ---------------------------------------------------------------------

  datatype RiskSummary = RiskSummary(
    totalDistricts: nat,
    criticalRiskDistricts: nat, highRiskDistricts: nat,
    mediumRiskDistricts: nat, lowRiskDistricts: nat,
    avgCers: Option<real>,
    top10: seq<DistrictRisk>)

  function CountCategory(t: seq<DistrictRisk>, c: Category): (n: nat)
    ensures n <= |t|
  {
    if t == [] then 0 else (if t[0].category == Some(c) then 1 else 0) + CountCategory(t[1..], c)
  }

  function CountUncategorised(t: seq<DistrictRisk>): nat {
    if t == [] then 0 else (if t[0].category.None? then 1 else 0) + CountUncategorised(t[1..])
  }

  /** Every district is counted in at most one category: the four counts and
      the uncategorised ones add up to the number of districts. */
  lemma {:induction false} CategoryCountsPartition(t: seq<DistrictRisk>)
    ensures CountCategory(t, Critical) + CountCategory(t, High) + CountCategory(t, Medium)
      + CountCategory(t, Low) + CountUncategorised(t) == |t|
  {
    if t != [] {
      CategoryCountsPartition(t[1..]);
      match t[0].category {
        case None =>
        case Some(c) =>
          match c {
            case Critical =>
            case High =>
            case Medium =>
            case Low =>
          }
      }
    }
  }

  /** `risk_summary`; the average is absent (NaN) for no districts. */
  function Summarize(t: seq<DistrictRisk>): (s: RiskSummary)
    ensures s.criticalRiskDistricts + s.highRiskDistricts + s.mediumRiskDistricts
      + s.lowRiskDistricts <= s.totalDistricts == |t|
    ensures |s.top10| == if |t| < 10 then |t| else 10
    ensures s.top10 <= t
    ensures s.avgCers.None? <==> t == []
  {
    CategoryCountsPartition(t);
    var avg := if t == [] then None else Some(Mean(t, CersOf));
    RiskSummary(|t|, CountCategory(t, Critical), CountCategory(t, High),
      CountCategory(t, Medium), CountCategory(t, Low), avg, Take(t, 10))
  }

  /** On a scored table the average CERS lies in [0, 100]. */
  lemma SummaryAverageBounds(t: seq<DistrictRisk>)
    requires forall r :: r in t ==> WellScored(r)
    ensures Summarize(t).avgCers.Some? ==> 0.0 <= Summarize(t).avgCers.value <= 100.0
  {
    if t != [] {
      MeanBounds(t, CersOf, 0.0, 100.0);
    }
  }
}
