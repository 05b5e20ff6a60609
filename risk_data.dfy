/** The integrated district-date table of the strategic analysis: the three
    record tables (enrolment, demographic update, biometric update) summed per
    (date, state, district), outer-joined with zero fill, and extended with the
    derived gap, ratio and calendar features. */
module RiskData {
  import opened Wrappers
  import opened Seqs
  import opened Calendar

  datatype Key = Key(date: CalDate, state: string, district: string)

  /** One CSV row: its grouping key (absent when the date is missing or
      unparsed, or the state or district is missing, which drops the row from
      every group), its age-band counts in column order (a missing count is
      absent), and its pincode. */
  datatype Record = Record(key: Option<Key>, bands: seq<Option<nat>>, pincode: Option<string>)

  /** Age-band columns per table: enrolment has age_0_5, age_5_17 and
      age_18_greater; the demographic table demo_age_5_17 and demo_age_17_;
      the biometric table bio_age_5_17 and bio_age_17_. */
  const EnrolBands: nat := 3
  const UpdateBands: nat := 2

  /** The per-key aggregate: one sum per age band, and the number of rows with
      a pincode (`count` skips missing values). */
  datatype Agg = Agg(sums: seq<nat>, count: nat)

  function ZeroAgg(width: nat): (a: Agg)
    ensures |a.sums| == width && a.count == 0
    ensures forall b :: 0 <= b < width ==> a.sums[b] == 0
  {
    Agg(seq(width, b => 0), 0)
  }

  /** A record's value in band `b`; a missing cell adds nothing to a sum. */
  function BandValue(r: Record, b: nat): nat {
    if b < |r.bands| then r.bands[b].GetOr(0) else 0
  }

  function HasPincode(r: Record): nat {
    if r.pincode.Some? then 1 else 0
  }

  /** The records whose key is `k`, in order. */
  function Matching(rs: seq<Record>, k: Key): (m: seq<Record>)
    ensures |m| <= |rs|
    ensures forall r :: r in m <==> r in rs && r.key == Some(k)
    decreases |rs|
  {
    if rs == [] then []
    else
      var m := Matching(rs[..|rs| - 1], k);
      var last := rs[|rs| - 1];
      assert forall r :: r in rs <==> r in rs[..|rs| - 1] || r == last;
      if last.key == Some(k) then m + [last] else m
  }

  /** Sum of band `b` over the records. */
  function BandTotal(rs: seq<Record>, b: nat): nat
    decreases |rs|
  {
    if rs == [] then 0 else BandTotal(rs[..|rs| - 1], b) + BandValue(rs[|rs| - 1], b)
  }

  /** Number of records with a pincode. */
  function PincodeCount(rs: seq<Record>): (n: nat)
    ensures n <= |rs|
    decreases |rs|
  {
    if rs == [] then 0 else PincodeCount(rs[..|rs| - 1]) + HasPincode(rs[|rs| - 1])
  }

  function AddRecord(a: Agg, r: Record): (c: Agg)
    ensures |c.sums| == |a.sums|
  {
    Agg(seq(|a.sums|, b requires 0 <= b < |a.sums| => a.sums[b] + BandValue(r, b)),
      a.count + HasPincode(r))
  }

  /** The grouped table: its keys in order of first appearance, and the
      aggregate of each key. */
  datatype Grouped = Grouped(keys: seq<Key>, groups: map<Key, Agg>)

  predicate GroupedValid(g: Grouped, width: nat) {
    NoDup(g.keys)
    && (forall k :: k in g.keys ==> k in g.groups)
    && (forall k :: k in g.groups ==> k in g.keys)
    && (forall k :: k in g.groups ==> |g.groups[k].sums| == width)
  }

  function PresentKeys(rs: seq<Record>): (ks: seq<Key>)
    ensures forall k :: k in ks <==> exists r :: r in rs && r.key == Some(k)
    decreases |rs|
  {
    if rs == [] then []
    else
      var ks := PresentKeys(rs[..|rs| - 1]);
      var last := rs[|rs| - 1];
      assert forall r :: r in rs <==> r in rs[..|rs| - 1] || r == last;
      match last.key
      case Some(k) => ks + [k]
      case None => ks
  }

  /** The aggregates, folding the records in one at a time. */
  function AggregateMap(rs: seq<Record>, width: nat): (m: map<Key, Agg>)
    ensures forall k :: k in m ==> |m[k].sums| == width
    decreases |rs|
  {
    if rs == [] then map[]
    else
      var m := AggregateMap(rs[..|rs| - 1], width);
      var last := rs[|rs| - 1];
      match last.key
      case Some(k) => m[k := AddRecord(if k in m then m[k] else ZeroAgg(width), last)]
      case None => m
  }

  /** `groupby(['date','state','district']).agg(sum of the bands, count of
      the pincode)`. */
  function GroupBy(rs: seq<Record>, width: nat): (g: Grouped)
    ensures GroupedValid(g, width)
  {
    AggregateMapSpec(rs, width);
    Grouped(Distinct(PresentKeys(rs)), AggregateMap(rs, width))
  }

  /** No record carries the key, so none matches it. */
  lemma {:induction false} NoMatching(rs: seq<Record>, k: Key)
    requires forall r :: r in rs ==> r.key != Some(k)
    ensures Matching(rs, k) == []
    decreases |rs|
  {
    if rs != [] {
      var init := rs[..|rs| - 1];
      assert forall r :: r in init ==> r in rs;
      assert rs[|rs| - 1] in rs;
      NoMatching(init, k);
    }
  }

  /** A key has a group exactly when some record carries it. */
  lemma {:induction false} AggregateMapKeys(rs: seq<Record>, width: nat, k: Key)
    ensures k in AggregateMap(rs, width) <==> exists r :: r in rs && r.key == Some(k)
    decreases |rs|
  {
    if rs != [] {
      var init := rs[..|rs| - 1];
      var last := rs[|rs| - 1];
      AggregateMapKeys(init, width, k);
      assert forall r :: r in rs <==> r in init || r == last;
    }
  }

  /** `a` aggregates the records `ms`: one sum per band over them, and the
      number of them with a pincode. */
  predicate AggregatesOf(a: Agg, ms: seq<Record>, width: nat) {
    |a.sums| == width
    && a.count == PincodeCount(ms)
    && forall b :: 0 <= b < width ==> a.sums[b] == BandTotal(ms, b)
  }

  /** Adding one record to the aggregate of `ms` gives the aggregate of
      `ms + [r]`. */
  lemma AddRecordAggregates(a: Agg, ms: seq<Record>, r: Record, width: nat)
    requires AggregatesOf(a, ms, width)
    ensures AggregatesOf(AddRecord(a, r), ms + [r], width)
  {
    var ms' := ms + [r];
    assert ms'[..|ms'| - 1] == ms;
  }

  /** The group of a key is the aggregate of the key's records: each band
      sum is the sum of that band over them, and the count is the number of
      them with a pincode. */
  lemma {:induction false} AggregateMapGroup(rs: seq<Record>, width: nat, k: Key)
    ensures k in AggregateMap(rs, width) ==>
      AggregatesOf(AggregateMap(rs, width)[k], Matching(rs, k), width)
    decreases |rs|
  {
    if rs != [] {
      var init := rs[..|rs| - 1];
      var last := rs[|rs| - 1];
      AggregateMapGroup(init, width, k);
      var m := AggregateMap(init, width);
      if last.key == Some(k) {
        assert Matching(rs, k) == Matching(init, k) + [last];
        var prev := if k in m then m[k] else ZeroAgg(width);
        if k !in m {
          AggregateMapKeys(init, width, k);
          NoMatching(init, k);
        }
        assert AggregatesOf(prev, Matching(init, k), width);
        AddRecordAggregates(prev, Matching(init, k), last, width);
        assert AggregateMap(rs, width)[k] == AddRecord(prev, last);
      } else {
        assert Matching(rs, k) == Matching(init, k);
      }
    }
  }

  /** The fold agrees with the per-key definition, for every key. */
  lemma AggregateMapSpec(rs: seq<Record>, width: nat)
    ensures forall k :: k in AggregateMap(rs, width) <==> exists r :: r in rs && r.key == Some(k)
    ensures forall k :: k in AggregateMap(rs, width) ==>
      var a := AggregateMap(rs, width)[k];
      |a.sums| == width
      && a.count == PincodeCount(Matching(rs, k))
      && forall b :: 0 <= b < width ==> a.sums[b] == BandTotal(Matching(rs, k), b)
  {
    forall k ensures k in AggregateMap(rs, width) <==> exists r :: r in rs && r.key == Some(k) {
      AggregateMapKeys(rs, width, k);
    }
    forall k | k in AggregateMap(rs, width)
      ensures var a := AggregateMap(rs, width)[k];
        |a.sums| == width
        && a.count == PincodeCount(Matching(rs, k))
        && forall b :: 0 <= b < width ==> a.sums[b] == BandTotal(Matching(rs, k), b)
    {
      AggregateMapGroup(rs, width, k);
    }
  }

  lemma GroupByExact(rs: seq<Record>, width: nat)
    ensures var g := GroupBy(rs, width);
      forall k :: k in g.groups <==> exists r :: r in rs && r.key == Some(k)
    ensures var g := GroupBy(rs, width);
      forall k :: k in g.groups ==>
        g.groups[k].count == PincodeCount(Matching(rs, k))
        && forall b :: 0 <= b < width ==> g.groups[k].sums[b] == BandTotal(Matching(rs, k), b)
  {
    AggregateMapSpec(rs, width);
  }

  // ---------------------------------------------------------------------
  // Outer join with zero fill
  // ---------------------------------------------------------------------

  /** One row of the integrated table; `features` is filled in by feature
      engineering. */
  datatype Row = Row(key: Key, enrol: Agg, demo: Agg, bio: Agg, features: Option<Features>)

  /** The aggregate of `k` in `g`, or all zeros when `g` lacks the key (the
      zero fill after the outer merge). */
  function Lookup(g: Grouped, k: Key, width: nat): (a: Agg)
    requires GroupedValid(g, width)
    ensures |a.sums| == width
    ensures k !in g.groups ==> a == ZeroAgg(width)
  {
    if k in g.groups then g.groups[k] else ZeroAgg(width)
  }

  function JoinKeys(e: Grouped, d: Grouped, b: Grouped): seq<Key> {
    Distinct(e.keys + d.keys + b.keys)
  }

  /** The two outer merges on (date, state, district) followed by
      `fillna(0)`. */
  function Join(e: Grouped, d: Grouped, b: Grouped): (rows: seq<Row>)
    requires GroupedValid(e, EnrolBands) && GroupedValid(d, UpdateBands) && GroupedValid(b, UpdateBands)
    ensures |rows| == |JoinKeys(e, d, b)|
  {
    var keys := JoinKeys(e, d, b);
    seq(|keys|, i requires 0 <= i < |keys| =>
      Row(keys[i], Lookup(e, keys[i], EnrolBands), Lookup(d, keys[i], UpdateBands),
        Lookup(b, keys[i], UpdateBands), None))
  }

  function RowKeys(rows: seq<Row>): (ks: seq<Key>)
    ensures |ks| == |rows|
    ensures forall i :: 0 <= i < |rows| ==> ks[i] == rows[i].key
  {
    seq(|rows|, i requires 0 <= i < |rows| => rows[i].key)
  }

  /** The joined table has one row per key, its keys are exactly the union of
      the three aggregates' keys, and a table lacking a key contributes zeros
      to that row. */
  lemma JoinSpec(e: Grouped, d: Grouped, b: Grouped)
    requires GroupedValid(e, EnrolBands) && GroupedValid(d, UpdateBands) && GroupedValid(b, UpdateBands)
    ensures NoDup(RowKeys(Join(e, d, b)))
    ensures forall k :: k in RowKeys(Join(e, d, b)) <==> k in e.groups || k in d.groups || k in b.groups
    ensures forall row :: row in Join(e, d, b) ==>
      (row.key in e.groups ==> row.enrol == e.groups[row.key])
      && (row.key !in e.groups ==> row.enrol == ZeroAgg(EnrolBands))
      && (row.key in d.groups ==> row.demo == d.groups[row.key])
      && (row.key !in d.groups ==> row.demo == ZeroAgg(UpdateBands))
      && (row.key in b.groups ==> row.bio == b.groups[row.key])
      && (row.key !in b.groups ==> row.bio == ZeroAgg(UpdateBands))
  {
    var rows := Join(e, d, b);
    assert RowKeys(rows) == JoinKeys(e, d, b);
  }

  // ---------------------------------------------------------------------
  // Derived features
  // ---------------------------------------------------------------------

  datatype Features = Features(
    totalEnrol: nat, totalDemo: nat, totalBio: nat,
    demoEnrolGap: int, bioEnrolGap: int, bioDemoGap: int,
    demoCompletionRate: real, bioCompletionRate: real,
    youthRatioEnrol: real, youthRatioDemo: real, youthRatioBio: real,
    month: int, quarter: int, dayOfWeek: int,
    isQuarterEnd: nat, isHarvestSeason: nat, isFestivalSeason: nat)

  function SumAll(s: seq<nat>): nat {
    if s == [] then 0 else s[0] + SumAll(s[1..])
  }

  /** A count as a percentage of the enrolment count, 100 when there were no
      enrolment rows. */
  function CompletionRate(count: nat, enrolCount: nat): (r: real)
    ensures r >= 0.0
    ensures enrolCount == 0 ==> r == 100.0
    ensures enrolCount > 0 ==> r * enrolCount as real == 100.0 * count as real
    ensures enrolCount > 0 && count <= enrolCount ==> r <= 100.0
  {
    if enrolCount > 0 then count as real / enrolCount as real * 100.0 else 100.0
  }

  /** The share of a part in a total, 0 for an empty total. */
  function Ratio(part: nat, total: nat): (r: real)
    ensures total == 0 ==> r == 0.0
    ensures total > 0 ==> r * total as real == part as real
    ensures part <= total ==> 0.0 <= r <= 1.0
  {
    if total > 0 then part as real / total as real else 0.0
  }

  function Flag(b: bool): nat {
    if b then 1 else 0
  }

  predicate RowShaped(row: Row) {
    |row.enrol.sums| == EnrolBands && |row.demo.sums| == UpdateBands && |row.bio.sums| == UpdateBands
  }

  /** `_engineer_features` for one row. */
  function FeaturesOf(row: Row): (f: Features)
    requires RowShaped(row)
  {
    Derive(row.key, row.enrol, row.demo, row.bio)
  }

  /** The features of a row, from the fields they depend on. */
  function Derive(key: Key, enrol: Agg, demo: Agg, bio: Agg): (f: Features)
    requires |enrol.sums| == EnrolBands && |demo.sums| == UpdateBands && |bio.sums| == UpdateBands
    ensures 1 <= f.quarter <= 4 && 0 <= f.dayOfWeek < 7
    ensures f.isQuarterEnd <= 1 && f.isHarvestSeason <= 1 && f.isFestivalSeason <= 1
  {
    var totalEnrol := SumAll(enrol.sums);
    var totalDemo := SumAll(demo.sums);
    var totalBio := SumAll(bio.sums);
    var e, d, b := enrol.count, demo.count, bio.count;
    var m := key.date.month;
    Features(totalEnrol, totalDemo, totalBio,
      e - d, e - b, d - b,
      CompletionRate(d, e), CompletionRate(b, e),
      Ratio(enrol.sums[1], totalEnrol), Ratio(demo.sums[0], totalDemo), Ratio(bio.sums[0], totalBio),
      m, Quarter(m), DayOfWeek(key.date),
      Flag(IsQuarterEnd(m)), Flag(IsHarvestSeason(m)), Flag(IsFestivalSeason(m)))
  }

  lemma SumAllParts(s: seq<nat>)
    ensures |s| == 2 ==> SumAll(s) == s[0] + s[1]
    ensures |s| == 3 ==> SumAll(s) == s[0] + s[1] + s[2]
  {
    if |s| == 2 {
      assert s[1..][1..] == [];
    }
    if |s| == 3 {
      assert s[1..][1..][1..] == [];
    }
  }

  /** The feature columns: each total is the sum of its age bands; the gaps
      are differences of the row counts; the completion rates are percentages
      of the enrolment count with the 100 default; the youth ratios are 0 on an
      empty total and lie in [0, 1]; the calendar fields and flags follow the
      row's date, each flag 1 exactly on its months. */
  lemma FeaturesSpec(row: Row)
    requires RowShaped(row)
    ensures var f := FeaturesOf(row);
      f.totalEnrol == row.enrol.sums[0] + row.enrol.sums[1] + row.enrol.sums[2]
      && f.totalDemo == row.demo.sums[0] + row.demo.sums[1]
      && f.totalBio == row.bio.sums[0] + row.bio.sums[1]
    ensures var f := FeaturesOf(row);
      f.bioEnrolGap == row.enrol.count - row.bio.count
      && f.demoEnrolGap == row.enrol.count - row.demo.count
      && f.bioDemoGap == f.bioEnrolGap - f.demoEnrolGap
    ensures var f := FeaturesOf(row);
      (row.enrol.count == 0 ==> f.bioCompletionRate == 100.0 && f.demoCompletionRate == 100.0)
      && f.bioCompletionRate >= 0.0 && f.demoCompletionRate >= 0.0
    ensures var f := FeaturesOf(row);
      0.0 <= f.youthRatioEnrol <= 1.0 && 0.0 <= f.youthRatioDemo <= 1.0 && 0.0 <= f.youthRatioBio <= 1.0
      && (f.totalEnrol == 0 ==> f.youthRatioEnrol == 0.0)
      && (f.totalDemo == 0 ==> f.youthRatioDemo == 0.0)
      && (f.totalBio == 0 ==> f.youthRatioBio == 0.0)
    ensures var f := FeaturesOf(row);
      1 <= f.month <= 12 && 1 <= f.quarter <= 4 && 0 <= f.dayOfWeek < 7
      && (f.isQuarterEnd == 1 <==> f.month in {3, 6, 9, 12})
      && (f.isHarvestSeason == 1 <==> f.month in {4, 5, 10, 11})
      && (f.isFestivalSeason == 1 <==> f.month in {3, 4, 10, 11})
      && f.isQuarterEnd <= 1 && f.isHarvestSeason <= 1 && f.isFestivalSeason <= 1
  {
    SumAllParts(row.enrol.sums);
    SumAllParts(row.demo.sums);
    SumAllParts(row.bio.sums);
  }


  /** Every row has its features. */
  predicate Engineered(rows: seq<Row>) {
    forall i :: 0 <= i < |rows| ==> RowShaped(rows[i]) && rows[i].features == Some(FeaturesOf(rows[i]))
  }

  /** The table after `_engineer_features`: each row gains its features and
      keeps its key and aggregates. */
  function WithFeatures(rows: seq<Row>): (r: seq<Row>)
    requires forall i :: 0 <= i < |rows| ==> RowShaped(rows[i])
    ensures |r| == |rows|
    ensures Engineered(r)
    ensures forall i :: 0 <= i < |rows| ==>
      r[i].key == rows[i].key && r[i].enrol == rows[i].enrol
      && r[i].demo == rows[i].demo && r[i].bio == rows[i].bio
  {
    var r := seq(|rows|, i requires 0 <= i < |rows| => WithFeature(rows[i]));
    assert forall i :: 0 <= i < |rows| ==> r[i] == WithFeature(rows[i]);
    r
  }

  function WithFeature(row: Row): (r: Row)
    requires RowShaped(row)
    ensures RowShaped(r) && r.features == Some(FeaturesOf(r))
    ensures r.key == row.key && r.enrol == row.enrol && r.demo == row.demo && r.bio == row.bio
  {
    Row(row.key, row.enrol, row.demo, row.bio, Some(FeaturesOf(row)))
  }

  lemma JoinShaped(e: Grouped, d: Grouped, b: Grouped)
    requires GroupedValid(e, EnrolBands) && GroupedValid(d, UpdateBands) && GroupedValid(b, UpdateBands)
    ensures forall i :: 0 <= i < |Join(e, d, b)| ==> RowShaped(Join(e, d, b)[i])
  {
  }
}
