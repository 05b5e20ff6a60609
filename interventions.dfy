/** The intervention framework built on the scored districts (mobile vans for
    the Critical and High districts, refresh alerts for recent low-completion
    districts, capacity building for volatile districts) and the economic
    estimate derived from it. */
module Interventions {
  import opened Wrappers
  import opened Seqs
  import opened Calendar
  import opened RiskData
  import opened RiskScore

  // ---------------------------------------------------------------------
  // Mobile van optimizer
  // ---------------------------------------------------------------------

  predicate IsCritical(r: DistrictRisk) {
    r.category == Some(Critical)
  }

  predicate IsHigh(r: DistrictRisk) {
    r.category == Some(High)
  }

  /** The Critical districts followed by the High ones, each group in table
      order. */
  function PriorityDistricts(t: seq<DistrictRisk>): (p: seq<DistrictRisk>)
    ensures forall r :: r in p <==> r in t && (IsCritical(r) || IsHigh(r))
  {
    Filter(t, IsCritical) + Filter(t, IsHigh)
  }

  lemma {:induction false} FilterCategoryCount(t: seq<DistrictRisk>, c: Category)
    ensures |Filter(t, (r: DistrictRisk) => r.category == Some(c))| == CountCategory(t, c)
  {
    if t != [] {
      FilterCategoryCount(t[1..], c);
    }
  }

  /** The number of districts to cover is the number of Critical districts
      plus the number of High ones, as counted in the risk summary. */
  lemma PriorityCount(t: seq<DistrictRisk>)
    ensures |PriorityDistricts(t)| == CountCategory(t, Critical) + CountCategory(t, High)
  {
    FilterCategoryCount(t, Critical);
    FilterCategoryCount(t, High);
    assert Filter(t, IsCritical) == Filter(t, (r: DistrictRisk) => r.category == Some(Critical)) by {
      FilterSame(t, IsCritical, (r: DistrictRisk) => r.category == Some(Critical));
    }
    assert Filter(t, IsHigh) == Filter(t, (r: DistrictRisk) => r.category == Some(High)) by {
      FilterSame(t, IsHigh, (r: DistrictRisk) => r.category == Some(High));
    }
  }

  lemma {:induction false} FilterSame(t: seq<DistrictRisk>, p: DistrictRisk -> bool, q: DistrictRisk -> bool)
    requires forall r :: p(r) == q(r)
    ensures Filter(t, p) == Filter(t, q)
  {
    if t != [] {
      FilterSame(t[1..], p, q);
    }
  }

  /** On a scored table every priority district has a CERS above 50 (the
      deployment target). */
  lemma PriorityAboveFifty(t: seq<DistrictRisk>)
    requires forall r :: r in t ==> WellScored(r)
    ensures forall r :: r in PriorityDistricts(t) ==> 50.0 < r.cers <= 100.0
  {
  }

  function StateOf(r: DistrictRisk): string {
    r.stats.district.state
  }

  function NameOf(r: DistrictRisk): string {
    r.stats.district.name
  }

  function TotalOf(r: DistrictRisk): nat {
    r.stats.totalEnrolments
  }

  function StateSeq(p: seq<DistrictRisk>): (s: seq<string>)
    ensures |s| == |p|
    ensures forall i :: 0 <= i < |p| ==> s[i] == StateOf(p[i])
    ensures forall st :: st in s <==> exists x :: x in p && StateOf(x) == st
  {
    seq(|p|, i requires 0 <= i < |p| => StateOf(p[i]))
  }

  /** The priority districts of one state, in order. */
  function InState(p: seq<DistrictRisk>, state: string): (r: seq<DistrictRisk>)
    ensures forall x :: x in r <==> x in p && StateOf(x) == state
    ensures state in StateSeq(p) ==> |r| > 0
  {
    if p == [] then []
    else
      var rest := InState(p[1..], state);
      assert forall x :: x in p <==> x == p[0] || x in p[1..];
      assert state in StateSeq(p) ==> state == StateOf(p[0]) || state in StateSeq(p[1..]) by {
        if state in StateSeq(p) {
          var i :| 0 <= i < |p| && StateSeq(p)[i] == state;
          if i > 0 {
            assert StateSeq(p[1..])[i - 1] == state;
          }
        }
      }
      if StateOf(p[0]) == state then [p[0]] + rest else rest
  }

  function Names(p: seq<DistrictRisk>): (s: seq<string>)
    ensures |s| == |p|
    ensures forall i :: 0 <= i < |p| ==> s[i] == NameOf(p[i])
    ensures forall n :: n in s <==> exists x :: x in p && NameOf(x) == n
  {
    seq(|p|, i requires 0 <= i < |p| => NameOf(p[i]))
  }

  /** One row of `routes_by_state`. */
  datatype StateRoute = StateRoute(
    state: string, priorityDistricts: seq<string>,
    avgRiskScore: real, affectedPopulation: nat)

  function RouteOf(p: seq<DistrictRisk>, state: string): StateRoute
    requires state in StateSeq(p)
  {
    var rs := InState(p, state);
    StateRoute(state, Names(rs), Mean(rs, CersOf), SumByNat(rs, TotalOf))
  }

  function AvgRiskOf(r: StateRoute): real {
    r.avgRiskScore
  }

  /** The routes of the given states, in their order. */
  function RoutesFor(p: seq<DistrictRisk>, states: seq<string>): (u: seq<StateRoute>)
    requires forall s :: s in states ==> s in StateSeq(p)
    ensures |u| == |states|
    ensures forall i :: 0 <= i < |u| ==> u[i].state == states[i]
    ensures forall r :: r in u ==> r.state in StateSeq(p) && r == RouteOf(p, r.state)
    ensures forall s :: s in states ==> RouteOf(p, s) in u
  {
    if states == [] then []
    else
      assert forall s :: s in states[1..] ==> s in states;
      [RouteOf(p, states[0])] + RoutesFor(p, states[1..])
  }

  /** The per-state routes, highest average CERS first: one route for each
      state of the priority districts and no state twice. */
  function Routes(p: seq<DistrictRisk>): (routes: seq<StateRoute>)
    ensures SortedDesc(routes, AvgRiskOf)
    ensures forall r :: r in routes ==> r.state in StateSeq(p) && r == RouteOf(p, r.state)
    ensures forall s :: s in StateSeq(p) ==> RouteOf(p, s) in routes
    ensures forall i, j :: 0 <= i < j < |routes| ==> routes[i].state != routes[j].state
    ensures |routes| == |Distinct(StateSeq(p))|
  {
    var states := Distinct(StateSeq(p));
    var unsorted := RoutesFor(p, states);
    var sorted := SortDesc(unsorted, AvgRiskOf);
    assert forall r :: r in sorted <==> r in unsorted;
    assert NoDup(unsorted) by {
      forall i, j | 0 <= i < j < |unsorted| ensures unsorted[i] != unsorted[j] {
        assert unsorted[i].state == states[i] && unsorted[j].state == states[j];
      }
    }
    PermutationNoDup(unsorted, sorted);
    assert forall i, j :: 0 <= i < j < |sorted| ==> sorted[i].state != sorted[j].state by {
      forall i, j | 0 <= i < j < |sorted| ensures sorted[i].state != sorted[j].state {
        assert sorted[i] in unsorted && sorted[j] in unsorted;
      }
    }
    sorted
  }

  /** On a scored table every state route lists only priority districts of
      that state and averages a CERS in [50, 100]. */
  lemma RouteAverages(t: seq<DistrictRisk>)
    requires forall r :: r in t ==> WellScored(r)
    ensures forall r :: r in Routes(PriorityDistricts(t)) ==> 50.0 <= r.avgRiskScore <= 100.0
  {
    var p := PriorityDistricts(t);
    forall r | r in Routes(p) ensures 50.0 <= r.avgRiskScore <= 100.0 {
      MeanBounds(InState(p, r.state), CersOf, 50.0, 100.0);
    }
  }

  datatype MobileVanPlan = MobileVanPlan(
    priorityStates: seq<StateRoute>,
    totalDistrictsToCover: nat,
    estimatedPopulationReached: nat)

  function MobileVans(t: seq<DistrictRisk>): (m: MobileVanPlan)
    ensures m.totalDistrictsToCover == CountCategory(t, Critical) + CountCategory(t, High)
    ensures |m.priorityStates| <= 10 && m.priorityStates <= Routes(PriorityDistricts(t))
    ensures |m.priorityStates| ==
      if |Routes(PriorityDistricts(t))| < 10 then |Routes(PriorityDistricts(t))| else 10
    ensures m.estimatedPopulationReached == SumByNat(PriorityDistricts(t), TotalOf)
  {
    var p := PriorityDistricts(t);
    PriorityCount(t);
    MobileVanPlan(Take(Routes(p), 10), |p|, SumByNat(p, TotalOf))
  }

  // ---------------------------------------------------------------------
  // Proactive biometric refresh alerts
  // ---------------------------------------------------------------------

  /** The rows dated on or after the cutoff, in order. */
  function Recent(rows: seq<Row>, cutoff: Date): (r: seq<Row>)
    ensures forall row :: row in r <==> row in rows && DateLe(cutoff, row.key.date)
  {
    if rows == [] then []
    else
      var rest := Recent(rows[1..], cutoff);
      assert forall row :: row in rows <==> row == rows[0] || row in rows[1..];
      if DateLe(cutoff, rows[0].key.date) then [rows[0]] + rest else rest
  }

  /** One row of `alert_candidates` before the filter. */
  datatype AlertCandidate = AlertCandidate(
    district: District, bioCompletionRate: real, demoCompletionRate: real, enrolCount: nat)

  function AlertStats(rows: seq<Row>, d: District): (a: AlertCandidate)
    requires d in DistrictSeq(rows)
    ensures a.district == d
  {
    var rs := RowsIn(rows, d);
    AlertCandidate(d, Mean(rs, BioRate), Mean(rs, DemoRate), SumByNat(rs, EnrolCount))
  }

  predicate NeedsAlert(a: AlertCandidate) {
    a.bioCompletionRate < 80.0 && a.enrolCount > 50
  }

  function AlertCandidates(rows: seq<Row>, cutoff: Date): (r: seq<AlertCandidate>)
    ensures forall a :: a in r ==> NeedsAlert(a)
  {
    var recent := Recent(rows, cutoff);
    var ds := Districts(recent);
    Filter(seq(|ds|, i requires 0 <= i < |ds| => AlertStats(recent, ds[i])), NeedsAlert)
  }

  /** The alert candidates are exactly the districts with a row on or after
      the cutoff whose mean biometric completion rate over those rows is
      below 80 and whose summed enrolment count exceeds 50. */
  lemma AlertCandidatesSpec(rows: seq<Row>, cutoff: Date)
    ensures var recent := Recent(rows, cutoff);
      forall a :: a in AlertCandidates(rows, cutoff) ==>
        a.district in DistrictSeq(recent) && a == AlertStats(recent, a.district) && NeedsAlert(a)
    ensures var recent := Recent(rows, cutoff);
      forall d :: d in DistrictSeq(recent) && NeedsAlert(AlertStats(recent, d)) ==>
        AlertStats(recent, d) in AlertCandidates(rows, cutoff)
  {
    var recent := Recent(rows, cutoff);
    var ds := Districts(recent);
    var all := seq(|ds|, i requires 0 <= i < |ds| => AlertStats(recent, ds[i]));
    forall a | a in AlertCandidates(rows, cutoff)
      ensures a.district in DistrictSeq(recent) && a == AlertStats(recent, a.district)
    {
      var i :| 0 <= i < |all| && all[i] == a;
    }
    forall d | d in DistrictSeq(recent) && NeedsAlert(AlertStats(recent, d))
      ensures AlertStats(recent, d) in AlertCandidates(rows, cutoff)
    {
      var i :| 0 <= i < |ds| && ds[i] == d;
      assert all[i] == AlertStats(recent, d);
    }
  }

  /** An alert candidate's row set lies entirely on or after the cutoff. */
  lemma AlertRowsRecent(rows: seq<Row>, cutoff: Date, a: AlertCandidate)
    requires a in AlertCandidates(rows, cutoff)
    ensures forall row :: row in RowsIn(Recent(rows, cutoff), a.district) ==>
      row in rows && DateLe(cutoff, row.key.date) && DistrictOf(row) == a.district
  {
    AlertCandidatesSpec(rows, cutoff);
  }

  function CandidateEnrol(a: AlertCandidate): nat {
    a.enrolCount
  }

  datatype AlertPlan = AlertPlan(
    targetDistricts: nat, estimatedBeneficiaries: nat, totalCampaignCost: real)

  /** The plan for the candidates: beneficiaries are 30% of their enrolments
      truncated to an integer, and the campaign costs 0.10 per beneficiary
      before truncation. */
  function Alerts(candidates: seq<AlertCandidate>): (a: AlertPlan)
    ensures a.targetDistricts == |candidates|
    ensures a.estimatedBeneficiaries as real <= 0.3 * SumByNat(candidates, CandidateEnrol) as real
      < a.estimatedBeneficiaries as real + 1.0
    ensures a.totalCampaignCost == 0.03 * SumByNat(candidates, CandidateEnrol) as real
    ensures a.totalCampaignCost >= 0.0
  {
    var total := SumByNat(candidates, CandidateEnrol);
    AlertPlan(|candidates|, (3 * total) / 10, total as real * 0.3 * 0.10)
  }

  // ---------------------------------------------------------------------
  // Capacity building
  // ---------------------------------------------------------------------

  predicate IsVolatile(r: DistrictRisk) {
    r.volatilityRisk > 70.0
  }

  function EnrolmentsOf(r: DistrictRisk): real {
    r.stats.totalEnrolments as real
  }

  datatype CapacityPlan = CapacityPlan(targetDistricts: nat, priorityLocations: seq<DistrictRisk>)

  function VolatileDistricts(t: seq<DistrictRisk>): (v: seq<DistrictRisk>)
    ensures forall r :: r in v <==> r in t && r.volatilityRisk > 70.0
    ensures SortedDesc(v, EnrolmentsOf)
    ensures multiset(v) == multiset(Filter(t, IsVolatile))
  {
    SortDesc(Filter(t, IsVolatile), EnrolmentsOf)
  }

  /** The districts whose volatility risk exceeds 70, most enrolments first;
      the plan names at most twenty of them. */
  function CapacityBuilding(t: seq<DistrictRisk>): (c: CapacityPlan)
    ensures c.targetDistricts == |Filter(t, IsVolatile)|
    ensures |c.priorityLocations| <= 20
    ensures c.priorityLocations <= VolatileDistricts(t)
    ensures |c.priorityLocations| == if |VolatileDistricts(t)| < 20 then |VolatileDistricts(t)| else 20
  {
    var v := VolatileDistricts(t);
    CapacityPlan(|v|, Take(v, 20))
  }

  // ---------------------------------------------------------------------
  // The framework
  // ---------------------------------------------------------------------

  datatype Framework = Framework(
    mobileVanOptimizer: MobileVanPlan, proactiveAlerts: AlertPlan,
    capacityBuilding: CapacityPlan)

  /** `propose_intervention_framework` on the scored table `t` and the
      integrated rows; alerts consider the rows dated on or after `cutoff`. */
  function ProposeFramework(t: seq<DistrictRisk>, rows: seq<Row>, cutoff: Date): (f: Framework)
    ensures f.mobileVanOptimizer.totalDistrictsToCover == CountCategory(t, Critical) + CountCategory(t, High)
    ensures f.proactiveAlerts.targetDistricts == |AlertCandidates(rows, cutoff)|
    ensures f.capacityBuilding.targetDistricts == |Filter(t, IsVolatile)|
  {
    Framework(MobileVans(t), Alerts(AlertCandidates(rows, cutoff)), CapacityBuilding(t))
  }

  // ---------------------------------------------------------------------
  // Economic impact
  // ---------------------------------------------------------------------

  /** The figures the estimate reads from the framework; each is 0 when no
      framework was proposed. */
  datatype EconomicInputs = EconomicInputs(
    affectedPopulation: nat, districtsToCover: nat, alertCost: real,
    alertBeneficiaries: nat, capacityDistricts: nat)

  function InputsOf(f: Option<Framework>): (e: EconomicInputs)
    ensures f.None? ==> e == EconomicInputs(0, 0, 0.0, 0, 0)
    ensures f.Some? ==> e.districtsToCover == f.value.mobileVanOptimizer.totalDistrictsToCover
  {
    match f
    case None => EconomicInputs(0, 0, 0.0, 0, 0)
    case Some(fw) =>
      EconomicInputs(
        fw.mobileVanOptimizer.estimatedPopulationReached,
        fw.mobileVanOptimizer.totalDistrictsToCover,
        fw.proactiveAlerts.totalCampaignCost,
        fw.proactiveAlerts.estimatedBeneficiaries,
        fw.capacityBuilding.targetDistricts)
  }

  datatype Impact = Impact(
    citizensAtRisk: nat, annualExclusionCost: nat,
    vans: nat, mobileVanCost: nat, citizensServedByVans: real,
    capacityBuildingCost: nat, totalInterventionCost: real,
    citizensHelped: real,
    exclusionPreventionSavings: real, efficiencySavings: real, adminSavings: real,
    totalAnnualSavings: real, netBenefit: real, roi: real,
    paybackMonths: Option<real>, familiesImpacted: int)

  function Min(a: real, b: real): (m: real)
    ensures m <= a && m <= b && (m == a || m == b)
  {
    if a <= b then a else b
  }

  /** `quantify_economic_impact` with its constants: 5000 per excluded
      citizen, 200000 per van and month, 500000 per upgraded centre, 150
      citizens per van and day over 25 days a month, 70% of them biometric
      updates, a 20% exclusion rate, 12000 of benefits per citizen with a 15%
      efficiency gain, and 500 per reapplication for half of those helped. */
  function Economic(e: EconomicInputs): (i: Impact)
    ensures i.totalInterventionCost == 0.0 ==> i.roi == 0.0
    ensures i.paybackMonths.Some? <==> i.totalAnnualSavings > 0.0
  {
    var atRisk := e.affectedPopulation / 5;
    var vans := e.districtsToCover / 5;
    var vanCost := vans * 200000 * 12;
    var served := (vans * 150 * 25 * 12) as real * 0.7;
    var capacityCost := e.capacityDistricts * 2 * 500000;
    var cost := vanCost as real + e.alertCost + capacityCost as real;
    var helped := Min(served + e.alertBeneficiaries as real, atRisk as real);
    var prevention := helped * 5000.0;
    var efficiency := e.affectedPopulation as real * 12000.0 * 0.15;
    var admin := helped * 0.5 * 500.0;
    var savings := prevention + efficiency + admin;
    var net := savings - cost;
    var roi := if cost > 0.0 then net / cost * 100.0 else 0.0;
    var payback := if savings > 0.0 then Some(cost / (savings / 12.0)) else None;
    Impact(atRisk, atRisk * 5000, vans, vanCost, served, capacityCost, cost, helped,
      prevention, efficiency, admin, savings, net, roi, payback, (helped * 4.5).Floor)
  }

  /** One van per five districts and one citizen at risk per five affected,
      both rounded down; the citizens helped are never more than those at
      risk nor more than the vans and alerts reach, and never negative. */
  lemma EconomicCounts(e: EconomicInputs)
    ensures var i := Economic(e);
      5 * i.vans <= e.districtsToCover < 5 * i.vans + 5
      && 5 * i.citizensAtRisk <= e.affectedPopulation < 5 * i.citizensAtRisk + 5
    ensures var i := Economic(e);
      0.0 <= i.citizensHelped <= i.citizensAtRisk as real
      && i.citizensHelped <= i.citizensServedByVans + e.alertBeneficiaries as real
    ensures var i := Economic(e);
      i.citizensServedByVans == 31500.0 * i.vans as real
    ensures var i := Economic(e);
      0 <= i.familiesImpacted && i.familiesImpacted as real <= 4.5 * i.citizensHelped
  {
  }

  /** With a non-negative alert cost, savings and costs are never negative,
      so with a positive cost the ROI is at least -100%. */
  lemma EconomicReturn(e: EconomicInputs)
    ensures var i := Economic(e);
      e.alertCost >= 0.0 ==> i.totalAnnualSavings >= 0.0 && i.totalInterventionCost >= 0.0
    ensures var i := Economic(e);
      e.alertCost >= 0.0 && i.totalInterventionCost > 0.0 ==> i.roi >= -100.0
  {
    var i := Economic(e);
    if e.alertCost >= 0.0 && i.totalInterventionCost > 0.0 {
      RoiFloor(i.totalAnnualSavings, i.totalInterventionCost);
    }
  }

  lemma RoiFloor(savings: real, cost: real)
    requires savings >= 0.0 && cost > 0.0
    ensures (savings - cost) / cost * 100.0 >= -100.0
  {
    var q := (savings - cost) / cost;
    assert q * cost == savings - cost;
    assert (q + 1.0) * cost == savings;
    if q + 1.0 < 0.0 {
      assert (q + 1.0) * cost < 0.0;
    }
  }

  /** With no framework the estimate is all zeros: no vans, nobody helped,
      no cost and an ROI of 0. */
  lemma EconomicWithoutFramework()
    ensures var i := Economic(InputsOf(None));
      i.vans == 0 && i.citizensHelped == 0.0 && i.totalInterventionCost == 0.0
      && i.roi == 0.0 && i.paybackMonths.None?
  {
  }
}
