/** The analyzer object of the risk pipeline: it holds the three loaded
    record tables, the integrated table it builds and engineers, and the
    insights (scored districts, their summary, the intervention framework and
    the economic estimate) that each step adds. */
module Analyzer {
  import opened Wrappers
  import opened Calendar
  import opened RiskData
  import opened RiskScore
  import opened Interventions

  /** The integrated table of the three record tables before feature
      engineering: one row per key present in any of them, zero-filled. */
  function Integrated(enrol: seq<Record>, demo: seq<Record>, bio: seq<Record>): (rows: seq<Row>)
    ensures forall i :: 0 <= i < |rows| ==> RowShaped(rows[i])
  {
    var e := GroupBy(enrol, EnrolBands);
    var d := GroupBy(demo, UpdateBands);
    var b := GroupBy(bio, UpdateBands);
    JoinShaped(e, d, b);
    Join(e, d, b)
  }

  /** Every key of an integrated row comes from a record of one of the three
      tables, and every key carried by a record has a row. */
  lemma IntegratedKeys(enrol: seq<Record>, demo: seq<Record>, bio: seq<Record>, k: Key)
    ensures k in RowKeys(Integrated(enrol, demo, bio)) <==>
      (exists r :: r in enrol && r.key == Some(k))
      || (exists r :: r in demo && r.key == Some(k))
      || (exists r :: r in bio && r.key == Some(k))
  {
    var e := GroupBy(enrol, EnrolBands);
    var d := GroupBy(demo, UpdateBands);
    var b := GroupBy(bio, UpdateBands);
    JoinSpec(e, d, b);
    GroupByExact(enrol, EnrolBands);
    GroupByExact(demo, UpdateBands);
    GroupByExact(bio, UpdateBands);
  }

  class KillerMoveAnalyzer {
    var enrolmentData: seq<Record>
    var demographicData: seq<Record>
    var biometricData: seq<Record>
    var combinedData: Option<seq<Row>>
    var cersDistricts: Option<seq<DistrictRisk>>
    var cersSummary: Option<RiskSummary>
    var interventions: Option<Framework>
    var economicImpact: Option<Impact>

    /** The stored summary is the summary of the stored scored table. */
    predicate SummaryMatches()
      reads this
    {
      cersDistricts.Some? && cersSummary.Some? ==> cersSummary.value == Summarize(cersDistricts.value)
    }

    /** The stored framework covers as many districts as the stored summary
        counts Critical and High ones. */
    predicate PlanMatches()
      reads this
    {
      cersSummary.Some? && interventions.Some? ==>
        interventions.value.mobileVanOptimizer.totalDistrictsToCover
          == cersSummary.value.criticalRiskDistricts + cersSummary.value.highRiskDistricts
    }

    /** A fresh analyzer over the three loaded tables, with no insights. */
    constructor(enrol: seq<Record>, demo: seq<Record>, bio: seq<Record>)
      ensures enrolmentData == enrol && demographicData == demo && biometricData == bio
      ensures combinedData.None? && cersDistricts.None? && cersSummary.None?
      ensures interventions.None? && economicImpact.None?
    {
      enrolmentData := enrol;
      demographicData := demo;
      biometricData := bio;
      combinedData := None;
      cersDistricts := None;
      cersSummary := None;
      interventions := None;
      economicImpact := None;
    }

    /** `create_integrated_dataset`: aggregate, join, zero-fill, then add the
        engineered features. */
    method CreateIntegratedDataset()
      modifies this
      ensures combinedData == Some(WithFeatures(Integrated(enrolmentData, demographicData, biometricData)))
      ensures enrolmentData == old(enrolmentData) && demographicData == old(demographicData)
        && biometricData == old(biometricData)
      ensures cersDistricts == old(cersDistricts) && cersSummary == old(cersSummary)
        && interventions == old(interventions) && economicImpact == old(economicImpact)
    {
      combinedData := Some(Integrated(enrolmentData, demographicData, biometricData));
      EngineerFeatures();
    }

    /** `_engineer_features`: every row of the integrated table gains its
        derived columns. */
    method EngineerFeatures()
      requires combinedData.Some?
      requires forall i :: 0 <= i < |combinedData.value| ==> RowShaped(combinedData.value[i])
      modifies this
      ensures combinedData == Some(WithFeatures(old(combinedData.value)))
      ensures Engineered(combinedData.value)
      ensures enrolmentData == old(enrolmentData) && demographicData == old(demographicData)
        && biometricData == old(biometricData)
      ensures cersDistricts == old(cersDistricts) && cersSummary == old(cersSummary)
        && interventions == old(interventions) && economicImpact == old(economicImpact)
    {
      combinedData := Some(WithFeatures(combinedData.value));
    }

    /** `calculate_exclusion_risk_score`, given each district's standard
        deviation of the biometric gap: stores and returns the scored table
        and stores its summary. */
    method CalculateExclusionRiskScore(volatility: map<District, real>) returns (t: seq<DistrictRisk>)
      requires combinedData.Some? && Engineered(combinedData.value) && NonNegative(volatility)
      modifies this
      ensures t == RiskTable(old(combinedData).value, volatility)
      ensures cersDistricts == Some(t) && cersSummary == Some(Summarize(t))
      ensures SummaryMatches()
      ensures combinedData == old(combinedData) && interventions == old(interventions)
        && economicImpact == old(economicImpact)
      ensures enrolmentData == old(enrolmentData) && demographicData == old(demographicData)
        && biometricData == old(biometricData)
    {
      t := RiskTable(combinedData.value, volatility);
      cersDistricts := Some(t);
      cersSummary := Some(Summarize(t));
    }

    /** `propose_intervention_framework` on a scored table; the alerts look
        at the integrated rows dated on or after `cutoff`. */
    method ProposeInterventionFramework(cers: seq<DistrictRisk>, cutoff: Date) returns (f: Framework)
      requires combinedData.Some?
      modifies this
      ensures f == ProposeFramework(cers, old(combinedData).value, cutoff)
      ensures interventions == Some(f)
      ensures cersSummary == Some(Summarize(cers)) ==> PlanMatches()
      ensures combinedData == old(combinedData) && cersDistricts == old(cersDistricts)
        && cersSummary == old(cersSummary) && economicImpact == old(economicImpact)
      ensures enrolmentData == old(enrolmentData) && demographicData == old(demographicData)
        && biometricData == old(biometricData)
    {
      f := ProposeFramework(cers, combinedData.value, cutoff);
      interventions := Some(f);
    }

    /** `quantify_economic_impact` on the stored framework (all zeros when
        none was proposed). */
    method QuantifyEconomicImpact() returns (i: Impact)
      modifies this
      ensures i == Economic(InputsOf(interventions))
      ensures economicImpact == Some(i)
      ensures combinedData == old(combinedData) && cersDistricts == old(cersDistricts)
        && cersSummary == old(cersSummary) && interventions == old(interventions)
      ensures enrolmentData == old(enrolmentData) && demographicData == old(demographicData)
        && biometricData == old(biometricData)
    {
      i := Economic(InputsOf(interventions));
      economicImpact := Some(i);
    }

    /** The deterministic part of `run_full_analysis`, in its order: the
        stored summary and framework agree with the scored integrated table,
        and the economic estimate reads that framework. */
    method RunCoreAnalysis(volatility: map<District, real>, cutoff: Date)
      requires NonNegative(volatility)
      modifies this
      ensures SummaryMatches() && PlanMatches()
      ensures enrolmentData == old(enrolmentData) && demographicData == old(demographicData)
        && biometricData == old(biometricData)
      ensures var rows := WithFeatures(Integrated(old(enrolmentData), old(demographicData), old(biometricData)));
        combinedData == Some(rows)
        && cersDistricts == Some(RiskTable(rows, volatility))
        && cersSummary == Some(Summarize(RiskTable(rows, volatility)))
        && interventions == Some(ProposeFramework(RiskTable(rows, volatility), rows, cutoff))
        && economicImpact == Some(Economic(InputsOf(interventions)))
    {
      CreateIntegratedDataset();
      ghost var rows := combinedData.value;
      var t := CalculateExclusionRiskScore(volatility);
      assert t == RiskTable(rows, volatility);
      var f := ProposeInterventionFramework(t, cutoff);
      assert f == ProposeFramework(t, rows, cutoff);
      var i := QuantifyEconomicImpact();
    }
  }
}
