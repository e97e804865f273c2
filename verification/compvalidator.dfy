/** The comparison tool's validator, comparison/validator.py: it runs
    the FIDE checker on one engine's round and sets two engines' reports
    side by side. */
module CompValidator {
  import opened Wrappers
  import opened Players
  import Fpc
  import Metrics

  /** `validate_pairings_for_comparison`: a missing (or empty) match set
      and bye history are replaced by empty ones before the round is
      checked with every player of the tournament. */
  function ValidateForComparison(pairings: seq<Fpc.Pairing>, bye: Option<Player>, players: seq<Player>,
                                 round: int, totalRounds: int,
                                 previous: Option<set<set<string>>>, byeHistory: Option<map<string, int>>)
    : (rep: Fpc.Report)
    ensures rep == Fpc.ReportOf(rep.results) && |rep.results| >= 3
    ensures rep.results[..3] == [Fpc.CheckC1(pairings, previous.GetOr({})),
                                 Fpc.CheckC2(bye, byeHistory.GetOr(map[])),
                                 Fpc.CheckC3(pairings, round, totalRounds)]
  {
    Fpc.ValidateRoundPairings(pairings, bye, round, totalRounds,
                              previous.GetOr({}), byeHistory.GetOr(map[]), players)
  }

  /** Leaving the history out is the same as passing empty history. */
  lemma MissingHistoryIsEmpty(pairings: seq<Fpc.Pairing>, bye: Option<Player>, players: seq<Player>,
                              round: int, totalRounds: int)
    ensures ValidateForComparison(pairings, bye, players, round, totalRounds, None, None)
         == ValidateForComparison(pairings, bye, players, round, totalRounds, Some({}), Some(map[]))
         == Fpc.ValidateRoundPairings(pairings, bye, round, totalRounds, {}, map[], players)
  {
  }

  /** The ids of a report's violated criteria. */
  function ViolationIds(rep: Fpc.Report): (ids: set<string>)
    ensures forall k :: k in ids <==>
              exists i :: 0 <= i < |rep.violations| && rep.violations[i].status == Fpc.Violation
                          && Fpc.Name(rep.violations[i]) == k
  {
    set i | 0 <= i < |rep.violations| && rep.violations[i].status == Fpc.Violation :: Fpc.Name(rep.violations[i])
  }

  /** The output of `compare_validation_reports`; the lists of ids are sets
      since they come from set operations. */
  datatype Comparison = Comparison(
    gambitCompliance: real, bbpCompliance: real, complianceDifference: real,
    gambitViolations: map<string, int>, bbpViolations: map<string, int>,
    uniqueGambit: set<string>, uniqueBbp: set<string>, common: set<string>)

  datatype Failure = AttributeError(attribute: string)

  /** `_extract_violation_summary` as written: it reads `violation_count`
      from the entry itself, an attribute a criterion result does not have,
      so the first violation entry raises. */
  function ViolationSummaryAsWritten(rep: Fpc.Report): (r: Result<map<string, int>, Failure>)
    ensures r.Success? <==> forall i :: 0 <= i < |rep.violations| ==> rep.violations[i].status != Fpc.Violation
    ensures r.Success? ==> r.value == map[]
  {
    if exists i :: 0 <= i < |rep.violations| && rep.violations[i].status == Fpc.Violation
    then Failure(AttributeError("violation_count"))
    else Success(map[])
  }

  /** `compare_validation_reports` as written. */
  function CompareReportsAsWritten(gambit: Fpc.Report, bbp: Fpc.Report): (r: Result<Comparison, Failure>)
    ensures r.Success? ==> ViolationSummaryAsWritten(gambit).Success? && ViolationSummaryAsWritten(bbp).Success?
  {
    var gs :- ViolationSummaryAsWritten(gambit);
    var bs :- ViolationSummaryAsWritten(bbp);
    Success(Build(gambit, bbp, gs, bs))
  }

  function Build(gambit: Fpc.Report, bbp: Fpc.Report, gs: map<string, int>, bs: map<string, int>): Comparison {
    var g, b := ViolationIds(gambit), ViolationIds(bbp);
    Comparison(Fpc.CompliancePercentage(gambit), Fpc.CompliancePercentage(bbp),
               Fpc.CompliancePercentage(gambit) - Fpc.CompliancePercentage(bbp),
               gs, bs, g - b, b - g, g * b)
  }

  /** A round with a single repeated pairing makes the comparison raise. */
  lemma CompareReportsRaises()
    ensures var rep := Fpc.ReportOf([Fpc.Flagged(1, Fpc.Absolute)]);
            CompareReportsAsWritten(rep, rep).Failure?
  {
    var rep := Fpc.ReportOf([Fpc.Flagged(1, Fpc.Absolute)]);
    assert Fpc.Flagged(1, Fpc.Absolute) in rep.violations;
  }

  /** `compare_validation_reports` with the summary read the way the FIDE
      score reads it: each violated id with its count, 1 when not given. */
  function CompareReports(gambit: Fpc.Report, bbp: Fpc.Report): (c: Comparison)
    ensures c.complianceDifference == c.gambitCompliance - c.bbpCompliance
    ensures c.gambitCompliance == Fpc.CompliancePercentage(gambit)
    ensures c.bbpCompliance == Fpc.CompliancePercentage(bbp)
    ensures c.gambitViolations.Keys == ViolationIds(gambit) && c.bbpViolations.Keys == ViolationIds(bbp)
    ensures c.uniqueGambit !! ViolationIds(bbp) && c.uniqueBbp !! ViolationIds(gambit)
    ensures c.common == ViolationIds(gambit) * ViolationIds(bbp)
    ensures c.uniqueGambit + c.common == ViolationIds(gambit)
    ensures c.uniqueBbp + c.common == ViolationIds(bbp)
  {
    Build(gambit, bbp, Metrics.ViolationsById(gambit.violations), Metrics.ViolationsById(bbp.violations))
  }

  /** Comparing the reports the other way round swaps the two sides. */
  lemma CompareReportsSwap(gambit: Fpc.Report, bbp: Fpc.Report)
    ensures var c, d := CompareReports(gambit, bbp), CompareReports(bbp, gambit);
            d.uniqueGambit == c.uniqueBbp && d.uniqueBbp == c.uniqueGambit && d.common == c.common
            && d.complianceDifference == -c.complianceDifference
  {
  }

  /** Where the as-written comparison does not raise, it agrees with the
      corrected one: no violations, so both summaries are empty. */
  lemma CompareReportsAgree(gambit: Fpc.Report, bbp: Fpc.Report)
    requires CompareReportsAsWritten(gambit, bbp).Success?
    ensures CompareReportsAsWritten(gambit, bbp).value == CompareReports(gambit, bbp)
  {
    var g, b := Metrics.ViolationsById(gambit.violations), Metrics.ViolationsById(bbp.violations);
    assert g.Keys == {};
    assert b.Keys == {};
  }
}
