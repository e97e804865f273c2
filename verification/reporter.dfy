/** The comparison report, comparison/reporter.py: six sections built from
    the per-round results and the statistical summary. Values shown in the
    report are rounded to two or four decimal places. */
module Reporter {
  import opened Wrappers
  import Text
  import Engine
  import Analyzer

  type Winner = Engine.Winner

  // ------------------------------------------------------------ rounding

  function Pow10(n: nat): (p: real)
    ensures p >= 1.0
  {
    if n == 0 then 1.0 else 10.0 * Pow10(n - 1)
  }

  /** The value in units of the last kept place, plus one half. */
  function Shifted(x: real, places: nat): real {
    x * Pow10(places) + 0.5
  }

  /** `round(x, places)`, halves rounded up. */
  function Round(x: real, places: nat): real {
    Shifted(x, places).Floor as real / Pow10(places)
  }

  lemma QuotientMono(a: real, b: real, s: real)
    requires a <= b && s > 0.0
    ensures a / s <= b / s
  {
  }

  lemma ShiftedMono(x: real, y: real, places: nat)
    requires x <= y
    ensures Shifted(x, places) <= Shifted(y, places)
  {
    var s := Pow10(places);
    assert y * s - x * s == (y - x) * s;
  }

  /** Rounding keeps the order of its arguments. */
  lemma RoundMonotone(x: real, y: real, places: nat)
    requires x <= y
    ensures Round(x, places) <= Round(y, places)
  {
    ShiftedMono(x, y, places);
    var a, b := Shifted(x, places).Floor, Shifted(y, places).Floor;
    assert a <= b;
    QuotientMono(a as real, b as real, Pow10(places));
  }

  /** A value that is not negative does not round to a negative one. */
  lemma RoundNonNegative(x: real, places: nat)
    requires x >= 0.0
    ensures Round(x, places) >= 0.0
  {
    ShiftedMono(0.0, x, places);
    var a := Shifted(x, places).Floor;
    assert a >= 0;
    QuotientMono(0.0, a as real, Pow10(places));
  }

  /** Adding one unit of the last place adds one unit to the rounded value. */
  lemma RoundShift(x: real, places: nat)
    ensures Round(x + 1.0 / Pow10(places), places) == Round(x, places) + 1.0 / Pow10(places)
  {
    var s := Pow10(places);
    var u := 1.0 / s;
    assert (x + u) * s == x * s + u * s;
    assert Shifted(x + u, places) == Shifted(x, places) + 1.0;
    var f := Shifted(x, places).Floor;
    assert Shifted(x + u, places).Floor == f + 1;
    assert (f as real + 1.0) / s == f as real / s + u;
  }

  lemma Hundredth()
    ensures Pow10(2) == 100.0 && 1.0 / Pow10(2) == 0.01
  {
  }

  function OptionRound(x: Option<real>, places: nat): (r: Option<real>)
    ensures r.Some? <==> x.Some?
  {
    if x.Some? then Some(Round(x.value, places)) else None
  }

  // ----------------------------------------------------- overall results

  /** `_generate_overall_results`: the engine with the higher win rate, a
      tie on equal rates. */
  function OverallWinner(s: Analyzer.Summary): (w: Winner)
    ensures w == Engine.Gambit <==> s.gambitRate > s.bbpRate
    ensures w == Engine.Bbp <==> s.bbpRate > s.gambitRate
    ensures w == Engine.Tie <==> s.gambitRate == s.bbpRate
  {
    if s.gambitRate > s.bbpRate then Engine.Gambit
    else if s.bbpRate > s.gambitRate then Engine.Bbp
    else Engine.Tie
  }

  lemma RateOrder(a: nat, b: nat, n: nat)
    requires n > 0
    ensures Analyzer.Rate(a, n) > Analyzer.Rate(b, n) <==> a > b
  {
    var x, y, m := Analyzer.Rate(a, n), Analyzer.Rate(b, n), n as real;
    assert x * m == a as real && y * m == b as real;
    if x > y {
      assert (x - y) * m > 0.0;
    }
    if a > b {
      QuotientMono(b as real, a as real, m);
    }
  }

  /** Over an analysed list of results the report's winner is the engine
      that won more rounds, a tie when both won equally many. */
  lemma OverallWinnerFromCounts(rs: seq<Engine.ComparisonResult>, minSamples: int)
    requires Analyzer.Analyze(rs, minSamples).Success?
    ensures var w := OverallWinner(Analyzer.Analyze(rs, minSamples).value);
            var g, b := Analyzer.CountWinner(rs, Engine.Gambit), Analyzer.CountWinner(rs, Engine.Bbp);
            (w == Engine.Gambit <==> g > b) && (w == Engine.Bbp <==> b > g) && (w == Engine.Tie <==> g == b)
  {
    var s := Analyzer.Analyze(rs, minSamples).value;
    if rs != [] {
      RateOrder(s.gambitWins, s.bbpWins, s.total);
      RateOrder(s.bbpWins, s.gambitWins, s.total);
    }
  }

  datatype Overall = Overall(
    winner: Winner, gambitRate: real, bbpRate: real, tieRate: real,
    total: nat, gambitWins: nat, bbpWins: nat, ties: nat,
    averageDifference: real, medianDifference: real, maxDifference: real,
    significance: real, confidence: real)

  /** The summary's score-difference statistic, 0 when there are none. */
  function DifferenceOr(d: Option<Analyzer.Stats>, pick: Analyzer.Stats -> real): real {
    if d.Some? then pick(d.value) else 0.0
  }

  function MeanOf(s: Analyzer.Stats): real { s.mean }
  function MedianOf(s: Analyzer.Stats): real { s.median }
  function MaxOf(s: Analyzer.Stats): real { s.max }

  function OverallResults(s: Analyzer.Summary): (o: Overall)
    ensures o.winner == OverallWinner(s)
    ensures o.total == s.total && o.gambitWins == s.gambitWins && o.bbpWins == s.bbpWins && o.ties == s.ties
  {
    Overall(OverallWinner(s), Round(s.gambitRate, 4), Round(s.bbpRate, 4), Round(s.tieRate, 4),
            s.total, s.gambitWins, s.bbpWins, s.ties,
            Round(DifferenceOr(s.differences, MeanOf), 2), Round(DifferenceOr(s.differences, MedianOf), 2),
            Round(DifferenceOr(s.differences, MaxOf), 2),
            Round(s.significance, 4), Round(s.confidence, 4))
  }

  // --------------------------------------------------- detailed analysis

  function RoundStats(s: Option<Analyzer.Stats>): (r: Option<Analyzer.Stats>)
    ensures r.Some? <==> s.Some?
  {
    if s.Some? then
      Some(Analyzer.Stats(Round(s.value.mean, 2), Round(s.value.median, 2), Round(s.value.min, 2), Round(s.value.max, 2)))
    else None
  }

  function RoundSide(s: Analyzer.Side): (r: Analyzer.Side)
    ensures r.gambit.Some? == s.gambit.Some? && r.bbp.Some? == s.bbp.Some?
    ensures r.difference.Some? == s.difference.Some?
  {
    Analyzer.Side(RoundStats(s.gambit), RoundStats(s.bbp), OptionRound(s.difference, 2))
  }

  /** A size group as shown: the rates rounded to four places. */
  function SizeEntry(b: Analyzer.Bucket): Analyzer.Bucket {
    b.(gambitRate := Round(b.gambitRate, 4), bbpRate := Round(b.bbpRate, 4))
  }

  /** `_format_size_performance`: keyed by the size group's label. */
  function FormatSizes(m: map<Analyzer.SizeCategory, Analyzer.Bucket>): (r: map<string, Analyzer.Bucket>)
    ensures forall c :: c in m <==> Analyzer.SizeLabel(c) in r
    ensures forall c :: c in m ==> r[Analyzer.SizeLabel(c)] == SizeEntry(m[c])
  {
    SizeLabelsDistinct();
    map c | c in m :: Analyzer.SizeLabel(c) := SizeEntry(m[c])
  }

  lemma SizeLabelsDistinct()
    ensures forall a, b :: Analyzer.SizeLabel(a) == Analyzer.SizeLabel(b) ==> a == b
  {
    forall a, b | Analyzer.SizeLabel(a) == Analyzer.SizeLabel(b) ensures a == b {
      assert Analyzer.SizeLabel(a)[0] == Analyzer.SizeLabel(b)[0];
    }
  }

  /** A round group as shown: no rate for the second engine. */
  datatype RoundEntry = RoundEntry(total: nat, gambitWins: nat, bbpWins: nat, ties: nat, gambitRate: real)

  function RoundEntryOf(b: Analyzer.Bucket): RoundEntry {
    RoundEntry(b.total, b.gambitWins, b.bbpWins, b.ties, Round(b.gambitRate, 4))
  }

  /** The text key of a round, `f"round_{n}"`. */
  function RoundKey(n: int): (k: string)
    ensures |k| > 6 && k[..6] == "round_"
  {
    "round_" + Text.IntToString(n)
  }

  /** Different rounds get different keys: the number reads back from its
      key. */
  lemma RoundKeyInjective(a: int, b: int)
    requires RoundKey(a) == RoundKey(b)
    ensures a == b
  {
    assert RoundKey(a)[6..] == Text.IntToString(a);
    assert RoundKey(b)[6..] == Text.IntToString(b);
    Text.ParseIntOfIntToString(a);
    Text.ParseIntOfIntToString(b);
  }

  lemma RoundKeysInjective(ns: set<int>)
    ensures forall a, b :: a in ns && b in ns && RoundKey(a) == RoundKey(b) ==> a == b
  {
    forall a, b | a in ns && b in ns && RoundKey(a) == RoundKey(b) ensures a == b {
      RoundKeyInjective(a, b);
    }
  }

  /** `_format_round_performance`: keyed by `round_<n>`. */
  function FormatRounds(m: map<int, Analyzer.Bucket>): (r: map<string, RoundEntry>)
    ensures forall n :: n in m <==> RoundKey(n) in r
    ensures forall n :: n in m ==> r[RoundKey(n)] == RoundEntryOf(m[n])
  {
    RoundKeysInjective(m.Keys);
    var r := map n | n in m :: RoundKey(n) := RoundEntryOf(m[n]);
    assert forall n :: RoundKey(n) in r ==> n in m by {
      forall n | RoundKey(n) in r ensures n in m {
        var k :| k in m && RoundKey(k) == RoundKey(n);
        RoundKeyInjective(k, n);
      }
    }
    r
  }

  datatype Detailed = Detailed(
    fide: Analyzer.Side, quality: Analyzer.Side,
    sizes: map<string, Analyzer.Bucket>, rounds: map<string, RoundEntry>,
    patterns: Option<Analyzer.Patterns>)

  /** `_generate_detailed_analysis`: the rounded comparisons, the labelled
      size and round breakdowns, and the violation patterns as analysed. */
  function DetailedAnalysis(s: Analyzer.Summary): (d: Detailed)
    ensures forall n :: n in s.rounds <==> RoundKey(n) in d.rounds
    ensures forall c :: c in s.sizes <==> Analyzer.SizeLabel(c) in d.sizes
    ensures d.patterns == s.patterns
  {
    Detailed(RoundSide(s.fide), RoundSide(s.quality), FormatSizes(s.sizes), FormatRounds(s.rounds), s.patterns)
  }

  /** The detailed section of an analysed list of results: a round entry
      for exactly the non-zero rounds played, a size entry for exactly the
      sizes that occur, and violation totals that sum every result's
      counts. */
  lemma DetailedOfAnalysis(rs: seq<Engine.ComparisonResult>, minSamples: int)
    requires rs != [] && minSamples != 0
    ensures Analyzer.Analyze(rs, minSamples).Success?
    ensures var d := DetailedAnalysis(Analyzer.Analyze(rs, minSamples).value);
            (forall n :: RoundKey(n) in d.rounds <==> n != 0 && exists i :: 0 <= i < |rs| && rs[i].round == n)
            && (forall c :: Analyzer.SizeLabel(c) in d.sizes <==> exists i :: 0 <= i < |rs| && Analyzer.InCategory(rs[i], c))
            && d.patterns.Some?
            && d.patterns.value.totalGambit == Analyzer.TotalOver(rs, true)
            && d.patterns.value.totalBbp == Analyzer.TotalOver(rs, false)
  {
  }

  // ----------------------------------------------- tournament breakdown

  /** One engine's metrics as shown. */
  datatype EngineEntry = EngineEntry(overall: real, fide: real, quality: real,
                                     violations: map<string, int>, timeMs: real)

  function EngineEntryOf(m: Engine.ComparisonMetrics): EngineEntry {
    EngineEntry(Round(m.overallScore, 2), Round(m.fideScore, 2), Round(m.qualityScore, 2),
                m.fideViolations, Round(m.computationTime, 2))
  }

  datatype Entry = Entry(tournamentId: string, round: int, winner: Option<Winner>, scoreDifference: real,
                         gambit: EngineEntry, bbp: EngineEntry, differences: Engine.Difference)

  function EntryOf(r: Engine.ComparisonResult): (e: Entry)
    ensures e.tournamentId == r.tournamentId && e.round == r.round && e.winner == r.winner
    ensures e.differences == r.differences && e.gambit.violations == r.gambitMetrics.fideViolations
  {
    Entry(r.tournamentId, r.round, r.winner, Round(r.scoreDifference, 2),
          EngineEntryOf(r.gambitMetrics), EngineEntryOf(r.bbpMetrics), r.differences)
  }

  /** `_generate_tournament_breakdown`: one entry per result, in order. */
  function Breakdown(rs: seq<Engine.ComparisonResult>): (b: seq<Entry>)
    ensures |b| == |rs|
    ensures forall i :: 0 <= i < |rs| ==> b[i] == EntryOf(rs[i])
  {
    if rs == [] then [] else [EntryOf(rs[0])] + Breakdown(rs[1..])
  }

  /** The breakdown of two lists of results, one after the other, is the
      two breakdowns one after the other. */
  lemma BreakdownAppend(a: seq<Engine.ComparisonResult>, b: seq<Engine.ComparisonResult>)
    ensures Breakdown(a + b) == Breakdown(a) + Breakdown(b)
  {
  }

  // -------------------------------------------- pairing difference totals

  function Different(d: Engine.Difference): nat {
    |d.gambitOnly| + |d.bbpOnly|
  }

  function TotalMatching(rs: seq<Engine.ComparisonResult>): nat {
    if rs == [] then 0 else rs[0].differences.matching + TotalMatching(rs[1..])
  }

  function TotalDifferent(rs: seq<Engine.ComparisonResult>): nat {
    if rs == [] then 0 else Different(rs[0].differences) + TotalDifferent(rs[1..])
  }

  function TotalColors(rs: seq<Engine.ComparisonResult>): nat {
    if rs == [] then 0 else |rs[0].differences.differentColors| + TotalColors(rs[1..])
  }

  datatype PairingAnalysis = PairingAnalysis(
    comparisons: nat, matching: nat, different: nat, colorDifferences: nat,
    matchingPercentage: real, averageMatching: real, averageDifferences: real)

  /** A share of a whole, 0 when the whole is empty. */
  function Share(part: nat, whole: nat): (r: real)
    ensures whole == 0 ==> r == 0.0
    ensures r >= 0.0
  {
    if whole > 0 then part as real / whole as real else 0.0
  }

  /** `_generate_pairing_analysis`. Every result carries its pairing
      differences, so every result is counted. */
  function PairingAnalysisOf(rs: seq<Engine.ComparisonResult>): (a: PairingAnalysis)
    ensures a.comparisons == |rs|
    ensures a.matching + a.different == 0 ==> a.matchingPercentage == 0.0
    ensures a.matchingPercentage >= 0.0
    ensures rs == [] ==> a.averageMatching == 0.0 && a.averageDifferences == 0.0
  {
    var m, d := TotalMatching(rs), TotalDifferent(rs);
    var pct := Share(m, m + d) * 100.0;
    RoundNonNegative(pct, 2);
    PairingAnalysis(|rs|, m, d, TotalColors(rs), Round(pct, 2),
                    Round(Share(m, |rs|), 2), Round(Share(d, |rs|), 2))
  }

  /** The pairs of both engines, counted once per engine. */
  function BothSides(rs: seq<Engine.ComparisonResult>): nat {
    if rs == [] then 0
    else |Engine.PairSet(rs[0].gambitPairings)| + |Engine.PairSet(rs[0].bbpPairings)| + BothSides(rs[1..])
  }

  /** When each result's differences were computed from its pairings, the
      matching pairs counted twice and the one-sided pairs make up all the
      pairs of both engines. */
  lemma {:induction false} PairingTotals(rs: seq<Engine.ComparisonResult>)
    requires forall i :: 0 <= i < |rs| ==>
               rs[i].differences == Engine.AnalyzeDifferences(rs[i].gambitPairings, rs[i].bbpPairings)
    ensures 2 * TotalMatching(rs) + TotalDifferent(rs) == BothSides(rs)
  {
    if rs != [] {
      PairingTotals(rs[1..]);
    }
  }

  /** Results whose engines paired alike have no differing pairs. */
  lemma {:induction false} IdenticalPairingsNoDifferences(rs: seq<Engine.ComparisonResult>)
    requires forall i :: 0 <= i < |rs| ==>
               rs[i].differences == Engine.AnalyzeDifferences(rs[i].gambitPairings, rs[i].gambitPairings)
    ensures TotalDifferent(rs) == 0 && TotalColors(rs) == 0
  {
    if rs != [] {
      Engine.AnalyzeSame(rs[0].gambitPairings);
      IdenticalPairingsNoDifferences(rs[1..]);
    }
  }

  // ----------------------------------------------- performance comparison

  datatype Faster = Faster(engine: Winner, advantageMs: real)

  datatype Performance = Performance(
    gambit: Option<Analyzer.Stats>, bbp: Option<Analyzer.Stats>, difference: Option<real>,
    faster: Option<Faster>)

  /** The faster engine by the rounded average times: Gambit only when its
      average shows strictly lower, the other engine otherwise. */
  function FasterOf(gambitAvg: real, bbpAvg: real): (f: Faster)
    ensures f.engine == Engine.Gambit ==> gambitAvg < bbpAvg
    ensures f.engine != Engine.Tie && f.advantageMs >= 0.0
  {
    var g, b := Round(gambitAvg, 2), Round(bbpAvg, 2);
    if g < b then
      assert gambitAvg < bbpAvg by {
        if gambitAvg >= bbpAvg {
          RoundMonotone(bbpAvg, gambitAvg, 2);
        }
      }
      RoundNonNegative(b - g, 2);
      Faster(Engine.Gambit, Round(b - g, 2))
    else
      RoundNonNegative(g - b, 2);
      Faster(Engine.Bbp, Round(g - b, 2))
  }

  /** An engine faster on average by a hundredth of a millisecond or more is
      reported as the faster one. */
  lemma ClearlyFaster(gambitAvg: real, bbpAvg: real)
    requires gambitAvg + 0.01 <= bbpAvg
    ensures FasterOf(gambitAvg, bbpAvg).engine == Engine.Gambit
  {
    Hundredth();
    RoundShift(gambitAvg, 2);
    RoundMonotone(gambitAvg + 0.01, bbpAvg, 2);
  }

  /** `_generate_performance_comparison`: the timing statistics rounded,
      and a faster engine only when both engines have timings. */
  function PerformanceOf(p: Analyzer.Side): (r: Performance)
    ensures r.faster.Some? <==> p.gambit.Some? && p.bbp.Some?
    ensures r.faster.Some? ==> r.faster.value.advantageMs >= 0.0 && r.faster.value.engine != Engine.Tie
    ensures r.faster.Some? && r.faster.value.engine == Engine.Gambit ==> p.gambit.value.mean < p.bbp.value.mean
  {
    Performance(RoundStats(p.gambit), RoundStats(p.bbp), OptionRound(p.difference, 2),
                if p.gambit.Some? && p.bbp.Some? then Some(FasterOf(p.gambit.value.mean, p.bbp.value.mean))
                else None)
  }

  // ------------------------------------------------------------ the report

  /** The metadata section, less its timestamp; the configuration appears
      only when one is given and not empty. */
  datatype Metadata = Metadata(totalTournaments: nat, fideWeight: real, qualityWeight: real,
                               version: string, configuration: Option<map<string, string>>)

  function MetadataOf(total: nat, fideWeight: real, qualityWeight: real,
                      configuration: Option<map<string, string>>): (m: Metadata)
    ensures m.totalTournaments == total
    ensures m.configuration.Some? <==> configuration.Some? && configuration.value != map[]
  {
    Metadata(total, fideWeight, qualityWeight, "1.0.0",
             if configuration.Some? && configuration.value != map[] then configuration else None)
  }

  /** The six sections of `generate_report`. */
  datatype Report = Report(
    metadata: Metadata, overall: Overall, detailed: Detailed,
    breakdown: seq<Entry>, pairings: PairingAnalysis, performance: Performance)

  function GenerateReport(rs: seq<Engine.ComparisonResult>, s: Analyzer.Summary,
                          configuration: Option<map<string, string>>, fideWeight: real, qualityWeight: real)
    : (r: Report)
    ensures r.metadata.totalTournaments == |rs| == |r.breakdown| == r.pairings.comparisons
    ensures r.overall.winner == OverallWinner(s)
    ensures forall i :: 0 <= i < |rs| ==> r.breakdown[i].tournamentId == rs[i].tournamentId
    ensures r.performance.faster.Some? <==> s.performance.gambit.Some? && s.performance.bbp.Some?
    ensures forall n :: n in s.rounds <==> RoundKey(n) in r.detailed.rounds
  {
    Report(MetadataOf(|rs|, fideWeight, qualityWeight, configuration), OverallResults(s),
           DetailedAnalysis(s), Breakdown(rs), PairingAnalysisOf(rs), PerformanceOf(s.performance))
  }

  /** Reporting an analysed list of results names as overall winner the
      engine that won more of them. */
  lemma ReportWinner(rs: seq<Engine.ComparisonResult>, minSamples: int, fw: real, qw: real)
    requires Analyzer.Analyze(rs, minSamples).Success?
    ensures var r := GenerateReport(rs, Analyzer.Analyze(rs, minSamples).value, None, fw, qw);
            r.overall.winner == Engine.Gambit
            <==> Analyzer.CountWinner(rs, Engine.Gambit) > Analyzer.CountWinner(rs, Engine.Bbp)
  {
    OverallWinnerFromCounts(rs, minSamples);
  }
}
