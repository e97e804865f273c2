/** The statistics over many rounds' comparisons,
    comparison/analyzer.py: win counts and rates, score-difference
    statistics, significance and confidence, breakdowns by tournament size
    and by round, and the violation patterns. */
module Analyzer {
  import opened Wrappers
  import Seqs
  import Sorting
  import Metrics
  import opened Engine

  // ------------------------------------------------------- statistics

  /** `statistics.mean` of a non-empty list. */
  function Mean(s: seq<real>): (m: real)
    requires |s| > 0
    ensures Seqs.Min(s) <= m <= Seqs.Max(s)
  {
    MeanBetweenExtremes(s);
    Seqs.Sum(s) / |s| as real
  }

  lemma MeanBetweenExtremes(s: seq<real>)
    requires |s| > 0
    ensures Seqs.Min(s) <= Seqs.Sum(s) / |s| as real <= Seqs.Max(s)
  {
    var lo, hi := Seqs.Min(s), Seqs.Max(s);
    Seqs.SumBounds(s, lo, hi);
    Metrics.MeanBounds(s, lo, hi);
  }

  function Single(x: real): seq<real> { [x] }

  /** `statistics.median`: the middle of the sorted list, or the mean of
      the two middle values when the length is even. */
  function Median(s: seq<real>): real
    requires |s| > 0
  {
    Middle(Sorting.SortBy(s, Single))
  }

  function Middle(t: seq<real>): real
    requires |t| > 0
  {
    var h := |t| / 2;
    if |t| % 2 == 1 then t[h] else (t[h - 1] + t[h]) / 2.0
  }

  /** The middle of a list whose values lie within bounds lies within them. */
  lemma MiddleBounds(t: seq<real>, lo: real, hi: real)
    requires |t| > 0 && forall i :: 0 <= i < |t| ==> lo <= t[i] <= hi
    ensures lo <= Middle(t) <= hi
  {
  }

  /** The median lies between the least and the greatest value. */
  lemma MedianBounds(s: seq<real>)
    requires |s| > 0
    ensures Seqs.Min(s) <= Median(s) <= Seqs.Max(s)
  {
    var t := Sorting.SortBy(s, Single);
    forall i | 0 <= i < |t| ensures Seqs.Min(s) <= t[i] <= Seqs.Max(s) {
      Within(s, t, i);
    }
    MiddleBounds(t, Seqs.Min(s), Seqs.Max(s));
  }

  /** Every element of a sorted copy lies between the least and the
      greatest value of the input. */
  lemma Within(s: seq<real>, t: seq<real>, i: nat)
    requires |s| > 0 && t == Sorting.SortBy(s, Single) && i < |t|
    ensures Seqs.Min(s) <= t[i] <= Seqs.Max(s)
  {
    Sorting.SortMember(s, Single, i);
    var j :| 0 <= j < |s| && s[j] == t[i];
  }

  // ------------------------------------------------------------- wins

  function CountWinner(rs: seq<ComparisonResult>, w: Winner): (n: nat)
    ensures n <= |rs|
  {
    if rs == [] then 0 else (if rs[0].winner == Some(w) then 1 else 0) + CountWinner(rs[1..], w)
  }

  /** Results whose winner is neither engine, an undetermined one
      included. */
  function CountOthers(rs: seq<ComparisonResult>): (n: nat)
    ensures n <= |rs|
  {
    if rs == [] then 0
    else (if rs[0].winner != Some(Gambit) && rs[0].winner != Some(Bbp) then 1 else 0) + CountOthers(rs[1..])
  }

  /** Every result counts once: for the one engine, the other, or a tie. */
  lemma {:induction false} CountsPartition(rs: seq<ComparisonResult>)
    ensures CountWinner(rs, Gambit) + CountWinner(rs, Bbp) + CountOthers(rs) == |rs|
  {
    if rs != [] {
      CountsPartition(rs[1..]);
    }
  }

  /** Only results with a determined tie count in a breakdown's ties. */
  lemma {:induction false} TiesAtMostOthers(rs: seq<ComparisonResult>)
    ensures CountWinner(rs, Tie) <= CountOthers(rs)
  {
    if rs != [] {
      TiesAtMostOthers(rs[1..]);
    }
  }

  function Rate(n: nat, total: nat): (r: real)
    ensures total == 0 ==> r == 0.0
    ensures n <= total ==> 0.0 <= r <= 1.0
  {
    if total > 0 then
      assert n as real / total as real * total as real == n as real;
      n as real / total as real
    else 0.0
  }

  // ------------------------------------------- significance, confidence

  /** The error both measures raise when they divide by a number of
      comparisons, or by a threshold, of 0 (`ZeroDivisionError`). */
  datatype AnalysisError = ZeroDivision

  /** `_calculate_significance`: nothing below the sample threshold, then
      the distance of Gambit's win rate from one half, doubled and scaled
      by the sample size relative to the threshold, at most 1. The
      threshold is any integer: 0 divides by zero, and a negative one turns
      the scale factor negative. */
  function Significance(rs: seq<ComparisonResult>, minSamples: int): (r: Result<real, AnalysisError>)
    ensures r.Failure? <==> |rs| >= minSamples && (|rs| == 0 || minSamples == 0)
    ensures |rs| < minSamples ==> r == Success(0.0)
    ensures r.Success? && minSamples > 0 ==> 0.0 <= r.value <= 1.0
    ensures r.Success? && minSamples < 0 ==> r.value <= 0.0
  {
    var n := |rs|;
    if n < minSamples then Success(0.0)
    else if n == 0 || minSamples == 0 then Failure(ZeroDivision)
    else Success(Scaled(CountWinner(rs, Gambit) as real / n as real, n as real / minSamples as real))
  }

  /** `min(1.0, (deviation * 2) * (n / min_samples))`. */
  function Scaled(rate: real, size: real): (s: real)
    ensures s <= 1.0
    ensures size >= 0.0 ==> 0.0 <= s
    ensures size <= 0.0 ==> s <= 0.0
  {
    var d := Metrics.AbsReal(rate - 0.5) * 2.0;
    assert size <= 0.0 ==> d * size <= 0.0 by {
      if size <= 0.0 { assert d * (0.0 - size) >= 0.0; }
    }
    var scaled := d * size;
    if 1.0 < scaled then 1.0 else scaled
  }

  /** A clean sweep by either engine over at least the threshold is fully
      significant ... */
  lemma SignificanceSweep(rs: seq<ComparisonResult>, minSamples: int)
    requires 0 < minSamples <= |rs|
    requires CountWinner(rs, Gambit) == |rs| || CountWinner(rs, Gambit) == 0
    ensures Significance(rs, minSamples) == Success(1.0)
  {
    var n, m := |rs| as real, minSamples as real;
    AtLeastOne(n, m);
    var g := CountWinner(rs, Gambit) as real;
    if g == n {
      DivSelf(n);
    } else {
      ZeroQuotient(n);
    }
    assert Scaled(g / n, n / m) == 1.0;
  }

  /** ... and an even split is not significant at all, whatever the
      non-zero threshold. */
  lemma SignificanceEvenSplit(rs: seq<ComparisonResult>, minSamples: int)
    requires |rs| > 0 && minSamples != 0 && 2 * CountWinner(rs, Gambit) == |rs|
    ensures Significance(rs, minSamples) == Success(0.0)
  {
    var n := |rs| as real;
    if |rs| >= minSamples {
      Half(CountWinner(rs, Gambit) as real, n);
      assert Scaled(0.5, n / minSamples as real) == 0.0;
    }
  }

  lemma AtLeastOne(n: real, m: real)
    requires 0.0 < m <= n
    ensures n / m >= 1.0
  {
    assert n / m * m == n;
  }

  lemma ZeroQuotient(n: real)
    requires n > 0.0
    ensures 0.0 / n == 0.0
  {
  }

  lemma Half(g: real, n: real)
    requires n > 0.0 && 2.0 * g == n
    ensures g / n == 0.5
  {
    assert g / n * n == g;
  }

  /** `_calculate_confidence_level`: one half below the threshold, then
      one half moved towards the leading engine's win share as the sample
      grows to three times the threshold, kept within [0.5, 0.99]. A total
      of 0, or a threshold of 0, that reaches the division raises. */
  function Confidence(total: nat, gambitWins: nat, bbpWins: nat, minSamples: int): (r: Result<real, AnalysisError>)
    ensures r.Failure? <==> total >= minSamples && (total == 0 || minSamples == 0)
    ensures total < minSamples ==> r == Success(0.5)
    ensures r.Success? ==> 0.5 <= r.value <= 0.99
  {
    if total < minSamples then Success(0.5)
    else if total == 0 || minSamples == 0 then Failure(ZeroDivision)
    else
      var leading := if gambitWins >= bbpWins then gambitWins else bbpWins;
      var share := leading as real / total as real;
      var factor := if 1.0 < total as real / (minSamples as real * 3.0) then 1.0
                    else total as real / (minSamples as real * 3.0);
      var confidence := 0.5 + (share - 0.5) * factor;
      var floor := if 0.5 < confidence then confidence else 0.5;
      Success(if 0.99 < floor then 0.99 else floor)
  }

  /** A clean sweep over at least three times the threshold gives the
      highest confidence. */
  lemma ConfidenceSweep(total: nat, minSamples: int)
    requires 0 < minSamples && 3 * minSamples <= total
    ensures Confidence(total, total, 0, minSamples) == Success(0.99)
  {
    var t, m := total as real, minSamples as real * 3.0;
    AtLeastOne(t, m);
    DivSelf(t);
  }

  // --------------------------------------------------------- breakdowns

  datatype SizeCategory = Small | Medium | Large

  /** Up to 4 pairs is small, up to 12 medium, anything more large. */
  function SizeOf(pairs: nat): (c: SizeCategory)
    ensures c == Small <==> pairs <= 4
    ensures c == Medium <==> 4 < pairs <= 12
    ensures c == Large <==> 12 < pairs
  {
    if pairs <= 4 then Small else if pairs <= 12 then Medium else Large
  }

  /** The label the size breakdown uses. */
  function SizeLabel(c: SizeCategory): string {
    match c
    case Small => "small (8-16)"
    case Medium => "medium (17-32)"
    case Large => "large (33+)"
  }

  /** The statistics of one group of results. */
  datatype Bucket = Bucket(total: nat, gambitWins: nat, bbpWins: nat, ties: nat, gambitRate: real, bbpRate: real)

  function BucketOf(rs: seq<ComparisonResult>): (b: Bucket)
    ensures b.total == |rs|
    ensures b.gambitWins + b.bbpWins + b.ties <= b.total
    ensures 0.0 <= b.gambitRate <= 1.0 && 0.0 <= b.bbpRate <= 1.0
  {
    CountsPartition(rs);
    TiesAtMostOthers(rs);
    var g, b := CountWinner(rs, Gambit), CountWinner(rs, Bbp);
    Bucket(|rs|, g, b, CountWinner(rs, Tie), Rate(g, |rs|), Rate(b, |rs|))
  }

  function PairCount(r: ComparisonResult): nat { |r.gambitPairings| }

  predicate InCategory(r: ComparisonResult, c: SizeCategory) {
    SizeOf(PairCount(r)) == c
  }

  function OfCategory(rs: seq<ComparisonResult>, c: SizeCategory): (g: seq<ComparisonResult>)
    ensures forall i :: 0 <= i < |g| ==> InCategory(g[i], c) && g[i] in rs
    ensures forall i :: 0 <= i < |rs| && InCategory(rs[i], c) ==> rs[i] in g
    ensures g == [] <==> forall i :: 0 <= i < |rs| ==> !InCategory(rs[i], c)
  {
    if rs == [] then []
    else
      var rest := OfCategory(rs[1..], c);
      assert forall i :: 1 <= i < |rs| ==> rs[i] == rs[1..][i - 1];
      if InCategory(rs[0], c) then [rs[0]] + rest else rest
  }

  /** `_analyze_by_tournament_size`: a bucket for each size that occurs,
      by the number of Gambit's pairs. */
  function SizePerformance(rs: seq<ComparisonResult>): (m: map<SizeCategory, Bucket>)
    ensures forall c :: c in m <==> exists i :: 0 <= i < |rs| && InCategory(rs[i], c)
    ensures forall c :: c in m ==> m[c] == BucketOf(OfCategory(rs, c))
  {
    map c | c in {Small, Medium, Large} && OfCategory(rs, c) != [] :: BucketOf(OfCategory(rs, c))
  }

  /** The size groups split the results: their totals add up to the
      number of results. */
  lemma {:induction false} SizeGroupsPartition(rs: seq<ComparisonResult>)
    ensures |OfCategory(rs, Small)| + |OfCategory(rs, Medium)| + |OfCategory(rs, Large)| == |rs|
  {
    if rs != [] {
      SizeGroupsPartition(rs[1..]);
    }
  }

  /** Python's truth value of a round number: none and 0 are false. */
  predicate HasRound(r: ComparisonResult) {
    r.round != 0
  }

  function OfRound(rs: seq<ComparisonResult>, n: int): (g: seq<ComparisonResult>)
    ensures forall i :: 0 <= i < |g| ==> g[i].round == n && g[i] in rs
    ensures forall i :: 0 <= i < |rs| && rs[i].round == n ==> rs[i] in g
  {
    if rs == [] then []
    else
      var rest := OfRound(rs[1..], n);
      assert forall i :: 1 <= i < |rs| ==> rs[i] == rs[1..][i - 1];
      if rs[0].round == n then [rs[0]] + rest else rest
  }

  /** `_analyze_by_round`: a bucket for each non-zero round number. */
  function RoundPerformance(rs: seq<ComparisonResult>): (m: map<int, Bucket>)
    ensures forall n :: n in m <==> n != 0 && exists i :: 0 <= i < |rs| && rs[i].round == n
    ensures forall n :: n in m ==> m[n] == BucketOf(OfRound(rs, n)) && m[n].total > 0
  {
    var rounds := set i | 0 <= i < |rs| && HasRound(rs[i]) :: rs[i].round;
    map n | n in rounds :: BucketOf(OfRound(rs, n))
  }

  // --------------------------------------------------------- summaries

  /** The statistics dictionary of one list of values: empty when the list
      is. */
  datatype Stats = Stats(mean: real, median: real, min: real, max: real)

  function StatsOf(s: seq<real>): (r: Option<Stats>)
    ensures r.None? <==> s == []
    ensures r.Some? ==> r.value.min <= r.value.mean <= r.value.max
  {
    if s == [] then None else Some(Stats(Mean(s), Median(s), Seqs.Min(s), Seqs.Max(s)))
  }

  /** Two engines' statistics and the difference of their means when both
      exist. */
  datatype Side = Side(gambit: Option<Stats>, bbp: Option<Stats>, difference: Option<real>)

  function SideOf(g: seq<real>, b: seq<real>): (r: Side)
    ensures r.difference.Some? <==> g != [] && b != []
    ensures r.difference.Some? ==>
              r.gambit.Some? && r.bbp.Some? && r.difference.value == r.gambit.value.mean - r.bbp.value.mean
  {
    var gs, bs := StatsOf(g), StatsOf(b);
    Side(gs, bs, if gs.Some? && bs.Some? then Some(gs.value.mean - bs.value.mean) else None)
  }

  function FideScores(rs: seq<ComparisonResult>, gambit: bool): (s: seq<real>)
    ensures |s| == |rs|
  {
    seq(|rs|, i requires 0 <= i < |rs| =>
      if gambit then rs[i].gambitMetrics.fideScore else rs[i].bbpMetrics.fideScore)
  }

  function QualityScores(rs: seq<ComparisonResult>, gambit: bool): (s: seq<real>)
    ensures |s| == |rs|
  {
    seq(|rs|, i requires 0 <= i < |rs| =>
      if gambit then rs[i].gambitMetrics.qualityScore else rs[i].bbpMetrics.qualityScore)
  }

  function Times(rs: seq<ComparisonResult>, gambit: bool): (s: seq<real>)
    ensures |s| == |rs|
  {
    seq(|rs|, i requires 0 <= i < |rs| =>
      if gambit then rs[i].gambitMetrics.computationTime else rs[i].bbpMetrics.computationTime)
  }

  function ScoreDifferences(rs: seq<ComparisonResult>): (s: seq<real>)
    ensures |s| == |rs|
  {
    seq(|rs|, i requires 0 <= i < |rs| => rs[i].scoreDifference)
  }

  /** A `StatisticalSummary`; the standard deviation is left out. The
      violation patterns are absent from the summary of no results, where
      the source keeps the empty default dictionary. */
  datatype Summary = Summary(
    total: nat, gambitWins: nat, bbpWins: nat, ties: nat,
    gambitRate: real, bbpRate: real, tieRate: real,
    differences: Option<Stats>, significance: real, confidence: real,
    fide: Side, quality: Side,
    sizes: map<SizeCategory, Bucket>, rounds: map<int, Bucket>,
    patterns: Option<Patterns>, performance: Side)

  const EmptySide := Side(None, None, None)

  /** The summary of no results: every count and statistic 0 or absent. */
  const EmptySummary := Summary(0, 0, 0, 0, 0.0, 0.0, 0.0, None, 0.0, 0.0, EmptySide, EmptySide,
                                map[], map[], None, EmptySide)

  /** `StatisticalAnalyzer.analyze`, with the analyzer's sample threshold.
      It raises exactly when there are results and the threshold is 0. */
  ghost function Analyze(rs: seq<ComparisonResult>, minSamples: int): (r: Result<Summary, AnalysisError>)
    ensures rs == [] ==> r == Success(EmptySummary)
    ensures r.Failure? <==> rs != [] && minSamples == 0
    ensures r.Success? ==>
              var s := r.value;
              s.total == |rs|
              && s.gambitWins + s.bbpWins + s.ties == s.total
              && s.gambitWins == CountWinner(rs, Gambit) && s.bbpWins == CountWinner(rs, Bbp)
              && s.gambitRate == Rate(s.gambitWins, s.total) && s.bbpRate == Rate(s.bbpWins, s.total)
              && (minSamples > 0 ==> 0.0 <= s.significance <= 1.0)
              && (minSamples < 0 ==> s.significance <= 0.0)
              && (rs != [] ==> 0.5 <= s.confidence <= 0.99)
              && (rs != [] ==> s.gambitRate + s.bbpRate + s.tieRate == 1.0)
              && s.rounds == RoundPerformance(rs) && s.sizes == SizePerformance(rs)
              && (rs != [] ==> s.patterns == Some(ViolationPatterns(rs)))
  {
    if rs == [] then Success(EmptySummary)
    else
      var n := |rs|;
      var g, b := CountWinner(rs, Gambit), CountWinner(rs, Bbp);
      CountsPartition(rs);
      var t := n - g - b;
      RatesSum(g, b, t, n);
      if minSamples == 0 then Failure(ZeroDivision)
      else
      var significance := Significance(rs, minSamples).value;
      var confidence := Confidence(n, g, b, minSamples).value;
      Success(Summary(n, g, b, t, Rate(g, n), Rate(b, n), Rate(t, n),
                      StatsOf(ScoreDifferences(rs)), significance, confidence,
                      SideOf(FideScores(rs, true), FideScores(rs, false)),
                      SideOf(QualityScores(rs, true), QualityScores(rs, false)),
                      SizePerformance(rs), RoundPerformance(rs),
                      Some(ViolationPatterns(rs)),
                      SideOf(Times(rs, true), Times(rs, false))))
  }

  /** Three counts that make up a positive total have rates adding to one. */
  lemma RatesSum(g: nat, b: nat, t: nat, total: nat)
    requires g + b + t == total > 0
    ensures Rate(g, total) + Rate(b, total) + Rate(t, total) == 1.0
  {
    var n := total as real;
    AddQuotients(g as real, b as real, n);
    AddQuotients(g as real + b as real, t as real, n);
    DivSelf(n);
  }

  lemma AddQuotients(a: real, b: real, n: real)
    requires n != 0.0
    ensures a / n + b / n == (a + b) / n
  {
  }

  /** The score differences' least value, mean and greatest value are in
      order. */
  lemma DifferenceStatsOrdered(rs: seq<ComparisonResult>, minSamples: int)
    requires minSamples != 0 && rs != []
    ensures Analyze(rs, minSamples).Success?
    ensures var d := Analyze(rs, minSamples).value.differences;
            d.Some? && d.value.min <= d.value.mean <= d.value.max
            && d.value.min <= d.value.median <= d.value.max
  {
    MedianBounds(ScoreDifferences(rs));
  }

  // -------------------------------------------------- violation patterns

  function Get(m: map<string, int>, k: string): int {
    if k in m then m[k] else 0
  }

  /** Adding one criterion's count to the running totals. */
  function AddCount(acc: map<string, int>, k: string, c: int): (r: map<string, int>)
    ensures r.Keys == acc.Keys + {k}
  {
    acc[k := Get(acc, k) + c]
  }

  /** Adding every count of a result to the running totals, one criterion
      at a time as the loop over `fide_violations.items()` does; the order
      of the items does not matter. */
  ghost function Merge(acc: map<string, int>, m: map<string, int>): (r: map<string, int>)
    ensures r.Keys == acc.Keys + m.Keys
    ensures forall j :: j in r ==> r[j] == Get(acc, j) + Get(m, j)
    decreases m.Keys
  {
    if m.Keys == {} then acc
    else
      var k := Pick(m);
      var m' := m - {k};
      assert m'.Keys == m.Keys - {k};
      var r := Merge(AddCount(acc, k, m[k]), m');
      assert forall j :: j in r ==> r[j] == Get(acc, j) + Get(m, j) by {
        forall j | j in r ensures r[j] == Get(acc, j) + Get(m, j) {
          if j != k {
            assert Get(m', j) == Get(m, j);
          }
        }
      }
      r
  }

  /** Some key of a non-empty dictionary, the one the fold takes first. */
  ghost function Pick(m: map<string, int>): (k: string)
    requires m.Keys != {}
    ensures k in m
  {
    var k :| k in m.Keys; k
  }

  /** The sum of a dictionary's values. */
  ghost function SumValues(m: map<string, int>): int
    decreases |m.Keys|
  {
    if m == map[] then 0
    else
      var k :| k in m;
      m[k] + SumValues(m - {k})
  }

  /** Any key can be taken out first. */
  lemma {:induction false} SumValuesRemove(m: map<string, int>, k: string)
    requires k in m
    ensures SumValues(m) == m[k] + SumValues(m - {k})
    decreases |m.Keys|
  {
    var j :| j in m && SumValues(m) == m[j] + SumValues(m - {j});
    if j != k {
      var mj := m - {j};
      var mk := m - {k};
      SumValuesRemove(mj, k);
      SumValuesRemove(mk, j);
      assert mj - {k} == mk - {j};
    }
  }

  /** Adding one count adds it to the total. */
  lemma SumValuesAdd(acc: map<string, int>, k: string, c: int)
    ensures SumValues(AddCount(acc, k, c)) == SumValues(acc) + c
  {
    var acc' := AddCount(acc, k, c);
    SumValuesRemove(acc', k);
    if k in acc {
      SumValuesRemove(acc, k);
      assert acc' - {k} == acc - {k};
    } else {
      assert acc' - {k} == acc;
    }
  }

  /** Merging a dictionary is merging one of its keys, then the rest. */
  lemma MergeStep(acc: map<string, int>, m: map<string, int>, k: string)
    requires k in m
    ensures Merge(acc, m) == Merge(AddCount(acc, k, m[k]), m - {k})
  {
    var r, r' := Merge(acc, m), Merge(AddCount(acc, k, m[k]), m - {k});
    assert r.Keys == r'.Keys;
    forall j | j in r ensures r[j] == r'[j] {
      if j == k {
        assert r'[j] == Get(acc, k) + m[k] + 0;
      } else {
        assert r'[j] == Get(acc, j) + Get(m - {k}, j);
      }
    }
  }

  /** Merging adds the totals. */
  lemma {:induction false} SumValuesMerge(acc: map<string, int>, m: map<string, int>)
    ensures SumValues(Merge(acc, m)) == SumValues(acc) + SumValues(m)
    decreases |m.Keys|
  {
    if m == map[] {
      assert Merge(acc, m) == acc;
    } else {
      var k :| k in m;
      MergeStep(acc, m, k);
      SumValuesMerge(AddCount(acc, k, m[k]), m - {k});
      SumValuesAdd(acc, k, m[k]);
      SumValuesRemove(m, k);
    }
  }

  function Violations(r: ComparisonResult, gambit: bool): map<string, int> {
    if gambit then r.gambitMetrics.fideViolations else r.bbpMetrics.fideViolations
  }

  /** The per-criterion totals over all results of one engine. */
  ghost function Pattern(rs: seq<ComparisonResult>, gambit: bool): (m: map<string, int>)
    ensures forall k :: k in m <==> exists i :: 0 <= i < |rs| && k in Violations(rs[i], gambit)
    decreases |rs|
  {
    if rs == [] then map[]
    else
      var init := rs[..|rs| - 1];
      assert forall i :: 0 <= i < |init| ==> init[i] == rs[i];
      Merge(Pattern(init, gambit), Violations(rs[|rs| - 1], gambit))
  }

  /** `_analyze_violation_patterns`. */
  datatype Patterns = Patterns(gambit: map<string, int>, bbp: map<string, int>, totalGambit: int, totalBbp: int)

  ghost function ViolationPatterns(rs: seq<ComparisonResult>): (p: Patterns)
    ensures p.totalGambit == TotalOver(rs, true) && p.totalBbp == TotalOver(rs, false)
    ensures forall k :: k in p.gambit <==> exists i :: 0 <= i < |rs| && k in Violations(rs[i], true)
    ensures forall k :: k in p.bbp <==> exists i :: 0 <= i < |rs| && k in Violations(rs[i], false)
  {
    PatternTotals(rs, true);
    PatternTotals(rs, false);
    var g, b := Pattern(rs, true), Pattern(rs, false);
    Patterns(g, b, SumValues(g), SumValues(b))
  }

  ghost function TotalOver(rs: seq<ComparisonResult>, gambit: bool): int
    decreases |rs|
  {
    if rs == [] then 0 else TotalOver(rs[..|rs| - 1], gambit) + SumValues(Violations(rs[|rs| - 1], gambit))
  }

  /** Each engine's total is the sum of every result's violation counts. */
  lemma {:induction false} PatternTotals(rs: seq<ComparisonResult>, gambit: bool)
    ensures SumValues(Pattern(rs, gambit)) == TotalOver(rs, gambit)
    decreases |rs|
  {
    if rs != [] {
      var init := rs[..|rs| - 1];
      PatternTotals(init, gambit);
      SumValuesMerge(Pattern(init, gambit), Violations(rs[|rs| - 1], gambit));
    }
  }
}
