/** The scoring of a pairing engine in the comparison tool,
    comparison/metrics.py: a FIDE-compliance score from the checker's
    violations, a weighted quality score, their weighted combination, and
    the quality metrics computed from a round's pairings. Every score lies
    in [0, 100]. */
module Metrics {
  import opened Wrappers
  import opened Colors
  import opened Players
  import Seqs
  import Fpc

  /** `max(0.0, min(100.0, x))`. */
  function Clamp(x: real): (r: real)
    ensures 0.0 <= r <= 100.0
    ensures 0.0 <= x <= 100.0 ==> r == x
    ensures x < 0.0 ==> r == 0.0
    ensures x > 100.0 ==> r == 100.0
  {
    if x < 0.0 then 0.0 else if x > 100.0 then 100.0 else x
  }

  // ---------------------------------------------------------- FIDE score

  /** `VIOLATION_PENALTIES.get(criterion_id, -1)` for criterion "C<n>". */
  function Penalty(n: nat): (p: int)
    ensures p < 0
    ensures !(1 <= n <= 21) ==> p == -1
  {
    match n
    case 1 => -50  case 2 => -100  case 3 => -40  case 4 => -15
    case 5 => -10  case 6 => -5    case 7 => -8   case 8 => -7
    case 9 => -6   case 10 => -5   case 11 => -4  case 12 => -3
    case 13 => -12 case 14 => -8   case 15 => -6  case 16 => -5
    case 17 => -4  case 18 => -3   case 19 => -2  case 20 => -2
    case 21 => -1
    case _ => -1
  }

  /** The entry's `violation_count`, 1 when its details do not give one. */
  function ViolationCount(v: Fpc.CriterionResult): int {
    v.violationCount.GetOr(1)
  }

  function Min(a: int, b: int): int { if a <= b then a else b }

  /** What one entry of the report changes in the FIDE score: nothing
      unless it is a violation; the full penalty per counted violation for
      an absolute one; a tenth of the penalty per counted violation, at
      most ten counted, otherwise. */
  function Deduction(v: Fpc.CriterionResult): (d: real)
    ensures v.status != Fpc.Violation ==> d == 0.0
    ensures v.status == Fpc.Violation && v.kind == Some(Fpc.Absolute) ==>
              d == (Penalty(v.criterion) * ViolationCount(v)) as real
    ensures v.status == Fpc.Violation && v.kind != Some(Fpc.Absolute) ==>
              d == Penalty(v.criterion) as real * Min(ViolationCount(v), 10) as real / 10.0
  {
    if v.status != Fpc.Violation then 0.0
    else if v.kind == Some(Fpc.Absolute) then (Penalty(v.criterion) * ViolationCount(v)) as real
    else Penalty(v.criterion) as real * (Min(ViolationCount(v), 10) as real / 10.0)
  }

  function Deductions(vs: seq<Fpc.CriterionResult>): (r: seq<real>)
    ensures |r| == |vs| && forall i :: 0 <= i < |vs| ==> r[i] == Deduction(vs[i])
  {
    seq(|vs|, i requires 0 <= i < |vs| => Deduction(vs[i]))
  }

  /** `calculate_fide_score`: 100 less the deductions of the report's
      violations, clamped to [0, 100]. */
  function FideScore(violations: seq<Fpc.CriterionResult>): (s: real)
    ensures 0.0 <= s <= 100.0
  {
    Clamp(100.0 + Seqs.Sum(Deductions(violations)))
  }

  /** A report without a violation entry scores 100. */
  lemma FideScoreClean(violations: seq<Fpc.CriterionResult>)
    requires forall i :: 0 <= i < |violations| ==> violations[i].status != Fpc.Violation
    ensures FideScore(violations) == 100.0
  {
    var d := Deductions(violations);
    Seqs.SumBounds(d, 0.0, 0.0);
  }

  /** Deductions never raise the score when the counts are not negative. */
  lemma DeductionNonPositive(v: Fpc.CriterionResult)
    requires ViolationCount(v) >= 0
    ensures Deduction(v) <= 0.0
  {
  }

  /** A second bye (C2, the heaviest penalty) flagged as absolute takes
      the score to 0, whatever else the report holds, as long as no count
      is negative. */
  lemma SecondByeZero(violations: seq<Fpc.CriterionResult>, i: nat)
    requires i < |violations|
    requires forall k :: 0 <= k < |violations| ==> ViolationCount(violations[k]) >= 0
    requires violations[i].status == Fpc.Violation && violations[i].kind == Some(Fpc.Absolute)
    requires violations[i].criterion == 2 && ViolationCount(violations[i]) >= 1
    ensures FideScore(violations) == 0.0
  {
    var d := Deductions(violations);
    forall k | 0 <= k < |d| ensures d[k] <= 0.0 {
      DeductionNonPositive(violations[k]);
    }
    SumAtMostOne(d, i);
  }

  /** A sum of non-positive terms is at most any one of them. */
  lemma {:induction false} SumAtMostOne(d: seq<real>, i: nat)
    requires i < |d| && forall k :: 0 <= k < |d| ==> d[k] <= 0.0
    ensures Seqs.Sum(d) <= d[i]
  {
    var n := |d| - 1;
    if i == n {
      assert forall k :: 0 <= k < n ==> d[..n][k] == d[k];
      NonPositiveSum(d[..n]);
    } else {
      assert forall k :: 0 <= k < n ==> d[..n][k] == d[k];
      SumAtMostOne(d[..n], i);
    }
  }

  lemma {:induction false} NonPositiveSum(d: seq<real>)
    requires forall k :: 0 <= k < |d| ==> d[k] <= 0.0
    ensures Seqs.Sum(d) <= 0.0
  {
    if |d| > 0 {
      assert forall k :: 0 <= k < |d| - 1 ==> d[..|d| - 1][k] == d[k];
      NonPositiveSum(d[..|d| - 1]);
    }
  }

  // ------------------------------------------------------- quality score

  /** `QualityMetrics`. */
  datatype Quality = Quality(
    psd: real, colorBalance: real, bracketCompliance: real,
    floatOptimization: real, tiebreakConsistency: real, efficiency: real)

  /** A weights dictionary with all six keys. */
  datatype Weights = Weights(
    psd: real, colorBalance: real, bracketCompliance: real,
    floatOptimization: real, tiebreakConsistency: real, efficiency: real)

  /** `QUALITY_WEIGHTS`. */
  const DefaultWeights := Weights(0.35, 0.25, 0.20, 0.10, 0.05, 0.05)

  /** `max(0, 100 - psd * 50)`: a PSD of 0 scores 100, of 2 or more 0. */
  function PsdNormalized(psd: real): (r: real)
    ensures r >= 0.0
    ensures psd >= 0.0 ==> r <= 100.0
    ensures psd == 0.0 ==> r == 100.0
    ensures psd >= 2.0 ==> r == 0.0
  {
    if 100.0 - psd * 50.0 < 0.0 then 0.0 else 100.0 - psd * 50.0
  }

  /** The weighted sum before clamping. */
  function Weighted(q: Quality, w: Weights): real {
    Term(PsdNormalized(q.psd), w.psd)
    + Term(q.colorBalance, w.colorBalance)
    + Term(q.bracketCompliance, w.bracketCompliance)
    + Term(q.floatOptimization, w.floatOptimization)
    + Term(q.tiebreakConsistency, w.tiebreakConsistency)
    + Term(q.efficiency, w.efficiency)
  }

  /** `calculate_quality_score`: the weighted metrics, clamped. */
  function QualityScore(q: Quality, w: Weights): (s: real)
    ensures 0.0 <= s <= 100.0
  {
    Clamp(Weighted(q, w))
  }

  predicate NonNegative(w: Weights) {
    w.psd >= 0.0 && w.colorBalance >= 0.0 && w.bracketCompliance >= 0.0
    && w.floatOptimization >= 0.0 && w.tiebreakConsistency >= 0.0 && w.efficiency >= 0.0
  }

  /** `q1` is no better than `q2` on any metric (a higher PSD is worse). */
  predicate NoBetter(q1: Quality, q2: Quality) {
    q1.psd >= q2.psd && q1.colorBalance <= q2.colorBalance
    && q1.bracketCompliance <= q2.bracketCompliance && q1.floatOptimization <= q2.floatOptimization
    && q1.tiebreakConsistency <= q2.tiebreakConsistency && q1.efficiency <= q2.efficiency
  }

  /** With non-negative weights, improving metrics never lowers the score. */
  lemma QualityMonotone(q1: Quality, q2: Quality, w: Weights)
    requires NonNegative(w) && NoBetter(q1, q2)
    ensures QualityScore(q1, w) <= QualityScore(q2, w)
  {
    assert PsdNormalized(q1.psd) <= PsdNormalized(q2.psd);
    MulMono(PsdNormalized(q1.psd), PsdNormalized(q2.psd), w.psd);
    MulMono(q1.colorBalance, q2.colorBalance, w.colorBalance);
    MulMono(q1.bracketCompliance, q2.bracketCompliance, w.bracketCompliance);
    MulMono(q1.floatOptimization, q2.floatOptimization, w.floatOptimization);
    MulMono(q1.tiebreakConsistency, q2.tiebreakConsistency, w.tiebreakConsistency);
    MulMono(q1.efficiency, q2.efficiency, w.efficiency);
  }

  /** One weighted metric. */
  function Term(x: real, weight: real): real {
    x * weight
  }

  lemma MulMono(a: real, b: real, w: real)
    requires a <= b && w >= 0.0
    ensures Term(a, w) <= Term(b, w)
  {
  }

  /** The default weights sum to 1, so perfect metrics score 100. */
  lemma PerfectQuality()
    ensures QualityScore(Quality(0.0, 100.0, 100.0, 100.0, 100.0, 100.0), DefaultWeights) == 100.0
  {
  }

  // ------------------------------------------------------- overall score

  /** `calculate_overall_score`: the weights are normalised to sum to 1
      when their sum is positive, and the weighted sum is clamped. */
  function OverallScore(fide: real, quality: real, fideWeight: real, qualityWeight: real): (s: real)
    ensures 0.0 <= s <= 100.0
  {
    var total := fideWeight + qualityWeight;
    Clamp(fide * Share(fideWeight, total) + quality * Share(qualityWeight, total))
  }

  /** One weight's share of a positive total; the weight itself otherwise. */
  function Share(w: real, total: real): real {
    if total > 0.0 then w / total else w
  }

  const FideWeight: real := 0.7
  const QualityWeight: real := 0.3

  /** Only the ratio of two weights with a positive sum matters. */
  lemma OverallScaleInvariant(fide: real, quality: real, fw: real, qw: real, k: real)
    requires fw + qw > 0.0 && k > 0.0
    ensures OverallScore(fide, quality, k * fw, k * qw) == OverallScore(fide, quality, fw, qw)
  {
    var t := fw + qw;
    var kf, kq := k * fw, k * qw;
    assert kf + kq == k * t;
    assert Share(kf, kf + kq) == Share(fw, t) by { DivScale(fw, t, k); }
    assert Share(kq, kf + kq) == Share(qw, t) by { DivScale(qw, t, k); }
  }

  lemma DivScale(x: real, t: real, k: real)
    requires t != 0.0 && k != 0.0
    ensures (k * x) / (k * t) == x / t
  {
    var a := x / t;
    assert a * t == x;
    assert a * (k * t) == k * x;
  }

  /** Equal scores within [0, 100] combine to themselves. */
  lemma OverallOfEqual(s: real, fw: real, qw: real)
    requires 0.0 <= s <= 100.0 && fw + qw > 0.0
    ensures OverallScore(s, s, fw, qw) == s
  {
    var t := fw + qw;
    var a, b := fw / t, qw / t;
    assert a * t == fw && b * t == qw;
    assert (a + b) * t == a * t + b * t;
    assert a + b == 1.0;
    assert s * a + s * b == s * (a + b);
  }

  // ---------------------------------------------------- pairing metrics

  /** A pairing names each player by object or by id. */
  datatype Ref = Obj(player: Player) | Id(id: string)

  /** `white if isinstance(white, Player) else players_by_id.get(white)`. */
  function Resolve(r: Ref, byId: map<string, Player>): Option<Player> {
    match r
    case Obj(p) => Some(p)
    case Id(id) => if id in byId then Some(byId[id]) else None
  }

  /** The pairings whose two players both resolve, as players. */
  function Resolved(pairings: seq<(Ref, Ref)>, byId: map<string, Player>): (r: seq<(Player, Player)>)
    ensures |r| <= |pairings|
    ensures (forall i :: 0 <= i < |pairings| ==>
               Resolve(pairings[i].0, byId).Some? && Resolve(pairings[i].1, byId).Some?) ==> |r| == |pairings|
  {
    if pairings == [] then []
    else
      var rest := Resolved(pairings[1..], byId);
      assert forall i :: 1 <= i < |pairings| ==> pairings[i] == pairings[1..][i - 1];
      match (Resolve(pairings[0].0, byId), Resolve(pairings[0].1, byId))
      case (Some(w), Some(b)) => [(w, b)] + rest
      case _ => rest
  }

  function AbsReal(x: real): (r: real)
    ensures r >= 0.0 && (r == x || r == -x)
  {
    if x < 0.0 then -x else x
  }

  function ScoreGaps(ps: seq<(Player, Player)>): (r: seq<real>)
    ensures |r| == |ps| && forall i :: 0 <= i < |ps| ==> r[i] == AbsReal(ps[i].0.score - ps[i].1.score)
  {
    seq(|ps|, i requires 0 <= i < |ps| => AbsReal(ps[i].0.score - ps[i].1.score))
  }

  /** `total / count if count > 0 else default`. */
  function Mean(s: seq<real>, default: real): real {
    if |s| > 0 then Seqs.Sum(s) / |s| as real else default
  }

  /** `calculate_psd`: the mean absolute score difference of the pairings
      whose players resolve, 0 when there are none. */
  function Psd(pairings: seq<(Ref, Ref)>, byId: map<string, Player>): (r: real)
    ensures r >= 0.0
    ensures pairings == [] ==> r == 0.0
  {
    if pairings == [] then 0.0
    else
      var gaps := ScoreGaps(Resolved(pairings, byId));
      Seqs.SumNonNegative(gaps);
      Mean(gaps, 0.0)
  }

  /** Every pairing joins two equal scores. */
  predicate EqualScores(ps: seq<(Player, Player)>) {
    forall i :: 0 <= i < |ps| ==> ps[i].0.score == ps[i].1.score
  }

  /** The PSD is 0 exactly when every resolved pairing joins equal scores. */
  lemma PsdZeroIffEqualScores(pairings: seq<(Ref, Ref)>, byId: map<string, Player>)
    ensures Psd(pairings, byId) == 0.0 <==> EqualScores(Resolved(pairings, byId))
  {
    var ps := Resolved(pairings, byId);
    var gaps := ScoreGaps(ps);
    GapsZeroIffEqual(ps);
    MeanZeroIffAllZero(gaps);
    if pairings == [] {
      assert ps == [];
    } else {
      assert Psd(pairings, byId) == Mean(gaps, 0.0);
    }
  }

  lemma GapsZeroIffEqual(ps: seq<(Player, Player)>)
    ensures (forall i :: 0 <= i < |ScoreGaps(ps)| ==> ScoreGaps(ps)[i] == 0.0)
            <==> EqualScores(ps)
  {
    var g := ScoreGaps(ps);
    forall i | 0 <= i < |ps|
      ensures g[i] == 0.0 <==> ps[i].0.score == ps[i].1.score
    {
      assert g[i] == AbsReal(ps[i].0.score - ps[i].1.score);
    }
  }

  lemma MeanZeroIffAllZero(s: seq<real>)
    requires forall i :: 0 <= i < |s| ==> s[i] >= 0.0
    ensures Mean(s, 0.0) == 0.0 <==> forall i :: 0 <= i < |s| ==> s[i] == 0.0
  {
    SumZeroIffAllZero(s);
    if |s| > 0 {
      QuotientZero(Seqs.Sum(s), |s| as real);
    }
  }

  lemma QuotientZero(x: real, n: real)
    requires n > 0.0
    ensures x / n == 0.0 <==> x == 0.0
  {
    assert x / n * n == x;
  }

  /** A sum of non-negative terms is 0 exactly when every term is. */
  lemma {:induction false} SumZeroIffAllZero(s: seq<real>)
    requires forall i :: 0 <= i < |s| ==> s[i] >= 0.0
    ensures Seqs.Sum(s) == 0.0 <==> forall i :: 0 <= i < |s| ==> s[i] == 0.0
  {
    if |s| > 0 {
      var init := s[..|s| - 1];
      assert forall i :: 0 <= i < |init| ==> init[i] == s[i];
      SumZeroIffAllZero(init);
      Seqs.SumNonNegative(init);
    }
  }

  /** The colour score of one side: 0 when the player gets the colour they
      prefer, -25 for the other, -10 without a preference. */
  function SideScore(pref: Option<Color>, given: Color): (r: real)
    ensures r == 0.0 <==> pref == Some(given)
    ensures r == -25.0 <==> pref == Some(Opposite(given))
    ensures r == -10.0 <==> pref.None?
  {
    match pref
    case Some(c) => if c == given then 0.0 else assert c == Opposite(given); -25.0
    case None => -10.0
  }

  /** One pairing's colour score, in [50, 100]. */
  function PairColorScore(white: Player, black: Player): (r: real)
    ensures 50.0 <= r <= 100.0
    ensures r == 100.0 <==>
              PlayerPreference(white.colorHistory) == Some(White)
              && PlayerPreference(black.colorHistory) == Some(Black)
  {
    var s := 100.0 + SideScore(PlayerPreference(white.colorHistory), White)
                   + SideScore(PlayerPreference(black.colorHistory), Black);
    if s < 0.0 then 0.0 else s
  }

  /** `calculate_color_balance_metric`: the mean pairing colour score, 100
      when no pairing resolves. */
  function ColorBalance(pairings: seq<(Ref, Ref)>, byId: map<string, Player>): (r: real)
    ensures 50.0 <= r <= 100.0
    ensures pairings == [] ==> r == 100.0
  {
    if pairings == [] then 100.0
    else
      var scores := ColorScores(Resolved(pairings, byId));
      MeanWithin(scores, 50.0, 100.0, 100.0);
      Mean(scores, 100.0)
  }

  /** The colour score of every resolved pairing. */
  function ColorScores(ps: seq<(Player, Player)>): (r: seq<real>)
    ensures |r| == |ps|
    ensures forall i :: 0 <= i < |r| ==> 50.0 <= r[i] <= 100.0
  {
    seq(|ps|, i requires 0 <= i < |ps| => PairColorScore(ps[i].0, ps[i].1))
  }

  /** A mean of terms within [lo, hi] lies within [lo, hi]; so does a
      default within it. */
  lemma MeanWithin(s: seq<real>, lo: real, hi: real, default: real)
    requires forall i :: 0 <= i < |s| ==> lo <= s[i] <= hi
    requires lo <= default <= hi
    ensures lo <= Mean(s, default) <= hi
  {
    if |s| > 0 {
      Seqs.SumBounds(s, lo, hi);
      MeanBounds(s, lo, hi);
    }
  }

  lemma MeanBounds(s: seq<real>, lo: real, hi: real)
    requires |s| > 0 && |s| as real * lo <= Seqs.Sum(s) <= |s| as real * hi
    ensures lo <= Seqs.Sum(s) / |s| as real <= hi
  {
    var n := |s| as real;
    var q := Seqs.Sum(s) / n;
    assert q * n == Seqs.Sum(s);
    assert (q - lo) * n >= 0.0;
    assert (hi - q) * n >= 0.0;
  }

  /** The number of pairings joining equal scores. */
  function EqualScorePairs(ps: seq<(Player, Player)>): (n: nat)
    ensures n <= |ps|
  {
    if ps == [] then 0
    else (if ps[0].0.score == ps[0].1.score then 1 else 0) + EqualScorePairs(ps[1..])
  }

  /** `calculate_bracket_compliance_metric`: 100 when at least 70% of the
      resolved pairings join equal scores, otherwise scaled so that 70%
      would score 100. */
  function BracketCompliance(pairings: seq<(Ref, Ref)>, byId: map<string, Player>): (r: real)
    ensures 0.0 <= r <= 100.0
    ensures pairings == [] ==> r == 100.0
  {
    if pairings == [] then 100.0
    else
      var ps := Resolved(pairings, byId);
      if |ps| == 0 then 100.0
      else
        var percentage := (EqualScorePairs(ps) as real / |ps| as real) * 100.0;
        if percentage >= 70.0 then 100.0 else percentage * (100.0 / 70.0)
  }

  /** Below the 70% mark the metric is below 100; at or above it, 100. */
  lemma BracketComplianceThreshold(pairings: seq<(Ref, Ref)>, byId: map<string, Player>)
    requires pairings != [] && |Resolved(pairings, byId)| > 0
    ensures var ps := Resolved(pairings, byId);
            var share := EqualScorePairs(ps) as real / |ps| as real;
            (BracketCompliance(pairings, byId) == 100.0 <==> share * 100.0 >= 70.0)
  {
  }

  // ------------------------------------------------- violations by id

  /** `extract_violations_dict`: each violated criterion's id with the
      count of its last violation entry. */
  function ViolationsById(vs: seq<Fpc.CriterionResult>): (m: map<string, int>)
    ensures forall k :: k in m <==> exists i :: 0 <= i < |vs| && vs[i].status == Fpc.Violation && Fpc.Name(vs[i]) == k
    decreases |vs|
  {
    if vs == [] then map[]
    else
      var init := ViolationsById(vs[..|vs| - 1]);
      var v := vs[|vs| - 1];
      assert forall i :: 0 <= i < |vs| - 1 ==> vs[..|vs| - 1][i] == vs[i];
      if v.status == Fpc.Violation then init[Fpc.Name(v) := ViolationCount(v)] else init
  }

  /** The count stored under an id is that of the last violation entry with
      that id. */
  lemma {:induction false} ViolationsByIdLast(vs: seq<Fpc.CriterionResult>, i: nat)
    requires i < |vs| && vs[i].status == Fpc.Violation
    requires forall j :: i < j < |vs| && vs[j].status == Fpc.Violation ==> Fpc.Name(vs[j]) != Fpc.Name(vs[i])
    ensures ViolationsById(vs)[Fpc.Name(vs[i])] == ViolationCount(vs[i])
    decreases |vs|
  {
    if i < |vs| - 1 {
      var init := vs[..|vs| - 1];
      assert forall j :: 0 <= j < |init| ==> init[j] == vs[j];
      ViolationsByIdLast(init, i);
    }
  }
}
