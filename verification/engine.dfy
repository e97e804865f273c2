/** The comparison engine, comparison/engine.py: the differences between
    two engines' pairings of one round, the metrics of each engine's
    pairings, and the winner. */
module Engine {
  import opened Wrappers
  import opened Players
  import Fpc
  import Metrics
  import CompValidator

  // ------------------------------------------------ pairings as id pairs

  /** Python's `<=` on strings: character by character, a prefix first. */
  predicate IdLe(a: string, b: string) {
    if a == [] then true
    else if b == [] then false
    else if a[0] != b[0] then a[0] < b[0]
    else IdLe(a[1..], b[1..])
  }

  lemma {:induction false} IdLeTotal(a: string, b: string)
    ensures IdLe(a, b) || IdLe(b, a)
  {
    if a != [] && b != [] && a[0] == b[0] {
      IdLeTotal(a[1..], b[1..]);
    }
  }

  lemma {:induction false} IdLeAntisymmetric(a: string, b: string)
    requires IdLe(a, b) && IdLe(b, a)
    ensures a == b
  {
    if a != [] && b != [] {
      IdLeAntisymmetric(a[1..], b[1..]);
      assert a == [a[0]] + a[1..] && b == [b[0]] + b[1..];
    }
  }

  type IdPair = (string, string)

  /** `tuple(sorted([w.id, b.id]))`. */
  function Key(white: string, black: string): (k: IdPair)
    ensures k == (white, black) || k == (black, white)
    ensures IdLe(k.0, k.1)
  {
    IdLeTotal(white, black);
    if IdLe(white, black) then (white, black) else (black, white)
  }

  /** Either orientation of a pairing has the same key. */
  lemma KeySymmetric(a: string, b: string)
    ensures Key(a, b) == Key(b, a)
  {
    if IdLe(a, b) && IdLe(b, a) {
      IdLeAntisymmetric(a, b);
    }
  }

  function KeyOf(p: Fpc.Pairing): IdPair {
    Key(p.0.id, p.1.id)
  }

  /** The set of unordered pairings, `to_set`. */
  function PairSet(ps: seq<Fpc.Pairing>): (s: set<IdPair>)
    ensures forall k :: k in s <==> exists i :: 0 <= i < |ps| && KeyOf(ps[i]) == k
  {
    set i | 0 <= i < |ps| :: KeyOf(ps[i])
  }

  /** `{sorted key: (white id, black id)}`, a later pairing with the same
      key replacing an earlier one. */
  function Orientation(ps: seq<Fpc.Pairing>): (m: map<IdPair, IdPair>)
    ensures m.Keys == PairSet(ps)
    ensures forall k :: k in m ==> m[k] == k || m[k] == (k.1, k.0)
    decreases |ps|
  {
    if ps == [] then map[]
    else
      var init := ps[..|ps| - 1];
      var last := ps[|ps| - 1];
      assert forall i :: 0 <= i < |init| ==> init[i] == ps[i];
      assert PairSet(ps) == PairSet(init) + {KeyOf(last)};
      Orientation(init)[KeyOf(last) := (last.0.id, last.1.id)]
  }

  /** A `PairingDifference`; the lists built from sets are sets here. */
  datatype Difference = Difference(
    matching: nat, gambitOnly: set<IdPair>, bbpOnly: set<IdPair>, differentColors: set<IdPair>)

  /** `_analyze_pairing_differences`. */
  function AnalyzeDifferences(gambit: seq<Fpc.Pairing>, bbp: seq<Fpc.Pairing>): (d: Difference)
    ensures d.gambitOnly == PairSet(gambit) - PairSet(bbp)
    ensures d.bbpOnly == PairSet(bbp) - PairSet(gambit)
    ensures d.matching + |d.gambitOnly| == |PairSet(gambit)|
    ensures d.matching + |d.bbpOnly| == |PairSet(bbp)|
    ensures d.differentColors <= PairSet(gambit) * PairSet(bbp)
    ensures forall k :: k in d.differentColors <==>
              k in PairSet(gambit) && k in PairSet(bbp) && Orientation(gambit)[k] != Orientation(bbp)[k]
  {
    var g, b := PairSet(gambit), PairSet(bbp);
    var matching := g * b;
    Partition(g, b);
    Partition(b, g);
    assert b * g == matching;
    var og, ob := Orientation(gambit), Orientation(bbp);
    Difference(|matching|, g - b, b - g, set k | k in matching && og[k] != ob[k])
  }

  lemma Partition<T>(a: set<T>, b: set<T>)
    ensures |a * b| + |a - b| == |a|
  {
    assert a == (a * b) + (a - b);
    assert (a * b) !! (a - b);
  }

  /** A pairing compared with itself differs in nothing. */
  lemma AnalyzeSame(ps: seq<Fpc.Pairing>)
    ensures var d := AnalyzeDifferences(ps, ps);
            d.gambitOnly == {} && d.bbpOnly == {} && d.differentColors == {}
            && d.matching == |PairSet(ps)| && MatchingPercentage(d) == 100.0
  {
  }

  /** Swapping the engines swaps the one-sided pairs and keeps the rest. */
  lemma AnalyzeSwap(gambit: seq<Fpc.Pairing>, bbp: seq<Fpc.Pairing>)
    ensures var d, e := AnalyzeDifferences(gambit, bbp), AnalyzeDifferences(bbp, gambit);
            e.gambitOnly == d.bbpOnly && e.bbpOnly == d.gambitOnly
            && e.matching == d.matching && e.differentColors == d.differentColors
  {
    var d, e := AnalyzeDifferences(gambit, bbp), AnalyzeDifferences(bbp, gambit);
    CountsSwap(d, e, PairSet(gambit), PairSet(bbp));
    ColorsSwap(gambit, bbp);
  }

  lemma CountsSwap(d: Difference, e: Difference, g: set<IdPair>, b: set<IdPair>)
    requires d.gambitOnly == g - b && d.bbpOnly == b - g && d.matching + |d.bbpOnly| == |b|
    requires e.gambitOnly == b - g && e.bbpOnly == g - b && e.matching + |e.gambitOnly| == |b|
    ensures e.gambitOnly == d.bbpOnly && e.bbpOnly == d.gambitOnly && e.matching == d.matching
  {
  }

  lemma ColorsSwap(gambit: seq<Fpc.Pairing>, bbp: seq<Fpc.Pairing>)
    ensures AnalyzeDifferences(bbp, gambit).differentColors == AnalyzeDifferences(gambit, bbp).differentColors
  {
    var d, e := AnalyzeDifferences(gambit, bbp), AnalyzeDifferences(bbp, gambit);
    SymmetricColors(d.differentColors, e.differentColors, PairSet(gambit), PairSet(bbp),
                    Orientation(gambit), Orientation(bbp));
  }

  lemma SymmetricColors(x: set<IdPair>, y: set<IdPair>, g: set<IdPair>, b: set<IdPair>,
                        og: map<IdPair, IdPair>, ob: map<IdPair, IdPair>)
    requires og.Keys == g && ob.Keys == b
    requires forall k :: k in x <==> k in g && k in b && og[k] != ob[k]
    requires forall k :: k in y <==> k in b && k in g && ob[k] != og[k]
    ensures x == y
  {
  }

  /** On a pair both engines made, a colour difference means one engine
      gave white to the player the other gave black. */
  lemma DifferentColorsAreSwapped(gambit: seq<Fpc.Pairing>, bbp: seq<Fpc.Pairing>, k: IdPair)
    requires k in AnalyzeDifferences(gambit, bbp).differentColors
    ensures var og, ob := Orientation(gambit)[k], Orientation(bbp)[k];
            og == (ob.1, ob.0) && og.0 != og.1
  {
  }

  /** `matching_percentage`. */
  function MatchingPercentage(d: Difference): (r: real)
    ensures d.matching + |d.gambitOnly| + |d.bbpOnly| == 0 ==> r == 100.0
    ensures 0.0 <= r <= 100.0
    ensures d.matching > 0 && d.gambitOnly == {} && d.bbpOnly == {} ==> r == 100.0
    ensures d.matching == 0 && d.gambitOnly + d.bbpOnly != {} ==> r == 0.0
  {
    var total := d.matching + |d.gambitOnly| + |d.bbpOnly|;
    if total == 0 then 100.0 else (d.matching as real / total as real) * 100.0
  }

  /** `total_differences`. */
  function TotalDifferences(d: Difference): (n: nat)
    ensures n == 0 <==> d.gambitOnly == {} && d.bbpOnly == {}
  {
    |d.gambitOnly| + |d.bbpOnly|
  }

  // ---------------------------------------------------------- metrics

  /** A `ComparisonMetrics`. */
  datatype ComparisonMetrics = ComparisonMetrics(
    fideScore: real, qualityScore: real, overallScore: real,
    fideViolations: map<string, int>, quality: Metrics.Quality, computationTime: real)

  const NoQuality := Metrics.Quality(0.0, 0.0, 0.0, 0.0, 0.0, 0.0)

  /** The efficiency metric: 100 for no time, then one point less per
      50 ms, never below 0. */
  function Efficiency(timeMs: real): (r: real)
    ensures 0.0 <= r <= 100.0
    ensures timeMs <= 0.0 ==> r == 100.0
    ensures timeMs >= 5000.0 ==> r == 0.0
  {
    if timeMs > 0.0 then
      var eff := if 100.0 - timeMs / 50.0 < 0.0 then 0.0 else 100.0 - timeMs / 50.0;
      if eff < 100.0 then eff else 100.0
    else 100.0
  }

  /** A slower run is never more efficient. */
  lemma EfficiencyMonotone(t1: real, t2: real)
    requires t1 <= t2
    ensures Efficiency(t2) <= Efficiency(t1)
  {
  }

  /** `{p.id: p for p in players}`, a later player with the same id
      replacing an earlier one. */
  function ById(players: seq<Player>): (m: map<string, Player>)
    ensures forall i :: 0 <= i < |players| ==> players[i].id in m
    ensures forall id :: id in m ==> m[id] in players && m[id].id == id
    decreases |players|
  {
    if players == [] then map[]
    else
      var init := players[..|players| - 1];
      var last := players[|players| - 1];
      assert forall i :: 0 <= i < |init| ==> init[i] == players[i];
      ById(init)[last.id := last]
  }

  function Refs(ps: seq<Fpc.Pairing>): (r: seq<(Metrics.Ref, Metrics.Ref)>)
    ensures |r| == |ps| && forall i :: 0 <= i < |ps| ==> r[i] == (Metrics.Obj(ps[i].0), Metrics.Obj(ps[i].1))
  {
    seq(|ps|, i requires 0 <= i < |ps| => (Metrics.Obj(ps[i].0), Metrics.Obj(ps[i].1)))
  }

  /** The quality metrics of a pairing; float optimisation and tiebreak
      consistency are the fixed placeholders 80 and 85. */
  function QualityOf(pairings: seq<Fpc.Pairing>, players: seq<Player>, timeMs: real): Metrics.Quality {
    var refs, byId := Refs(pairings), ById(players);
    Metrics.Quality(Metrics.Psd(refs, byId), Metrics.ColorBalance(refs, byId),
                    Metrics.BracketCompliance(refs, byId), 80.0, 85.0, Efficiency(timeMs))
  }

  /** `_calculate_metrics`: the FIDE score only from a report, the quality
      score only when there are players and pairings, and their weighted
      combination. */
  function CalculateMetrics(pairings: seq<Fpc.Pairing>, report: Option<Fpc.Report>, players: seq<Player>,
                            timeMs: real, fideWeight: real, qualityWeight: real): (m: ComparisonMetrics)
    ensures report.None? ==> m.fideScore == 0.0 && m.fideViolations == map[]
    ensures report.Some? ==> m.fideScore == Metrics.FideScore(report.value.violations)
    ensures players == [] || pairings == [] ==> m.qualityScore == 0.0 && m.quality == NoQuality
    ensures 0.0 <= m.fideScore <= 100.0 && 0.0 <= m.qualityScore <= 100.0 && 0.0 <= m.overallScore <= 100.0
    ensures m.overallScore == Metrics.OverallScore(m.fideScore, m.qualityScore, fideWeight, qualityWeight)
    ensures m.computationTime == timeMs
  {
    var fide := if report.Some? then Metrics.FideScore(report.value.violations) else 0.0;
    var violations := if report.Some? then Metrics.ViolationsById(report.value.violations) else map[];
    var quality := if players != [] && pairings != [] then QualityOf(pairings, players, timeMs) else NoQuality;
    var qualityScore :=
      if players != [] && pairings != [] then Metrics.QualityScore(quality, Metrics.DefaultWeights) else 0.0;
    ComparisonMetrics(fide, qualityScore, Metrics.OverallScore(fide, qualityScore, fideWeight, qualityWeight),
                      violations, quality, timeMs)
  }

  /** Pairings of equal scores have no score difference ... */
  lemma EqualScoresPsd(pairings: seq<Fpc.Pairing>, byId: map<string, Player>)
    requires forall i :: 0 <= i < |pairings| ==> pairings[i].0.score == pairings[i].1.score
    ensures Metrics.Psd(Refs(pairings), byId) == 0.0
  {
    ResolvedOfObjects(pairings, byId);
    Metrics.PsdZeroIffEqualScores(Refs(pairings), byId);
  }

  /** ... and comply fully with their score brackets. */
  lemma EqualScoresBracket(pairings: seq<Fpc.Pairing>, byId: map<string, Player>)
    requires pairings != []
    requires forall i :: 0 <= i < |pairings| ==> pairings[i].0.score == pairings[i].1.score
    ensures Metrics.BracketCompliance(Refs(pairings), byId) == 100.0
  {
    ResolvedOfObjects(pairings, byId);
    EqualScoreAll(pairings);
    var ps := Metrics.Resolved(Refs(pairings), byId);
    assert ps == pairings;
    DivSelf(|ps| as real);
    assert Metrics.EqualScorePairs(ps) as real / |ps| as real == 1.0;
  }

  lemma DivSelf(x: real)
    requires x > 0.0
    ensures x / x == 1.0
  {
  }

  /** Pairings given as players resolve to themselves. */
  lemma {:induction false} ResolvedOfObjects(pairings: seq<Fpc.Pairing>, byId: map<string, Player>)
    ensures Metrics.Resolved(Refs(pairings), byId) == pairings
    decreases |pairings|
  {
    if pairings != [] {
      assert Refs(pairings)[1..] == Refs(pairings[1..]);
      ResolvedOfObjects(pairings[1..], byId);
      assert pairings == [pairings[0]] + pairings[1..];
    }
  }

  lemma {:induction false} EqualScoreAll(ps: seq<Fpc.Pairing>)
    requires forall i :: 0 <= i < |ps| ==> ps[i].0.score == ps[i].1.score
    ensures Metrics.EqualScorePairs(ps) == |ps|
  {
    if ps != [] {
      EqualScoreAll(ps[1..]);
    }
  }

  // ------------------------------------------------------------ winner

  datatype Winner = Gambit | Bbp | Tie

  /** `_determine_winner`: within one point is a tie, otherwise the
      engine with the higher overall score wins by the difference. */
  function DetermineWinner(gambit: real, bbp: real): (r: (Winner, real))
    ensures r.0 == Tie <==> -1.0 < gambit - bbp < 1.0
    ensures r.0 == Tie ==> r.1 == 0.0
    ensures r.0 == Gambit ==> r.1 == gambit - bbp >= 1.0
    ensures r.0 == Bbp ==> r.1 == bbp - gambit >= 1.0
  {
    var diff := gambit - bbp;
    if Metrics.AbsReal(diff) < 1.0 then (Tie, 0.0)
    else if diff > 0.0 then (Gambit, diff)
    else (Bbp, Metrics.AbsReal(diff))
  }

  function Other(w: Winner): Winner {
    match w
    case Gambit => Bbp
    case Bbp => Gambit
    case Tie => Tie
  }

  /** Exchanging the two engines' scores exchanges the winner. */
  lemma WinnerAntisymmetric(gambit: real, bbp: real)
    ensures DetermineWinner(bbp, gambit) == (Other(DetermineWinner(gambit, bbp).0), DetermineWinner(gambit, bbp).1)
  {
  }

  // ------------------------------------------------------- a round

  /** A `ComparisonResult`; the winner is none until it is determined. */
  datatype ComparisonResult = ComparisonResult(
    tournamentId: string, round: int,
    gambitReport: Option<Fpc.Report>, bbpReport: Option<Fpc.Report>,
    gambitMetrics: ComparisonMetrics, bbpMetrics: ComparisonMetrics,
    differences: Difference, winner: Option<Winner>, scoreDifference: real,
    gambitPairings: seq<Fpc.Pairing>, bbpPairings: seq<Fpc.Pairing>)

  /** The inputs of `compare_pairings` for one round. */
  datatype RoundInput = RoundInput(
    gambit: seq<Fpc.Pairing>, bbp: seq<Fpc.Pairing>, gambitBye: Option<Player>, bbpBye: Option<Player>,
    players: seq<Player>, round: int, totalRounds: int, gambitTime: real, bbpTime: real,
    previous: Option<set<set<string>>>, byeHistory: Option<map<string, int>>)

  function Validate(input: RoundInput, pairings: seq<Fpc.Pairing>, bye: Option<Player>): Option<Fpc.Report> {
    if input.players == [] then None
    else Some(CompValidator.ValidateForComparison(pairings, bye, input.players, input.round,
                                                  input.totalRounds, input.previous, input.byeHistory))
  }

  /** The result of a round once both engines are scored. */
  function Assemble(tournamentId: string, input: RoundInput, gr: Option<Fpc.Report>, br: Option<Fpc.Report>,
                    gm: ComparisonMetrics, bm: ComparisonMetrics, d: Difference): (r: ComparisonResult)
    ensures r.differences == d
    ensures r.winner == Some(DetermineWinner(gm.overallScore, bm.overallScore).0)
    ensures r.scoreDifference == DetermineWinner(gm.overallScore, bm.overallScore).1
    ensures r.gambitPairings == input.gambit && r.bbpPairings == input.bbp
    ensures r.gambitReport == gr && r.bbpReport == br && r.gambitMetrics == gm && r.bbpMetrics == bm
  {
    var w := DetermineWinner(gm.overallScore, bm.overallScore);
    ComparisonResult(tournamentId, input.round, gr, br, gm, bm, d, Some(w.0), w.1, input.gambit, input.bbp)
  }

  /** `compare_pairings`: both engines are checked only when the players
      are known, then scored and compared. */
  function ComparePairings(tournamentId: string, input: RoundInput, fideWeight: real, qualityWeight: real)
    : (r: ComparisonResult)
    ensures input.players == [] <==> r.gambitReport.None? && r.bbpReport.None?
    ensures input.players == [] ==> r.gambitMetrics.fideScore == 0.0 && r.bbpMetrics.fideScore == 0.0
    ensures r.gambitMetrics
         == CalculateMetrics(input.gambit, r.gambitReport, input.players, input.gambitTime, fideWeight, qualityWeight)
    ensures r.bbpMetrics
         == CalculateMetrics(input.bbp, r.bbpReport, input.players, input.bbpTime, fideWeight, qualityWeight)
    ensures r.differences == AnalyzeDifferences(input.gambit, input.bbp)
    ensures r.winner == Some(DetermineWinner(r.gambitMetrics.overallScore, r.bbpMetrics.overallScore).0)
    ensures r.scoreDifference == DetermineWinner(r.gambitMetrics.overallScore, r.bbpMetrics.overallScore).1
    ensures r.gambitPairings == input.gambit && r.bbpPairings == input.bbp
  {
    var gr, br := Validate(input, input.gambit, input.gambitBye), Validate(input, input.bbp, input.bbpBye);
    Assemble(tournamentId, input, gr, br,
             CalculateMetrics(input.gambit, gr, input.players, input.gambitTime, fideWeight, qualityWeight),
             CalculateMetrics(input.bbp, br, input.players, input.bbpTime, fideWeight, qualityWeight),
             AnalyzeDifferences(input.gambit, input.bbp))
  }

  /** The same pairing from both engines, found equally fast, is a tie. */
  lemma SamePairingsTie(tournamentId: string, input: RoundInput, fw: real, qw: real)
    requires input.gambit == input.bbp && input.gambitBye == input.bbpBye && input.gambitTime == input.bbpTime
    ensures ComparePairings(tournamentId, input, fw, qw).winner == Some(Tie)
  {
  }

  /** `_find_player`: none for an empty or missing id, otherwise the first
      player with that id. */
  function FindPlayer(players: seq<Player>, id: Option<string>): (r: Option<Player>)
    ensures id.None? || id == Some("") ==> r.None?
    ensures r.Some? ==> id.Some? && r.value in players && r.value.id == id.value
    ensures r.None? && id.Some? && id.value != "" ==> forall i :: 0 <= i < |players| ==> players[i].id != id.value
  {
    if id.None? || id.value == "" then None else First(players, id.value)
  }

  function First(players: seq<Player>, id: string): (r: Option<Player>)
    ensures r.Some? ==> r.value in players && r.value.id == id
    ensures r.None? <==> forall i :: 0 <= i < |players| ==> players[i].id != id
  {
    if players == [] then None
    else if players[0].id == id then Some(players[0])
    else
      assert forall i :: 1 <= i < |players| ==> players[i] == players[1..][i - 1];
      First(players[1..], id)
  }

  /** The player found comes before every other player with that id. */
  lemma {:induction false} FirstIsEarliest(players: seq<Player>, id: string, i: nat)
    requires i < |players| && players[i].id == id
    ensures exists j :: 0 <= j <= i && First(players, id) == Some(players[j])
                        && forall k :: 0 <= k < j ==> players[k].id != id
  {
    if players[0].id != id {
      FirstIsEarliest(players[1..], id, i - 1);
      var j :| 0 <= j <= i - 1 && First(players[1..], id) == Some(players[1..][j])
               && forall k :: 0 <= k < j ==> players[1..][k].id != id;
      assert First(players, id) == Some(players[j + 1]);
      forall k | 0 <= k < j + 1 ensures players[k].id != id {
        if k > 0 { assert players[k] == players[1..][k - 1]; }
      }
    }
  }
}
