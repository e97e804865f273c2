/** The random tournament generator, testing/rtg.py: game results drawn for
    each pattern, the bye candidate handed to the pairing engine, the
    scheduled byes, the comparison of two engines' pairings and the TRF
    export. Every random draw (`random()`, `choice`, `gauss`) and the
    transcendental values (`sqrt`, `erfc`) are parameters. */
module Rtg {
  import opened Wrappers
  import opened Players
  import Constants
  import Seqs
  import Sorting
  import Text
  import Format
  import Fpc
  import Engine
  import Dutch

  function MaxReal(a: real, b: real): real { if a >= b then a else b }
  function MinReal(a: real, b: real): real { if a <= b then a else b }

  /** `max(lo, min(hi, x))`. */
  function Clamp(lo: real, hi: real, x: real): real { MaxReal(lo, MinReal(hi, x)) }

  // ------------------------------------------------------ forfeits

  /** `_forfeit_occurs`: `nonForfeit` stands for sqrt(1 - 1/forfeit_rate)
      and `draw` for the `random()` value drawn against it. */
  function ForfeitOccurs(forfeitRate: real, nonForfeit: real, draw: real): (f: bool)
    ensures f ==> forfeitRate > 1.0
    ensures forfeitRate > 1.0 ==> (f <==> draw >= nonForfeit)
  {
    if forfeitRate <= 1.0 then false else draw >= nonForfeit
  }

  // ------------------------------------------------------ result patterns

  /** A white score any pattern can return. */
  predicate IsOutcome(s: real) {
    s == Constants.WinScore || s == Constants.DrawScore || s == Constants.LossScore
  }

  /** The draw shared by the rating-based patterns: a win below `w`, a draw
      below `w + d`, a loss from there on. */
  function Threshold(w: real, d: real, rand: real): (s: real)
    ensures IsOutcome(s)
    ensures s == Constants.WinScore <==> rand < w
    ensures s == Constants.LossScore <==> rand >= w && rand >= w + d
  {
    if rand < w then Constants.WinScore
    else if rand < w + d then Constants.DrawScore
    else Constants.LossScore
  }

  /** White's win weight in the balanced pattern. */
  function BalancedWin(diff: int): real { Clamp(0.05, 0.95, 0.5 + diff as real / 1000.0) }

  /** White's win weight in the upset-friendly pattern. */
  function UpsetWin(diff: int): real { Clamp(0.05, 0.95, 0.5 - diff as real / 1000.0) }

  /** White's win weight in the predictable pattern, capped above only. */
  function PredictableWin(diff: int): real { MinReal(0.95, 0.5 + diff as real / 200.0) }

  const BalancedDraw: real := 0.1
  const UpsetDraw: real := 0.15
  const PredictableDraw: real := 0.05

  /** The patterns as written: the win and draw weights are divided by their
      own sum, so the two thresholds end at 1. */
  function Normalised(win: real, draw: real, rand: real): (s: real)
    requires win + draw != 0.0
    ensures IsOutcome(s)
  {
    Threshold(win / (win + draw), draw / (win + draw), rand)
  }

  /** `_balanced_result` as written. */
  function BalancedAsWritten(white: int, black: int, rand: real): (s: real)
    ensures IsOutcome(s)
  {
    Normalised(BalancedWin(white - black), BalancedDraw, rand)
  }

  /** `_upset_friendly_result` as written. */
  function UpsetAsWritten(white: int, black: int, rand: real): (s: real)
    ensures IsOutcome(s)
  {
    Normalised(UpsetWin(white - black), UpsetDraw, rand)
  }

  datatype SimulationError = ZeroDivision

  /** `_predictable_result` as written; without a lower clamp the weights
      cancel out when white is exactly 110 points weaker. */
  function PredictableAsWritten(white: int, black: int, rand: real): (r: Result<real, SimulationError>)
    ensures r.Failure? <==> white - black == -110
    ensures r.Success? ==> IsOutcome(r.value)
  {
    var win := PredictableWin(white - black);
    if win + PredictableDraw == 0.0 then Failure(ZeroDivision)
    else Success(Normalised(win, PredictableDraw, rand))
  }

  /** The two normalised weights always add up to 1. */
  lemma SharesSumToOne(a: real, b: real)
    requires a + b != 0.0
    ensures a / (a + b) + b / (a + b) == 1.0
  {
    var t := a + b;
    assert a / t + b / t == (a + b) / t;
  }

  /** As written, white never loses a balanced, upset-friendly or
      predictable game: `random()` lies below 1, where the draw band ends. */
  lemma AsWrittenNeverLoses(white: int, black: int, rand: real)
    requires 0.0 <= rand < 1.0
    ensures BalancedAsWritten(white, black, rand) != Constants.LossScore
    ensures UpsetAsWritten(white, black, rand) != Constants.LossScore
    ensures PredictableAsWritten(white, black, rand).Success? ==>
              PredictableAsWritten(white, black, rand).value != Constants.LossScore
  {
    SharesSumToOne(BalancedWin(white - black), BalancedDraw);
    SharesSumToOne(UpsetWin(white - black), UpsetDraw);
    var win := PredictableWin(white - black);
    if win + PredictableDraw != 0.0 {
      SharesSumToOne(win, PredictableDraw);
    }
  }

  /** As written, a white player 200 points weaker always wins a
      predictable game: the win share exceeds 1. */
  lemma PredictableUpset(rand: real)
    requires 0.0 <= rand < 1.0
    ensures PredictableAsWritten(1000, 1200, rand) == Success(Constants.WinScore)
  {
    assert PredictableWin(-200) == -0.5;
    assert -0.5 / (-0.5 + PredictableDraw) > 1.0;
  }

  /** The patterns with the loss weighted `1 - win` next to the win and draw
      weights, so that all three outcomes happen: the weights add up to
      `1 + draw`. */
  function Weighted(win: real, draw: real, rand: real): (s: real)
    requires draw >= 0.0
    ensures IsOutcome(s)
  {
    Threshold(win / (1.0 + draw), draw / (1.0 + draw), rand)
  }

  function BalancedResult(white: int, black: int, rand: real): (s: real)
    ensures IsOutcome(s)
  {
    Weighted(BalancedWin(white - black), BalancedDraw, rand)
  }

  function UpsetFriendlyResult(white: int, black: int, rand: real): (s: real)
    ensures IsOutcome(s)
  {
    Weighted(UpsetWin(white - black), UpsetDraw, rand)
  }

  function PredictableResult(white: int, black: int, rand: real): (s: real)
    ensures IsOutcome(s)
  {
    Weighted(PredictableWin(white - black), PredictableDraw, rand)
  }

  /** With weights in (0, 1) every outcome has a band of draws in [0, 1). */
  lemma WeightedOutcomes(win: real, draw: real)
    requires 0.0 < win < 1.0 && draw > 0.0
    ensures Weighted(win, draw, 0.0) == Constants.WinScore
    ensures Weighted(win, draw, win / (1.0 + draw)) == Constants.DrawScore
    ensures (win + draw) / (1.0 + draw) < 1.0
    ensures Weighted(win, draw, (win + draw) / (1.0 + draw)) == Constants.LossScore
  {
    var t := 1.0 + draw;
    assert win / t + draw / t == (win + draw) / t;
  }

  /** Balanced and upset-friendly games can end in any of the three results. */
  lemma AllOutcomesOccur(white: int, black: int)
    ensures var p := BalancedWin(white - black);
            BalancedResult(white, black, 0.0) == Constants.WinScore
            && BalancedResult(white, black, p / 1.1) == Constants.DrawScore
            && (p + 0.1) / 1.1 < 1.0
            && BalancedResult(white, black, (p + 0.1) / 1.1) == Constants.LossScore
    ensures var q := UpsetWin(white - black);
            UpsetFriendlyResult(white, black, 0.0) == Constants.WinScore
            && UpsetFriendlyResult(white, black, q / 1.15) == Constants.DrawScore
            && (q + 0.15) / 1.15 < 1.0
            && UpsetFriendlyResult(white, black, (q + 0.15) / 1.15) == Constants.LossScore
  {
    WeightedOutcomes(BalancedWin(white - black), BalancedDraw);
    WeightedOutcomes(UpsetWin(white - black), UpsetDraw);
  }

  /** A larger win weight never gives white a worse result for the same draw. */
  lemma WeightedMonotone(win1: real, win2: real, draw: real, rand: real)
    requires win1 <= win2 && draw >= 0.0
    ensures Weighted(win1, draw, rand) <= Weighted(win2, draw, rand)
  {
    var t := 1.0 + draw;
    assert win1 / t <= win2 / t;
    assert win1 / t + draw / t <= win2 / t + draw / t;
  }

  /** A stronger white never scores less in a balanced or predictable game,
      and never more in an upset-friendly one. */
  lemma RatingMonotone(white1: int, white2: int, black: int, rand: real)
    requires white1 <= white2
    ensures BalancedResult(white1, black, rand) <= BalancedResult(white2, black, rand)
    ensures PredictableResult(white1, black, rand) <= PredictableResult(white2, black, rand)
    ensures UpsetFriendlyResult(white2, black, rand) <= UpsetFriendlyResult(white1, black, rand)
  {
    WeightedMonotone(BalancedWin(white1 - black), BalancedWin(white2 - black), BalancedDraw, rand);
    WeightedMonotone(PredictableWin(white1 - black), PredictableWin(white2 - black), PredictableDraw, rand);
    WeightedMonotone(UpsetWin(white2 - black), UpsetWin(white1 - black), UpsetDraw, rand);
  }

  /** `_bbp_realistic_result` around its one transcendental value:
      `expected` stands for erfc(|diff| * -7 / sqrt 2 / 2000) / 2. */
  function RealisticResult(white: int, black: int, drawPercentage: int, expected: real, rand: real): (s: real)
    ensures IsOutcome(s)
    ensures s == Constants.DrawScore <==>
              rand < MinReal(drawPercentage as real / 100.0, 2.0 - expected * 2.0)
  {
    var blackStronger := white < black;
    var drawProbability := MinReal(drawPercentage as real / 100.0, 2.0 - expected * 2.0);
    if rand < drawProbability then Constants.DrawScore
    else
      var whiteWins := rand < expected + drawProbability / 2.0;
      if whiteWins != blackStronger then Constants.WinScore else Constants.LossScore
  }

  /** Swapping the colours of a pairing of different ratings swaps the
      decisive results. */
  lemma RealisticSymmetric(a: int, b: int, drawPercentage: int, expected: real, rand: real)
    requires a != b
    ensures var s, t := RealisticResult(a, b, drawPercentage, expected, rand),
                        RealisticResult(b, a, drawPercentage, expected, rand);
            s + t == Constants.WinScore
  {
  }

  // ------------------------------------------------------ one pairing

  datatype Pattern = Realistic | Balanced | UpsetFriendly | Predictable | Uniform

  /** The draws one pairing consumes: two `random()` values for the
      forfeits (compared against `nonForfeit`), the `choice` of the uniform
      pattern, the `random()` value of the other patterns, and erfc's value
      for the realistic one. */
  datatype Draws = Draws(whiteForfeit: real, blackForfeit: real, nonForfeit: real,
                         pick: Pick, outcome: real, expected: real)

  datatype Pick = PickWin | PickDraw | PickLoss

  /** White's score under the configured pattern. */
  function PatternScore(pattern: Pattern, white: Player, black: Player, drawPercentage: int, d: Draws): (s: real)
    ensures IsOutcome(s)
  {
    match pattern
    case Uniform =>
      (match d.pick
       case PickWin => Constants.WinScore
       case PickDraw => Constants.DrawScore
       case PickLoss => Constants.LossScore)
    case Balanced => BalancedResult(white.rating, black.rating, d.outcome)
    case UpsetFriendly => UpsetFriendlyResult(white.rating, black.rating, d.outcome)
    case Predictable => PredictableResult(white.rating, black.rating, d.outcome)
    case Realistic => RealisticResult(white.rating, black.rating, drawPercentage, d.expected, d.outcome)
  }

  /** `simulate_pairing_result`: (white score, black score, forfeit). */
  function SimulatePairingResult(pattern: Pattern, white: Player, black: Player, drawPercentage: int,
                                 forfeitRate: real, d: Draws): (r: (real, real, bool))
    ensures var wf, bf := ForfeitOccurs(forfeitRate, d.nonForfeit, d.whiteForfeit),
                          ForfeitOccurs(forfeitRate, d.nonForfeit, d.blackForfeit);
            (r.2 <==> wf || bf)
            && (wf && bf ==> r.0 == Constants.LossScore && r.1 == Constants.LossScore)
            && (wf && !bf ==> r.0 == Constants.LossScore && r.1 == Constants.WinScore)
            && (bf && !wf ==> r.0 == Constants.WinScore && r.1 == Constants.LossScore)
    ensures !r.2 ==> r.0 + r.1 == Constants.WinScore && IsOutcome(r.0) && IsOutcome(r.1)
  {
    var wf := ForfeitOccurs(forfeitRate, d.nonForfeit, d.whiteForfeit);
    var bf := ForfeitOccurs(forfeitRate, d.nonForfeit, d.blackForfeit);
    if wf || bf then
      if wf && bf then (Constants.LossScore, Constants.LossScore, true)
      else if wf then (Constants.LossScore, Constants.WinScore, true)
      else (Constants.WinScore, Constants.LossScore, true)
    else
      var s := PatternScore(pattern, white, black, drawPercentage, d);
      (s, Constants.WinScore - s, false)
  }

  /** With a forfeit rate of at most 1 no game is forfeited and the two
      scores always add up to a win. */
  lemma LowRateNoForfeits(pattern: Pattern, white: Player, black: Player, drawPercentage: int,
                          forfeitRate: real, d: Draws)
    requires forfeitRate <= 1.0
    ensures var r := SimulatePairingResult(pattern, white, black, drawPercentage, forfeitRate, d);
            !r.2 && r.0 + r.1 == Constants.WinScore
  {
  }

  // ------------------------------------------------------ bye candidate

  function Played(e: Dutch.Entrant): nat { Fpc.CountPlayedGames(e.player) }

  /** May receive the pairing-allocated bye: no bye yet and no full-point
      unplayed round. */
  predicate Eligible(e: Dutch.Entrant) { Fpc.EligibleForBye(e.player) }

  /** What the bye selection reads of one player: the score, the length of
      the result list, the games actually played, the pairing number; `at` is
      the player's position in the list. */
  datatype Candidate = Candidate(at: nat, id: string, score: real, rounds: nat, played: nat, number: int)

  function CandidateOf(ps: seq<Dutch.Entrant>, i: nat): (c: Candidate)
    requires i < |ps|
    ensures c.at == i && c.id == ps[i].player.id && c.score == ps[i].player.score
    ensures c.played == Fpc.CountPlayedGames(ps[i].player) && c.number == ps[i].pairingNumber
  {
    Candidate(i, ps[i].player.id, ps[i].player.score, |ps[i].player.results|,
              Fpc.CountPlayedGames(ps[i].player), ps[i].pairingNumber)
  }

  /** The eligible players from position `k` on, in list order. */
  function EligibleFrom(ps: seq<Dutch.Entrant>, k: nat): (r: seq<Candidate>)
    requires k <= |ps|
    ensures forall j :: 0 <= j < |r| ==> k <= r[j].at < |ps| && Eligible(ps[r[j].at]) && r[j] == CandidateOf(ps, r[j].at)
    ensures forall i :: k <= i < |ps| && Eligible(ps[i]) ==> CandidateOf(ps, i) in r
    decreases |ps| - k
  {
    if k == |ps| then []
    else
      var rest := EligibleFrom(ps, k + 1);
      if Eligible(ps[k]) then [CandidateOf(ps, k)] + rest else rest
  }

  /** No two players share an id, as in a tournament's roster. */
  predicate DistinctIds(ps: seq<Dutch.Entrant>) {
    forall a, b :: 0 <= a < b < |ps| ==> ps[a].player.id != ps[b].player.id
  }

  /** No two different candidates share an id. */
  predicate KeyedById(cs: seq<Candidate>) {
    forall a, b :: 0 <= a < |cs| && 0 <= b < |cs| && cs[a].id == cs[b].id ==> cs[a] == cs[b]
  }

  /** `unplayed_counts`: keyed by id, a later candidate with the same id
      replacing an earlier one. */
  function UnplayedById(cs: seq<Candidate>, round: int): (m: map<string, int>)
    ensures forall i :: 0 <= i < |cs| ==> cs[i].id in m
    decreases |cs|
  {
    if cs == [] then map[]
    else
      var init := cs[..|cs| - 1];
      var last := cs[|cs| - 1];
      assert forall i :: 0 <= i < |init| ==> init[i] == cs[i];
      UnplayedById(init, round)[last.id := round - 1 - last.played]
  }

  /** With one candidate per id each candidate's own count is stored. */
  lemma {:induction false} UnplayedOwn(cs: seq<Candidate>, round: int, i: int)
    requires KeyedById(cs)
    requires 0 <= i < |cs|
    ensures UnplayedById(cs, round)[cs[i].id] == round - 1 - cs[i].played
    decreases |cs|
  {
    var init := cs[..|cs| - 1];
    if i < |cs| - 1 && cs[i].id != cs[|cs| - 1].id {
      assert init[i] == cs[i];
      assert KeyedById(init) by {
        forall a, b | 0 <= a < |init| && 0 <= b < |init| && init[a].id == init[b].id
          ensures init[a] == init[b]
        {
          assert init[a] == cs[a] && init[b] == cs[b];
        }
      }
      UnplayedOwn(init, round, i);
    }
  }

  /** Under one candidate per id, every stored count is the candidate's own. */
  lemma CountsOwn(cs: seq<Candidate>, round: int)
    requires KeyedById(cs)
    ensures var m := UnplayedById(cs, round);
            forall j :: 0 <= j < |cs| ==> m[cs[j].id] == round - 1 - cs[j].played
  {
    forall j | 0 <= j < |cs| ensures UnplayedById(cs, round)[cs[j].id] == round - 1 - cs[j].played {
      UnplayedOwn(cs, round, j);
    }
  }

  /** The candidates on score `low`. */
  function OnScore(cs: seq<Candidate>, low: real): (r: seq<Candidate>)
    ensures forall i :: 0 <= i < |r| ==> r[i] in cs && r[i].score == low
    ensures forall i :: 0 <= i < |cs| && cs[i].score == low ==> cs[i] in r
  {
    if cs == [] then []
    else
      var rest := OnScore(cs[1..], low);
      assert forall i :: 1 <= i < |cs| ==> cs[i] == cs[1..][i - 1];
      if cs[0].score == low then [cs[0]] + rest else rest
  }

  /** The candidates whose stored count is `k`. */
  function WithCount(cs: seq<Candidate>, m: map<string, int>, k: int): (r: seq<Candidate>)
    requires forall i :: 0 <= i < |cs| ==> cs[i].id in m
    ensures forall i :: 0 <= i < |r| ==> r[i] in cs && r[i].id in m && m[r[i].id] == k
    ensures forall i :: 0 <= i < |cs| && m[cs[i].id] == k ==> cs[i] in r
  {
    if cs == [] then []
    else
      assert forall i :: 1 <= i < |cs| ==> cs[i] == cs[1..][i - 1];
      var rest := WithCount(cs[1..], m, k);
      if m[cs[0].id] == k then [cs[0]] + rest else rest
  }

  function MinScore(cs: seq<Candidate>): (m: real)
    requires cs != []
    ensures exists i :: 0 <= i < |cs| && cs[i].score == m
    ensures forall i :: 0 <= i < |cs| ==> m <= cs[i].score
  {
    if |cs| == 1 then cs[0].score
    else
      var m := MinScore(cs[1..]);
      assert forall i :: 1 <= i < |cs| ==> cs[i] == cs[1..][i - 1];
      if cs[0].score <= m then cs[0].score else m
  }

  /** The candidates on the lowest score. */
  function LowestScored(cs: seq<Candidate>): (r: seq<Candidate>)
    requires cs != []
    ensures r != []
    ensures forall i :: 0 <= i < |r| ==> r[i] in cs
    ensures forall i, j :: 0 <= i < |r| && 0 <= j < |cs| ==> r[i].score <= cs[j].score
    ensures forall j :: 0 <= j < |cs| && cs[j].score == r[0].score ==> cs[j] in r
  {
    var low := MinScore(cs);
    var r := OnScore(cs, low);
    assert r != [] by {
      var k :| 0 <= k < |cs| && cs[k].score == low;
      assert cs[k] in r;
    }
    r
  }

  function MaxRounds(cs: seq<Candidate>): (m: nat)
    requires cs != []
    ensures forall i :: 0 <= i < |cs| ==> cs[i].rounds <= m
  {
    if |cs| == 1 then cs[0].rounds
    else
      var m := MaxRounds(cs[1..]);
      assert forall i :: 1 <= i < |cs| ==> cs[i] == cs[1..][i - 1];
      if cs[0].rounds >= m then cs[0].rounds else m
  }

  function UnplayedOf(cs: seq<Candidate>): (m: map<string, int>)
    requires cs != []
    ensures forall i :: 0 <= i < |cs| ==> cs[i].id in m
  {
    UnplayedById(cs, MaxRounds(cs) + 1)
  }

  /** `min_unplayed`. */
  function MinUnplayed(cs: seq<Candidate>, m: map<string, int>): (k: int)
    requires cs != []
    requires forall i :: 0 <= i < |cs| ==> cs[i].id in m
    ensures exists i :: 0 <= i < |cs| && m[cs[i].id] == k
    ensures forall i :: 0 <= i < |cs| ==> k <= m[cs[i].id]
  {
    if |cs| == 1 then m[cs[0].id]
    else
      var k := MinUnplayed(cs[1..], m);
      assert forall i :: 1 <= i < |cs| ==> cs[i] == cs[1..][i - 1];
      if m[cs[0].id] <= k then m[cs[0].id] else k
  }

  /** Of the lowest-scored candidates, those with the fewest unplayed rounds
      counted up to the round after the longest result list. */
  function FewestUnplayed(cs: seq<Candidate>): (r: seq<Candidate>)
    requires cs != []
    ensures r != []
    ensures forall i :: 0 <= i < |r| ==> r[i] in cs
  {
    var m := UnplayedOf(cs);
    var r := WithCount(cs, m, MinUnplayed(cs, m));
    assert r != [] by {
      var k :| 0 <= k < |cs| && m[cs[k].id] == MinUnplayed(cs, m);
      assert cs[k] in r;
    }
    r
  }

  /** The first candidate of the list sorted by pairing number: the lowest
      number, the earliest on a tie. */
  function LowestNumber(cs: seq<Candidate>): (c: Candidate)
    requires cs != []
    ensures c in cs
    ensures forall i :: 0 <= i < |cs| ==> c.number <= cs[i].number
  {
    if |cs| == 1 then cs[0]
    else
      var c := LowestNumber(cs[1..]);
      assert forall i :: 1 <= i < |cs| ==> cs[i] == cs[1..][i - 1];
      if cs[0].number <= c.number then cs[0] else c
  }

  /** The three tie-breaks applied to a non-empty list of candidates. */
  function Chosen(cs: seq<Candidate>): (c: Candidate)
    requires cs != []
    ensures c in cs
  {
    LowestNumber(FewestUnplayed(LowestScored(cs)))
  }

  /** `_select_pab_candidate`: the eligible player chosen by the
      tie-breaks, None when nobody is eligible. */
  function SelectPab(ps: seq<Dutch.Entrant>): (r: Option<Dutch.Entrant>)
    ensures r.None? <==> forall i :: 0 <= i < |ps| ==> !Eligible(ps[i])
    ensures r.Some? ==> r.value in ps && Eligible(r.value)
  {
    var cs := EligibleFrom(ps, 0);
    if cs == [] then None
    else
      var c := Chosen(cs);
      assert c.at < |ps| && Eligible(ps[c.at]) by {
        var d :| 0 <= d < |cs| && cs[d] == c;
      }
      Some(ps[c.at])
  }

  /** Among the lowest-scored candidates the kept ones have played the most
      games, and every candidate who played as many is kept. */
  lemma FewestUnplayedMostPlayed(cs: seq<Candidate>)
    requires cs != [] && KeyedById(cs)
    ensures var r := FewestUnplayed(cs);
            (forall i, j :: 0 <= i < |r| && 0 <= j < |cs| ==> cs[j].played <= r[i].played)
            && (forall j :: 0 <= j < |cs| && cs[j].played == r[0].played ==> cs[j] in r)
  {
    var m := UnplayedOf(cs);
    var fewest := MinUnplayed(cs, m);
    var r := WithCount(cs, m, fewest);
    assert r == FewestUnplayed(cs);
    CountsOwn(cs, MaxRounds(cs) + 1);
    forall i, j | 0 <= i < |r| && 0 <= j < |cs| ensures cs[j].played <= r[i].played {
      assert m[r[i].id] == fewest <= m[cs[j].id];
      var k :| 0 <= k < |cs| && cs[k] == r[i];
    }
    forall j | 0 <= j < |cs| && cs[j].played == r[0].played ensures cs[j] in r {
      var k :| 0 <= k < |cs| && cs[k] == r[0];
      assert m[cs[j].id] == fewest;
    }
  }

  /** Any selection from a list keyed by id is keyed by id. */
  lemma KeyedSub(cs: seq<Candidate>, sub: seq<Candidate>)
    requires KeyedById(cs)
    requires forall i :: 0 <= i < |sub| ==> sub[i] in cs
    ensures KeyedById(sub)
  {
    forall a, b | 0 <= a < |sub| && 0 <= b < |sub| && sub[a].id == sub[b].id
      ensures sub[a] == sub[b]
    {
      var u :| 0 <= u < |cs| && cs[u] == sub[a];
      var v :| 0 <= v < |cs| && cs[v] == sub[b];
    }
  }

  /** The last two tie-breaks on the lowest-scored candidates: most games
      played, then lowest pairing number. */
  lemma MostPlayedLowestNumber(low: seq<Candidate>)
    requires low != [] && KeyedById(low)
    ensures var c := LowestNumber(FewestUnplayed(low));
            forall y :: 0 <= y < |low| ==>
              low[y].played <= c.played && (low[y].played == c.played ==> c.number <= low[y].number)
  {
    var kept := FewestUnplayed(low);
    var c := LowestNumber(kept);
    FewestUnplayedMostPlayed(low);
    var a :| 0 <= a < |kept| && kept[a] == c;
    var z :| 0 <= z < |low| && low[z] == kept[0];
    var b :| 0 <= b < |low| && low[b] == c;
    assert low[b].played <= kept[0].played;
    assert low[z].played <= kept[a].played;
    forall y | 0 <= y < |low| && low[y].played == c.played ensures c.number <= low[y].number {
      assert low[y] in kept;
    }
  }

  /** The tie-breaks: lowest score, then most games played on that score,
      then lowest pairing number. */
  lemma ChosenOrder(cs: seq<Candidate>)
    requires cs != [] && KeyedById(cs)
    ensures var c := Chosen(cs);
            forall j :: 0 <= j < |cs| ==>
              c.score <= cs[j].score
              && (cs[j].score == c.score ==> cs[j].played <= c.played)
              && (cs[j].score == c.score && cs[j].played == c.played ==> c.number <= cs[j].number)
  {
    var low := LowestScored(cs);
    var c := Chosen(cs);
    KeyedSub(cs, low);
    MostPlayedLowestNumber(low);
    var b :| 0 <= b < |low| && low[b] == c;
    assert low[0].score == c.score by {
      var u :| 0 <= u < |cs| && cs[u] == low[0];
      var v :| 0 <= v < |cs| && cs[v] == low[b];
      assert low[0].score <= cs[v].score && low[b].score <= cs[u].score;
    }
    forall j | 0 <= j < |cs| && cs[j].score == c.score
      ensures cs[j].played <= c.played
      ensures cs[j].played == c.played ==> c.number <= cs[j].number
    {
      assert cs[j] in low;
      var y :| 0 <= y < |low| && low[y] == cs[j];
    }
  }

  /** The eligible candidates of a roster with distinct ids are keyed by id. */
  lemma EligibleKeyed(ps: seq<Dutch.Entrant>)
    requires DistinctIds(ps)
    ensures KeyedById(EligibleFrom(ps, 0))
  {
    var cs := EligibleFrom(ps, 0);
    forall a, b | 0 <= a < |cs| && 0 <= b < |cs| && cs[a].id == cs[b].id ensures cs[a] == cs[b] {
      assert cs[a].at == cs[b].at;
    }
  }

  /** `_select_pab_candidate` in full: the chosen player has the lowest score
      among the eligible, the most games played among those on that score,
      and the lowest pairing number among those with as many games. */
  lemma SelectPabChoice(ps: seq<Dutch.Entrant>)
    requires DistinctIds(ps)
    ensures var r := SelectPab(ps);
            r.Some? ==> forall i :: 0 <= i < |ps| && Eligible(ps[i]) ==>
              r.value.player.score <= ps[i].player.score
              && (ps[i].player.score == r.value.player.score ==> Played(ps[i]) <= Played(r.value))
              && (ps[i].player.score == r.value.player.score && Played(ps[i]) == Played(r.value) ==>
                    r.value.pairingNumber <= ps[i].pairingNumber)
  {
    var cs := EligibleFrom(ps, 0);
    if cs != [] {
      EligibleKeyed(ps);
      ChosenOrder(cs);
      var c := Chosen(cs);
      assert c == CandidateOf(ps, c.at) by {
        var d :| 0 <= d < |cs| && cs[d] == c;
      }
      forall i | 0 <= i < |ps| && Eligible(ps[i])
        ensures c.score <= ps[i].player.score
        ensures ps[i].player.score == c.score ==> Played(ps[i]) <= c.played
        ensures ps[i].player.score == c.score && Played(ps[i]) == c.played ==> c.number <= ps[i].pairingNumber
      {
        var j :| 0 <= j < |cs| && cs[j] == CandidateOf(ps, i);
      }
    }
  }

  // ------------------------------------------------------ scheduled byes

  /** `count / rate` is at least `count` when the rate is at most 1. */
  lemma DivideByAtMostOne(count: nat, rate: real)
    requires 0.0 < rate <= 1.0
    ensures count as real / rate >= count as real
  {
    var q := count as real / rate;
    assert q * rate == count as real;
  }

  /** `_apply_rate`: how many byes a rate asks for, `count / rate` truncated
      and kept within 0 and the player count; a rate of 0 or below means none. */
  function ApplyRate(count: nat, rate: real): (n: nat)
    ensures n <= count
    ensures rate <= 0.0 ==> n == 0
    ensures 0.0 < rate <= 1.0 ==> n == count
    ensures rate > 1.0 ==> n as real <= count as real / rate < n as real + 1.0
  {
    if rate <= 0.0 then 0
    else
      var q := count as real / rate;
      assert q >= 0.0;
      assert rate <= 1.0 ==> q >= count as real by {
        if rate <= 1.0 { DivideByAtMostOne(count, rate); }
      }
      var t := Text.Trunc(q);
      if t >= count then count else t
  }

  /** A larger rate never asks for more byes. */
  lemma ApplyRateMonotone(count: nat, r1: real, r2: real)
    requires 0.0 < r1 <= r2
    ensures ApplyRate(count, r2) <= ApplyRate(count, r1)
  {
    var q1 := count as real / r1;
    var q2 := count as real / r2;
    assert q1 * r1 == count as real && q2 * r2 == count as real;
    assert q2 <= q1;
  }

  /** The rounds a scheduled bye may fall on: every round, or every round
      but the last when the last is excluded (round 1 always remains). */
  function ByeRounds(numRounds: int, allowLast: bool): (rs: seq<int>)
    ensures forall i :: 0 <= i < |rs| ==> rs[i] == i + 1
    ensures allowLast ==> |rs| == if numRounds > 0 then numRounds else 0
    ensures !allowLast ==> |rs| == if numRounds > 2 then numRounds - 1 else 1
  {
    var n := if allowLast then (if numRounds > 0 then numRounds else 0)
             else (if numRounds > 2 then numRounds - 1 else 1);
    seq(n, i => i + 1)
  }

  /** The k-th random draw of `_assign_byes`: positions in the id list and
      in the round list, taken modulo their lengths. */
  type Choices = nat -> (nat, nat)

  /** No (player, round) placement occurs twice. */
  predicate NoRepeats(placed: seq<(string, int)>) {
    forall a, b :: 0 <= a < b < |placed| ==> placed[a] != placed[b]
  }

  /** Every placement names a listed player and a listed round. */
  predicate Drawn(placed: seq<(string, int)>, ids: seq<string>, rounds: seq<int>) {
    forall a :: 0 <= a < |placed| ==> placed[a].0 in ids && placed[a].1 in rounds
  }

  /** The `_assign_byes` loop: draw a player and a round; a pair not yet
      placed is kept and lowers the count still owed; the loop stops once
      nothing is owed or ten times the owed count has been reached in
      attempts. */
  function Place(ids: seq<string>, rounds: seq<int>, draw: Choices,
                 placed: seq<(string, int)>, owed: nat, attempts: nat): (r: seq<(string, int)>)
    requires ids != [] && rounds != []
    ensures |placed| <= |r| <= |placed| + owed && r[..|placed|] == placed
    ensures NoRepeats(placed) ==> NoRepeats(r)
    ensures Drawn(placed, ids, rounds) ==> Drawn(r, ids, rounds)
    decreases owed * 10 - attempts
  {
    if owed == 0 || attempts >= owed * 10 then placed
    else
      var (a, b) := draw(attempts);
      var pick := (ids[a % |ids|], rounds[b % |rounds|]);
      if pick in placed then Place(ids, rounds, draw, placed, owed, attempts + 1)
      else
        var r := Place(ids, rounds, draw, placed + [pick], owed - 1, attempts + 1);
        assert (placed + [pick])[..|placed|] == placed;
        assert r[..|placed|] == r[..|placed| + 1][..|placed|];
        r
  }

  /** The rounds placed for one player, in placement order. */
  function RoundsOf(placed: seq<(string, int)>, id: string): (rs: seq<int>)
    ensures forall k :: 0 <= k < |rs| ==> (id, rs[k]) in placed
    ensures forall a :: 0 <= a < |placed| && placed[a].0 == id ==> placed[a].1 in rs
  {
    if placed == [] then []
    else
      var rest := RoundsOf(placed[1..], id);
      assert forall a :: 1 <= a < |placed| ==> placed[a] == placed[1..][a - 1];
      if placed[0].0 == id then [placed[0].1] + rest else rest
  }

  /** No round occurs twice. */
  predicate DistinctRounds(rs: seq<int>) {
    forall j, k :: 0 <= j < k < |rs| ==> rs[j] != rs[k]
  }

  /** A player's rounds are distinct when no placement repeats. */
  lemma {:induction false} RoundsOfDistinct(placed: seq<(string, int)>, id: string)
    requires NoRepeats(placed)
    ensures DistinctRounds(RoundsOf(placed, id))
  {
    if placed != [] {
      var tail := placed[1..];
      assert NoRepeats(tail) by {
        forall a, b | 0 <= a < b < |tail| ensures tail[a] != tail[b] {
          assert tail[a] == placed[a + 1] && tail[b] == placed[b + 1];
        }
      }
      RoundsOfDistinct(tail, id);
      var rest := RoundsOf(tail, id);
      if placed[0].0 == id {
        forall k | 0 <= k < |rest| ensures rest[k] != placed[0].1 {
          var a :| 0 <= a < |tail| && tail[a] == (id, rest[k]);
          assert tail[a] == placed[a + 1];
        }
        var rs := RoundsOf(placed, id);
        assert rs == [placed[0].1] + rest;
        forall j, k | 0 <= j < k < |rs| ensures rs[j] != rs[k] {
          assert rs[k] == rest[k - 1];
          if j > 0 { assert rs[j] == rest[j - 1]; }
        }
      }
    }
  }

  /** The schedule dictionary: every listed id, with its rounds. */
  function ScheduleOf(ids: seq<string>, placed: seq<(string, int)>): (m: map<string, seq<int>>)
    ensures m.Keys == set i | 0 <= i < |ids| :: ids[i]
    ensures forall id :: id in m ==> m[id] == RoundsOf(placed, id)
  {
    map id | id in (set i | 0 <= i < |ids| :: ids[i]) :: RoundsOf(placed, id)
  }

  datatype ByeError = EmptyChoice

  /** `_assign_byes`: an empty schedule when no bye is owed; otherwise
      `random.choice` on an empty id or round list raises. */
  function AssignByes(ids: seq<string>, byeCount: int, numRounds: int, allowLast: bool, draw: Choices)
    : (r: Result<map<string, seq<int>>, ByeError>)
    ensures r.Failure? <==> byeCount > 0 && (ids == [] || (allowLast && numRounds <= 0))
    ensures r.Success? ==> r.value.Keys == set i | 0 <= i < |ids| :: ids[i]
    ensures r.Success? && byeCount <= 0 ==> forall id :: id in r.value ==> r.value[id] == []
  {
    if byeCount <= 0 then Success(ScheduleOf(ids, []))
    else
      var rounds := ByeRounds(numRounds, allowLast);
      if ids == [] || rounds == [] then Failure(EmptyChoice)
      else Success(ScheduleOf(ids, Place(ids, rounds, draw, [], byeCount, 0)))
  }

  /** What `_assign_byes` promises of a schedule: no round twice for one
      player, every round within the tournament and, when the last round is
      excluded from a tournament of two or more rounds, before the last;
      and no more byes than asked for. */
  lemma AssignByesSound(ids: seq<string>, byeCount: int, numRounds: int, allowLast: bool, draw: Choices)
    requires AssignByes(ids, byeCount, numRounds, allowLast, draw).Success?
    ensures var m := AssignByes(ids, byeCount, numRounds, allowLast, draw).value;
            forall id :: id in m ==>
              DistinctRounds(m[id])
              && (forall k :: 0 <= k < |m[id]| ==>
                    1 <= m[id][k] && (m[id][k] <= numRounds || numRounds <= 1)
                    && (!allowLast && numRounds >= 2 ==> m[id][k] < numRounds))
    ensures byeCount > 0 ==> |Place(ids, ByeRounds(numRounds, allowLast), draw, [], byeCount, 0)| <= byeCount
  {
    var m := AssignByes(ids, byeCount, numRounds, allowLast, draw).value;
    if byeCount > 0 {
      var rounds := ByeRounds(numRounds, allowLast);
      var placed := Place(ids, rounds, draw, [], byeCount, 0);
      forall id | id in m
        ensures DistinctRounds(m[id])
        ensures forall k :: 0 <= k < |m[id]| ==>
                  1 <= m[id][k] && (m[id][k] <= numRounds || numRounds <= 1)
                  && (!allowLast && numRounds >= 2 ==> m[id][k] < numRounds)
      {
        RoundsOfDistinct(placed, id);
        forall k | 0 <= k < |m[id]|
          ensures 1 <= m[id][k] && (m[id][k] <= numRounds || numRounds <= 1)
          ensures !allowLast && numRounds >= 2 ==> m[id][k] < numRounds
        {
          var a :| 0 <= a < |placed| && placed[a] == (id, m[id][k]);
          var j :| 0 <= j < |rounds| && rounds[j] == placed[a].1;
        }
      }
    }
  }

  /** The two schedules the generator draws before the first round. */
  datatype ByeSchedule = ByeSchedule(zeroPointByes: map<string, seq<int>>, halfPointByes: map<string, seq<int>>)

  /** `_build_bye_schedule`: zero-point byes at the retirement rate on any
      round, half-point byes at their own rate before the last round. */
  function BuildByeSchedule(ids: seq<string>, numRounds: int, retiredRate: real, halfRate: real,
                            zeroDraw: Choices, halfDraw: Choices): (r: Result<ByeSchedule, ByeError>)
    ensures r.Failure? <==>
              (ids != [] && numRounds <= 0 && ApplyRate(|ids|, retiredRate) > 0)
    ensures r.Success? && retiredRate <= 0.0 && halfRate <= 0.0 ==>
              forall id :: id in r.value.zeroPointByes ==> r.value.zeroPointByes[id] == []
  {
    var zero := AssignByes(ids, ApplyRate(|ids|, retiredRate), numRounds, true, zeroDraw);
    var half := AssignByes(ids, ApplyRate(|ids|, halfRate), numRounds, false, halfDraw);
    if zero.Failure? then Failure(zero.error)
    else
      assert half.Success?;
      Success(ByeSchedule(zero.value, half.value))
  }

  // ------------------------------------------------------ engines

  datatype GeneratorError = UnsupportedSystem

  /** Which engines a round consults: Gambit's own Dutch implementation,
      bbpPairings, whose pairings become the round's, and whether the
      finished tournament is checked against the FIDE criteria. */
  datatype Plan = Plan(runGambit: bool, runBbp: bool, officialFromBbp: bool, validateFpc: bool)

  /** `generate_complete_tournament` and `_simulate_round`: the three
      supported systems and what each one runs. */
  function PlanFor(system: string, validateWithFpc: bool): (r: Result<Plan, GeneratorError>)
    ensures r.Failure? <==> system != "dutch_swiss" && system != "bbp_dutch" && system != "dual"
    ensures r.Success? ==> r.value.runGambit || r.value.runBbp
    ensures r.Success? ==> (r.value.officialFromBbp ==> r.value.runBbp) && (!r.value.officialFromBbp ==> r.value.runGambit)
    ensures r.Success? ==> (r.value.validateFpc <==> validateWithFpc && r.value.runGambit)
  {
    if system != "dutch_swiss" && system != "bbp_dutch" && system != "dual" then Failure(UnsupportedSystem)
    else
      var gambit := system == "dutch_swiss" || system == "dual";
      var bbp := system == "bbp_dutch" || system == "dual";
      Success(Plan(gambit, bbp, system == "bbp_dutch", validateWithFpc && gambit))
  }

  /** The two engines' pairings are compared only in the dual system, and
      only there do they both run. */
  lemma PlanCompares(system: string, validateWithFpc: bool)
    requires PlanFor(system, validateWithFpc).Success?
    ensures var p := PlanFor(system, validateWithFpc).value;
            (p.runGambit && p.runBbp) <==> system == "dual"
  {
  }

  /** How many pairs each engine made that the other also made, or not. */
  datatype PairCounts = PairCounts(matching: nat, gambitOnly: nat, bbpOnly: nat)

  /** A set minus another is empty exactly when it is contained in it. */
  lemma EmptyDifference<T>(a: set<T>, b: set<T>)
    ensures |a - b| == 0 <==> a <= b
  {
    if |a - b| != 0 {
      var x :| x in a - b;
      assert !(a <= b);
    } else {
      assert a - b == {};
      forall x | x in a ensures x in b {
        assert x !in a - b;
      }
    }
  }

  /** The three counts of two sets. */
  function SetCounts<T>(g: set<T>, b: set<T>): (c: PairCounts)
    ensures c.matching + c.gambitOnly == |g|
    ensures c.matching + c.bbpOnly == |b|
    ensures c.gambitOnly == 0 <==> g <= b
    ensures c.bbpOnly == 0 <==> b <= g
  {
    Engine.Partition(g, b);
    Engine.Partition(b, g);
    assert b * g == g * b;
    EmptyDifference(g, b);
    EmptyDifference(b, g);
    PairCounts(|g * b|, |g - b|, |b - g|)
  }

  /** `_compare_pairings`: pairs compared as unordered pairs of ids. */
  function ComparePairings(gambit: seq<Fpc.Pairing>, bbp: seq<Fpc.Pairing>): (c: PairCounts)
    ensures c.matching + c.gambitOnly == |Engine.PairSet(gambit)|
    ensures c.matching + c.bbpOnly == |Engine.PairSet(bbp)|
    ensures c.gambitOnly == 0 <==> Engine.PairSet(gambit) <= Engine.PairSet(bbp)
    ensures c.bbpOnly == 0 <==> Engine.PairSet(bbp) <= Engine.PairSet(gambit)
  {
    SetCounts(Engine.PairSet(gambit), Engine.PairSet(bbp))
  }

  /** The generator's counts agree with the comparison engine's analysis. */
  lemma ComparePairingsAgree(gambit: seq<Fpc.Pairing>, bbp: seq<Fpc.Pairing>)
    ensures var c, d := ComparePairings(gambit, bbp), Engine.AnalyzeDifferences(gambit, bbp);
            c.matching == d.matching && c.gambitOnly == |d.gambitOnly| && c.bbpOnly == |d.bbpOnly|
  {
  }

  /** Each pair with its colours swapped. */
  function Flipped(ps: seq<Fpc.Pairing>): (r: seq<Fpc.Pairing>)
    ensures |r| == |ps| && forall i :: 0 <= i < |ps| ==> r[i] == (ps[i].1, ps[i].0)
  {
    seq(|ps|, i requires 0 <= i < |ps| => (ps[i].1, ps[i].0))
  }

  /** Colours do not matter: a pairing compared with its colour-swapped
      copy matches in every pair. */
  lemma ComparePairingsColourBlind(ps: seq<Fpc.Pairing>)
    ensures var c := ComparePairings(ps, Flipped(ps));
            c.gambitOnly == 0 && c.bbpOnly == 0 && c.matching == |Engine.PairSet(ps)|
  {
    var f := Flipped(ps);
    forall i | 0 <= i < |ps| ensures Engine.KeyOf(f[i]) == Engine.KeyOf(ps[i]) {
      Engine.KeySymmetric(ps[i].0.id, ps[i].1.id);
    }
    assert Engine.PairSet(f) == Engine.PairSet(ps) by {
      forall k ensures k in Engine.PairSet(f) <==> k in Engine.PairSet(ps) {
        if k in Engine.PairSet(f) {
          var i :| 0 <= i < |f| && Engine.KeyOf(f[i]) == k;
        }
        if k in Engine.PairSet(ps) {
          var i :| 0 <= i < |ps| && Engine.KeyOf(ps[i]) == k;
          assert Engine.KeyOf(f[i]) == k;
        }
      }
    }
  }

  // ------------------------------------------------------ one round's roster

  /** `dict.get(id, [])` holds the round. */
  predicate ScheduledOn(m: map<string, seq<int>>, id: string, round: int) {
    id in m && round in m[id]
  }

  /** The players with a zero-point bye this round, those with a half-point
      bye, and the active players left to pair. */
  datatype Roster = Roster(zero: seq<Player>, half: seq<Player>, active: seq<Player>)

  predicate Excused(p: Player, round: int, byes: ByeSchedule) {
    ScheduledOn(byes.zeroPointByes, p.id, round) || ScheduledOn(byes.halfPointByes, p.id, round)
  }

  /** The first steps of `_simulate_round`: scheduled byes are taken out
      and only active players are paired. */
  function RoundRoster(players: seq<Player>, round: int, byes: ByeSchedule): (r: Roster)
    ensures forall i :: 0 <= i < |players| ==>
              (players[i] in r.zero <== ScheduledOn(byes.zeroPointByes, players[i].id, round))
              && (players[i] in r.half <== ScheduledOn(byes.halfPointByes, players[i].id, round))
              && (players[i] in r.active <== players[i].isActive && !Excused(players[i], round, byes))
    ensures forall i :: 0 <= i < |r.zero| ==> r.zero[i] in players && ScheduledOn(byes.zeroPointByes, r.zero[i].id, round)
    ensures forall i :: 0 <= i < |r.half| ==> r.half[i] in players && ScheduledOn(byes.halfPointByes, r.half[i].id, round)
    ensures forall i :: 0 <= i < |r.active| ==>
              r.active[i] in players && r.active[i].isActive && !Excused(r.active[i], round, byes)
  {
    Roster(Seqs.Filter(players, (p: Player) => ScheduledOn(byes.zeroPointByes, p.id, round)),
           Seqs.Filter(players, (p: Player) => ScheduledOn(byes.halfPointByes, p.id, round)),
           Seqs.Filter(players, (p: Player) => p.isActive && !Excused(p, round, byes)))
  }

  // ------------------------------------------------------ TRF export

  /** One entry of a round's `results`: as the round simulation records it,
      both scores and the forfeit flag. */
  datatype ResultRow = ResultRow(whiteId: string, blackId: string, whiteScore: real, blackScore: real, forfeit: bool)

  datatype RoundRecord = RoundRecord(number: int, pairings: seq<(Dutch.Entrant, Dutch.Entrant)>, results: seq<ResultRow>)

  /** The configuration fields the export prints. */
  datatype ExportConfig = ExportConfig(numPlayers: int, numRounds: int, seed: Option<int>)

  function HeaderLines(config: ExportConfig): (ls: seq<string>)
    ensures |ls| == 3
  {
    ["012 " + Format.ZeroPad(config.numPlayers, 3),
     "013 " + Format.ZeroPad(config.numRounds, 3),
     "001 " + Format.ZeroPad(config.seed.GetOr(0), 10)]
  }

  /** Fields written one after the other, a space between two. */
  function Spaced(fields: seq<string>): string
    requires |fields| > 0
  {
    if |fields| == 1 then fields[0] else fields[0] + (" " + Spaced(fields[1..]))
  }

  /** `f"001 {i+1:04d} {name:20s} {rating:04d} 0 0 0"`. */
  function PlayerLine(i: nat, p: Player): string {
    "001 " + Spaced([Format.ZeroPad(i + 1, 4), Format.LeftAlign(p.name, 20), Format.ZeroPad(p.rating, 4), "0", "0", "0"])
  }

  function PlayerLines(players: seq<Player>): (ls: seq<string>)
    ensures |ls| == |players|
    ensures forall i :: 0 <= i < |players| ==> ls[i] == PlayerLine(i, players[i])
  {
    seq(|players|, i requires 0 <= i < |players| => PlayerLine(i, players[i]))
  }

  function PairingLine(round: int, w: Dutch.Entrant, b: Dutch.Entrant): string {
    "022 " + Spaced([Format.ZeroPad(round, 3), Format.ZeroPad(w.pairingNumber, 4), Format.ZeroPad(b.pairingNumber, 4)])
  }

  /** A result line, white's score printed with one decimal. */
  function ResultLine(round: int, r: ResultRow): string {
    "096 " + Spaced([Format.ZeroPad(round, 3), r.whiteId, r.blackId, Format.Fixed1(r.whiteScore)])
  }

  /** A round's pairing lines, then its result lines. */
  function RoundLines(r: RoundRecord): (ls: seq<string>)
    ensures |ls| == |r.pairings| + |r.results|
    ensures forall i :: 0 <= i < |r.pairings| ==> ls[i] == PairingLine(r.number, r.pairings[i].0, r.pairings[i].1)
    ensures forall i :: 0 <= i < |r.results| ==> ls[|r.pairings| + i] == ResultLine(r.number, r.results[i])
  {
    seq(|r.pairings|, i requires 0 <= i < |r.pairings| => PairingLine(r.number, r.pairings[i].0, r.pairings[i].1))
    + seq(|r.results|, i requires 0 <= i < |r.results| => ResultLine(r.number, r.results[i]))
  }

  function AllRoundLines(rounds: seq<RoundRecord>): (ls: seq<string>)
  {
    if rounds == [] then [] else RoundLines(rounds[0]) + AllRoundLines(rounds[1..])
  }

  /** How many lines the rounds contribute. */
  function LineCount(rounds: seq<RoundRecord>): nat {
    if rounds == [] then 0 else |rounds[0].pairings| + |rounds[0].results| + LineCount(rounds[1..])
  }

  lemma {:induction false} AllRoundLinesCount(rounds: seq<RoundRecord>)
    ensures |AllRoundLines(rounds)| == LineCount(rounds)
  {
    if rounds != [] {
      AllRoundLinesCount(rounds[1..]);
    }
  }

  /** The lines of the TRF export, header, players and rounds in order. */
  function TrfLines(config: ExportConfig, players: seq<Player>, rounds: seq<RoundRecord>): (ls: seq<string>)
    ensures |ls| >= 3
  {
    HeaderLines(config) + PlayerLines(players) + AllRoundLines(rounds)
  }

  datatype ExportError = UnpackError

  /** `export_trf_format` as written: each result row is unpacked into four
      names while the round simulation stores five values, so any round
      with a result raises. */
  function ExportTrfAsWritten(config: ExportConfig, players: seq<Player>, rounds: seq<RoundRecord>)
    : (r: Result<string, ExportError>)
    ensures r.Failure? <==> exists i :: 0 <= i < |rounds| && rounds[i].results != []
    ensures r.Success? ==> r.value == ExportTrf(config, players, rounds)
  {
    if exists i :: 0 <= i < |rounds| && rounds[i].results != [] then Failure(UnpackError)
    else Success(Text.Join(TrfLines(config, players, rounds), '\n') + "\n")
  }

  /** `export_trf_format` reading each result row with its five fields and
      printing white's score. */
  function ExportTrf(config: ExportConfig, players: seq<Player>, rounds: seq<RoundRecord>): (text: string)
    ensures |text| > 0 && text[|text| - 1] == '\n'
  {
    Text.Join(TrfLines(config, players, rounds), '\n') + "\n"
  }

  /** As written, the export fails on every tournament that was played: one
      round with one game is enough. */
  lemma ExportFailsOnPlayedRound(config: ExportConfig, players: seq<Player>, rounds: seq<RoundRecord>, k: nat)
    requires k < |rounds| && rounds[k].results != []
    ensures ExportTrfAsWritten(config, players, rounds) == Failure(UnpackError)
  {
  }

  /** Where no round has a result the two exports agree. */
  lemma ExportAgreesWithoutResults(config: ExportConfig, players: seq<Player>, rounds: seq<RoundRecord>)
    requires forall i :: 0 <= i < |rounds| ==> rounds[i].results == []
    ensures ExportTrfAsWritten(config, players, rounds) == Success(ExportTrf(config, players, rounds))
  {
  }

  /** The export has one line per header field, player, pairing and result. */
  lemma ExportLineCount(config: ExportConfig, players: seq<Player>, rounds: seq<RoundRecord>)
    ensures |TrfLines(config, players, rounds)| == 3 + |players| + LineCount(rounds)
  {
    AllRoundLinesCount(rounds);
  }

  /** Printed numbers hold no line break. */
  lemma NumeralNoBreak(n: int, width: nat)
    ensures Format.NoBreak(Format.ZeroPad(n, width))
    ensures var z := Format.ZeroPad(n, width); |z| > 0 && !Text.IsSpace(z[|z| - 1])
  {
    var z := Format.ZeroPad(n, width);
    assert |Text.IntToString(n)| > 0;
  }

  lemma ScoreNoBreak(x: real)
    ensures Format.NoBreak(Format.Fixed1(x))
  {
  }

  /** A TRF record code: three digits and a space. */
  predicate RecordCode(code: string) {
    |code| == 4 && Text.IsDigit(code[0]) && Text.IsDigit(code[1]) && Text.IsDigit(code[2]) && code[3] == ' '
  }

  /** A line made of a record code and `rest`, where `rest` breaks no line
      and does not end in a space. */
  lemma RecordIsLine(code: string, rest: string)
    requires RecordCode(code) && Format.NoBreak(rest)
    requires |rest| > 0 && !Text.IsSpace(rest[|rest| - 1])
    ensures Format.Line(code + rest)
  {
    var l := code + rest;
    assert Format.NoBreak(code);
    Format.NoBreakConcat(code, rest);
    assert l[0] == code[0] && l[|l| - 1] == rest[|rest| - 1];
  }

  /** A record code followed by one printed number. */
  lemma NumberRecordIsLine(code: string, n: int, width: nat)
    requires RecordCode(code)
    ensures Format.Line(code + Format.ZeroPad(n, width))
  {
    NumeralNoBreak(n, width);
    RecordIsLine(code, Format.ZeroPad(n, width));
  }

  /** Fields that break no line, the last one not ending in a space, make
      a line that breaks none and does not end in a space. */
  lemma {:induction false} SpacedNoBreak(fields: seq<string>)
    requires |fields| > 0 && forall i :: 0 <= i < |fields| ==> Format.NoBreak(fields[i])
    requires |fields[|fields| - 1]| > 0 && !Text.IsSpace(fields[|fields| - 1][|fields[|fields| - 1]| - 1])
    ensures Format.NoBreak(Spaced(fields))
    ensures |Spaced(fields)| > 0 && !Text.IsSpace(Spaced(fields)[|Spaced(fields)| - 1])
  {
    if |fields| > 1 {
      var rest := Spaced(fields[1..]);
      SpacedNoBreak(fields[1..]);
      Format.NoBreakConcat(" ", rest);
      Format.NoBreakConcat(fields[0], " " + rest);
      assert Spaced(fields) == fields[0] + (" " + rest);
    }
  }

  lemma PlayerLineIsLine(i: nat, p: Player)
    requires Format.NoBreak(p.name)
    ensures Format.Line(PlayerLine(i, p))
  {
    NumeralNoBreak(i + 1, 4);
    NumeralNoBreak(p.rating, 4);
    AlignedNoBreak(p.name, 20);
    var fs := [Format.ZeroPad(i + 1, 4), Format.LeftAlign(p.name, 20), Format.ZeroPad(p.rating, 4), "0", "0", "0"];
    ThreeThenZeros(fs[0], fs[1], fs[2]);
    SpacedNoBreak(fs);
    RecordIsLine("001 ", Spaced(fs));
  }

  lemma AlignedNoBreak(text: string, width: nat)
    requires Format.NoBreak(text)
    ensures Format.NoBreak(Format.LeftAlign(text, width))
  {
    var r := Format.LeftAlign(text, width);
    forall k | 0 <= k < |r| ensures !Format.IsLineBreak(r[k]) {
      if k < |text| { assert r[k] == r[..|text|][k]; }
    }
  }

  lemma ThreeThenZeros(a: string, b: string, c: string)
    requires Format.NoBreak(a) && Format.NoBreak(b) && Format.NoBreak(c)
    ensures var fs := [a, b, c, "0", "0", "0"];
            (forall k :: 0 <= k < |fs| ==> Format.NoBreak(fs[k]))
            && |fs[|fs| - 1]| > 0 && !Text.IsSpace(fs[|fs| - 1][|fs[|fs| - 1]| - 1])
  {
    var fs := [a, b, c, "0", "0", "0"];
    forall k | 0 <= k < |fs| ensures Format.NoBreak(fs[k]) {
      if k == 0 {} else if k == 1 {} else if k == 2 {} else {}
    }
  }

  lemma PairingLineIsLine(round: int, w: Dutch.Entrant, b: Dutch.Entrant)
    ensures Format.Line(PairingLine(round, w, b))
  {
    NumeralNoBreak(round, 3);
    NumeralNoBreak(w.pairingNumber, 4);
    NumeralNoBreak(b.pairingNumber, 4);
    var fs := [Format.ZeroPad(round, 3), Format.ZeroPad(w.pairingNumber, 4), Format.ZeroPad(b.pairingNumber, 4)];
    SpacedNoBreak(fs);
    RecordIsLine("022 ", Spaced(fs));
  }

  lemma ResultLineIsLine(round: int, r: ResultRow)
    requires Format.NoBreak(r.whiteId) && Format.NoBreak(r.blackId)
    ensures Format.Line(ResultLine(round, r))
  {
    NumeralNoBreak(round, 3);
    ScoreNoBreak(r.whiteScore);
    var fs := [Format.ZeroPad(round, 3), r.whiteId, r.blackId, Format.Fixed1(r.whiteScore)];
    SpacedNoBreak(fs);
    RecordIsLine("096 ", Spaced(fs));
  }

  /** Names and ids the export can write on one line each. */
  predicate Printable(players: seq<Player>, rounds: seq<RoundRecord>) {
    (forall i :: 0 <= i < |players| ==> Format.NoBreak(players[i].name))
    && (forall i, j :: 0 <= i < |rounds| && 0 <= j < |rounds[i].results| ==>
          Format.NoBreak(rounds[i].results[j].whiteId) && Format.NoBreak(rounds[i].results[j].blackId))
  }

  /** Every line of one round is a line of its own. */
  lemma OneRoundLines(r: RoundRecord)
    requires forall j :: 0 <= j < |r.results| ==> Format.NoBreak(r.results[j].whiteId) && Format.NoBreak(r.results[j].blackId)
    ensures forall i :: 0 <= i < |RoundLines(r)| ==> Format.Line(RoundLines(r)[i])
  {
    var ls := RoundLines(r);
    forall i | 0 <= i < |ls| ensures Format.Line(ls[i]) {
      if i < |r.pairings| {
        PairingLineIsLine(r.number, r.pairings[i].0, r.pairings[i].1);
      } else {
        ResultLineIsLine(r.number, r.results[i - |r.pairings|]);
      }
    }
  }

  lemma PrintableTail(rounds: seq<RoundRecord>)
    requires rounds != [] && Printable([], rounds)
    ensures Printable([], rounds[1..])
    ensures forall j :: 0 <= j < |rounds[0].results| ==>
              Format.NoBreak(rounds[0].results[j].whiteId) && Format.NoBreak(rounds[0].results[j].blackId)
  {
    forall i, j | 0 <= i < |rounds[1..]| && 0 <= j < |rounds[1..][i].results|
      ensures Format.NoBreak(rounds[1..][i].results[j].whiteId) && Format.NoBreak(rounds[1..][i].results[j].blackId)
    {
      assert rounds[1..][i] == rounds[i + 1];
    }
  }

  /** All lines of the concatenation of two lists of lines are lines. */
  lemma AllLinesConcat(a: seq<string>, b: seq<string>)
    requires forall i :: 0 <= i < |a| ==> Format.Line(a[i])
    requires forall i :: 0 <= i < |b| ==> Format.Line(b[i])
    ensures forall i :: 0 <= i < |a + b| ==> Format.Line((a + b)[i])
  {
    forall i | 0 <= i < |a + b| ensures Format.Line((a + b)[i]) {
      if i >= |a| { assert (a + b)[i] == b[i - |a|]; }
    }
  }

  lemma {:induction false} RoundLinesAreLines(rounds: seq<RoundRecord>)
    requires Printable([], rounds)
    ensures forall i :: 0 <= i < |AllRoundLines(rounds)| ==> Format.Line(AllRoundLines(rounds)[i])
  {
    if rounds != [] {
      PrintableTail(rounds);
      RoundLinesAreLines(rounds[1..]);
      OneRoundLines(rounds[0]);
      AllLinesConcat(RoundLines(rounds[0]), AllRoundLines(rounds[1..]));
    }
  }

  lemma HeaderAreLines(config: ExportConfig)
    ensures forall i :: 0 <= i < |HeaderLines(config)| ==> Format.Line(HeaderLines(config)[i])
  {
    var h := HeaderLines(config);
    NumberRecordIsLine("012 ", config.numPlayers, 3);
    NumberRecordIsLine("013 ", config.numRounds, 3);
    NumberRecordIsLine("001 ", config.seed.GetOr(0), 10);
    forall i | 0 <= i < 3 ensures Format.Line(h[i]) {
      if i == 0 {} else if i == 1 {} else {}
    }
  }

  lemma PlayerLinesAreLines(players: seq<Player>)
    requires forall i :: 0 <= i < |players| ==> Format.NoBreak(players[i].name)
    ensures forall i :: 0 <= i < |PlayerLines(players)| ==> Format.Line(PlayerLines(players)[i])
  {
    forall i | 0 <= i < |players| ensures Format.Line(PlayerLines(players)[i]) {
      PlayerLineIsLine(i, players[i]);
    }
  }

  /** Reading the exported text back line by line gives exactly the lines
      written, when no name or id holds a line break. */
  lemma ExportReadsBack(config: ExportConfig, players: seq<Player>, rounds: seq<RoundRecord>)
    requires Printable(players, rounds)
    ensures Format.Lines(ExportTrf(config, players, rounds)) == TrfLines(config, players, rounds)
  {
    HeaderAreLines(config);
    PlayerLinesAreLines(players);
    assert Printable([], rounds);
    RoundLinesAreLines(rounds);
    AllLinesConcat(HeaderLines(config), PlayerLines(players));
    AllLinesConcat(HeaderLines(config) + PlayerLines(players), AllRoundLines(rounds));
    Format.LinesOfTerminated(TrfLines(config, players, rounds));
  }
}
