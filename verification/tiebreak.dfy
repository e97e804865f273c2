/** tournament/tiebreak_calculator.py: the tiebreak scores of a player
    computed from the opponents' current scores, and head-to-head. */
module Tiebreaks {
  import opened Wrappers
  import opened Players
  import Constants

  // ------------------------------------------------------------ sorting

  predicate Ascending(s: seq<real>) {
    forall i, j :: 0 <= i < j < |s| ==> s[i] <= s[j]
  }

  function Insert(x: real, s: seq<real>): (r: seq<real>)
    requires Ascending(s)
    ensures Ascending(r)
    ensures multiset(r) == multiset(s) + multiset{x}
    ensures |r| == |s| + 1
  {
    if |s| == 0 then [x]
    else if x <= s[0] then [x] + s
    else
      var t := Insert(x, s[1..]);
      InsertAbove(x, s, t);
      [s[0]] + t
  }

  lemma InsertAbove(x: real, s: seq<real>, t: seq<real>)
    requires Ascending(s) && |s| > 0 && x > s[0]
    requires Ascending(t) && multiset(t) == multiset(s[1..]) + multiset{x}
    ensures Ascending([s[0]] + t)
    ensures multiset([s[0]] + t) == multiset(s) + multiset{x}
  {
    forall k | 0 <= k < |t|
      ensures t[k] >= s[0]
    {
      assert t[k] in multiset(t);
      assert t[k] in multiset(s[1..]) + multiset{x};
      if t[k] != x {
        assert t[k] in s[1..];
      }
    }
    assert s == [s[0]] + s[1..];
  }

  /** Python's `sorted` on a list of scores. */
  function SortReals(s: seq<real>): (r: seq<real>)
    ensures Ascending(r)
    ensures multiset(r) == multiset(s)
    ensures |r| == |s|
  {
    if |s| == 0 then []
    else
      assert s == s[..|s| - 1] + [s[|s| - 1]];
      Insert(s[|s| - 1], SortReals(s[..|s| - 1]))
  }

  lemma {:induction false} SumInsert(x: real, s: seq<real>)
    requires Ascending(s)
    ensures Sum(Insert(x, s)) == x + Sum(s)
    decreases |s|
  {
    if |s| > 0 && x > s[0] {
      SumInsert(x, s[1..]);
      SumFront(s[0], s[1..]);
      SumFront(s[0], Insert(x, s[1..]));
      assert s == [s[0]] + s[1..];
    } else {
      SumFront(x, s);
    }
  }

  lemma {:induction false} SumFront(x: real, s: seq<real>)
    ensures Sum([x] + s) == x + Sum(s)
    decreases |s|
  {
    if |s| > 0 {
      var t := [x] + s;
      assert t[..|t| - 1] == [x] + s[..|s| - 1];
      SumFront(x, s[..|s| - 1]);
    }
  }

  /** Sorting keeps the total. */
  lemma {:induction false} SumSort(s: seq<real>)
    ensures Sum(SortReals(s)) == Sum(s)
    decreases |s|
  {
    if |s| > 0 {
      SumSort(s[..|s| - 1]);
      SumInsert(s[|s| - 1], SortReals(s[..|s| - 1]));
    }
  }

  predicate NonNegative(s: seq<real>) {
    forall i :: 0 <= i < |s| ==> s[i] >= 0.0
  }

  lemma {:induction false} SumNonNegative(s: seq<real>)
    requires NonNegative(s)
    ensures Sum(s) >= 0.0
    decreases |s|
  {
    if |s| > 0 {
      SumNonNegative(s[..|s| - 1]);
    }
  }

  // ------------------------------------------------- per-opponent figures

  /** A round that counts as a game against a player still in the
      tournament: a non-empty opponent id that is known. */
  predicate RealOpponent(p: Player, players: map<string, Player>, i: int)
    requires 0 <= i < |p.opponentIds|
  {
    p.opponentIds[i].Some? && p.opponentIds[i].value != "" && p.opponentIds[i].value in players
  }

  /** The current scores of the real opponents among the first `n` rounds,
      in round order. */
  function OpponentScores(p: Player, players: map<string, Player>, n: nat): (r: seq<real>)
    requires n <= |p.opponentIds|
    ensures |r| <= n
    ensures |r| == 0 <==> forall i :: 0 <= i < n ==> !RealOpponent(p, players, i)
  {
    if n == 0 then []
    else OpponentScores(p, players, n - 1)
         + (if RealOpponent(p, players, n - 1) then [players[p.opponentIds[n - 1].value].score] else [])
  }

  /** Sonneborn-Berger over the first `n` rounds: a win earns the opponent's
      score and a draw half of it. */
  function SonnebornBerger(p: Player, players: map<string, Player>, n: nat): real
    requires n <= |p.opponentIds|
  {
    if n == 0 then 0.0
    else
      SonnebornBerger(p, players, n - 1)
      + (if RealOpponent(p, players, n - 1) && n - 1 < |p.results| then
           var s := players[p.opponentIds[n - 1].value].score;
           if p.results[n - 1] == Constants.WinScore then s
           else if p.results[n - 1] == Constants.DrawScore then 0.5 * s
           else 0.0
         else 0.0)
  }

  /** With non-negative scores, Sonneborn-Berger never exceeds Solkoff. */
  lemma {:induction false} SonnebornBergerAtMostSolkoff(p: Player, players: map<string, Player>, n: nat)
    requires n <= |p.opponentIds|
    requires NonNegative(OpponentScores(p, players, n))
    ensures 0.0 <= SonnebornBerger(p, players, n) <= Sum(OpponentScores(p, players, n))
    decreases n
  {
    if n > 0 {
      var prev := OpponentScores(p, players, n - 1);
      var cur := OpponentScores(p, players, n);
      assert cur[..|prev|] == prev;
      assert NonNegative(prev) by {
        forall i | 0 <= i < |prev| ensures prev[i] >= 0.0 {
          assert prev[i] == cur[i];
        }
      }
      SonnebornBergerAtMostSolkoff(p, players, n - 1);
      if RealOpponent(p, players, n - 1) {
        assert cur == prev + [players[p.opponentIds[n - 1].value].score];
        assert cur[|cur| - 1] >= 0.0;
        assert cur[..|cur| - 1] == prev;
      } else {
        assert cur == prev;
      }
    }
  }

  /** The points scored in rounds against a named opponent (byes excluded). */
  function ScoreFromGames(p: Player, n: nat): real
    requires n <= |p.opponentIds|
  {
    if n == 0 then 0.0
    else ScoreFromGames(p, n - 1)
         + (if p.opponentIds[n - 1].Some? && n - 1 < |p.results| then p.results[n - 1] else 0.0)
  }

  function GamesPlayed(p: Player, n: nat): (r: nat)
    requires n <= |p.opponentIds|
    ensures r <= n
  {
    if n == 0 then 0 else GamesPlayed(p, n - 1) + (if p.opponentIds[n - 1].Some? then 1 else 0)
  }

  /** `_calculate_median`, the modified median of USCF rule 34E3: above 50%
      the lowest opponent score is dropped, below 50% the highest, at
      exactly 50% both. */
  function Median(p: Player, scores: seq<real>): real {
    if |scores| == 0 then 0.0
    else if |scores| == 1 then scores[0]
    else
      var games := GamesPlayed(p, |p.opponentIds|);
      if games == 0 then Sum(scores)
      else
        Sum(Kept(SortReals(scores), ScoreFromGames(p, |p.opponentIds|) / games as real))
  }

  /** The sorted scores the median keeps at a given score percentage. */
  function Kept(sorted: seq<real>, percentage: real): seq<real>
    requires |sorted| >= 2
  {
    if percentage > 0.5 then sorted[1..]
    else if percentage < 0.5 then sorted[..|sorted| - 1]
    else if |sorted| >= 3 then sorted[1..|sorted| - 1]
    else []
  }

  /** What the median keeps of non-negative scores sums to between 0 and
      their total. */
  lemma KeptBounds(sorted: seq<real>, percentage: real)
    requires |sorted| >= 2 && NonNegative(sorted)
    ensures 0.0 <= Sum(Kept(sorted, percentage)) <= Sum(sorted)
  {
    var n := |sorted|;
    if percentage > 0.5 {
      assert sorted[1..] == sorted[1..n];
      SumSplitNonNeg(sorted, 1, n);
    } else if percentage < 0.5 {
      assert sorted[..n - 1] == sorted[0..n - 1];
      SumSplitNonNeg(sorted, 0, n - 1);
    } else if n >= 3 {
      SumSplitNonNeg(sorted, 1, n - 1);
    } else {
      SumNonNegative(sorted);
    }
  }

  /** The modified median keeps a sub-list of the sorted scores, so with
      non-negative scores it lies between 0 and Solkoff; one opponent gives
      that opponent's score. */
  lemma {:induction false} MedianBounds(p: Player, scores: seq<real>)
    requires NonNegative(scores)
    ensures 0.0 <= Median(p, scores) <= Sum(scores)
    ensures |scores| == 1 ==> Median(p, scores) == scores[0]
  {
    if |scores| == 1 {
      assert scores == [] + [scores[0]];
    } else if |scores| >= 2 && GamesPlayed(p, |p.opponentIds|) > 0 {
      var games := GamesPlayed(p, |p.opponentIds|);
      SortedNonNegative(scores);
      SumSort(scores);
      KeptBounds(SortReals(scores), ScoreFromGames(p, |p.opponentIds|) / games as real);
    } else if |scores| >= 2 {
      SumNonNegative(scores);
    }
  }

  lemma SortedNonNegative(s: seq<real>)
    requires NonNegative(s)
    ensures NonNegative(SortReals(s))
  {
    var sorted := SortReals(s);
    forall i | 0 <= i < |sorted| ensures sorted[i] >= 0.0 {
      assert sorted[i] in multiset(s);
    }
  }

  /** A slice of a non-negative list sums to between 0 and the whole. */
  lemma {:induction false} SumSplitNonNeg(s: seq<real>, i: nat, j: nat)
    requires NonNegative(s) && i <= j <= |s|
    ensures 0.0 <= Sum(s[i..j]) <= Sum(s)
  {
    var a, b, c := s[0..i], s[i..j], s[j..|s|];
    SumConcat(a, b);
    SumConcat(a + b, c);
    assert a + b + c == s;
    NonNegSlice(s, 0, i);
    NonNegSlice(s, i, j);
    NonNegSlice(s, j, |s|);
  }

  lemma {:induction false} NonNegSlice(s: seq<real>, i: nat, j: nat)
    requires NonNegative(s) && i <= j <= |s|
    ensures Sum(s[i..j]) >= 0.0
  {
    assert NonNegative(s[i..j]) by {
      forall k | 0 <= k < j - i ensures s[i..j][k] >= 0.0 {
        assert s[i..j][k] == s[i + k];
      }
    }
    SumNonNegative(s[i..j]);
  }

  lemma {:induction false} SumConcat(a: seq<real>, b: seq<real>)
    ensures Sum(a + b) == Sum(a) + Sum(b)
    decreases |b|
  {
    if |b| > 0 {
      assert (a + b)[..|a + b| - 1] == a + b[..|b| - 1];
      SumConcat(a, b[..|b| - 1]);
    } else {
      assert a + b == a;
    }
  }

  /** At exactly 50% with two opponents both scores are dropped. */
  lemma MedianHalfTwoOpponents(p: Player, scores: seq<real>)
    requires |scores| == 2
    requires GamesPlayed(p, |p.opponentIds|) > 0
    requires ScoreFromGames(p, |p.opponentIds|) / GamesPlayed(p, |p.opponentIds|) as real == 0.5
    ensures Median(p, scores) == 0.0
  {
  }

  /** The seven tiebreaks of a player with no real opponents. */
  function ZeroTiebreaks(): (m: map<string, real>)
    ensures forall k :: k in m ==> m[k] == 0.0
    ensures |m.Keys| == 7
  {
    var m := map[Constants.TbMedian := 0.0, Constants.TbSolkoff := 0.0, Constants.TbCumulative := 0.0,
                 Constants.TbCumulativeOpp := 0.0, Constants.TbSonnebornBerger := 0.0,
                 Constants.TbMostBlacks := 0.0, Constants.TbHeadToHead := 0.0];
    assert m.Keys == {Constants.TbMedian, Constants.TbSolkoff, Constants.TbCumulative,
                      Constants.TbCumulativeOpp, Constants.TbSonnebornBerger,
                      Constants.TbMostBlacks, Constants.TbHeadToHead};
    m
  }

  /** `calculate_player_tiebreaks`. */
  function PlayerTiebreaks(p: Player, players: map<string, Player>): (m: map<string, real>)
    ensures (forall i :: 0 <= i < |p.opponentIds| ==> !RealOpponent(p, players, i)) ==> m == ZeroTiebreaks()
    ensures Constants.TbSolkoff in m && Constants.TbCumulativeOpp in m && Constants.TbSonnebornBerger in m
    ensures m[Constants.TbSolkoff] == m[Constants.TbCumulativeOpp]
    ensures m[Constants.TbSolkoff] == Sum(OpponentScores(p, players, |p.opponentIds|))
    ensures Constants.TbMostBlacks in m && Constants.TbHeadToHead in m && m[Constants.TbHeadToHead] == 0.0
    ensures (exists i :: 0 <= i < |p.opponentIds| && RealOpponent(p, players, i)) ==>
              Constants.TbCumulative in m && m[Constants.TbCumulative] == Sum(p.runningScores)
              && m[Constants.TbMostBlacks] == p.numBlackGames as real
  {
    var scores := OpponentScores(p, players, |p.opponentIds|);
    if |scores| == 0 then ZeroTiebreaks()
    else
      map[Constants.TbMedian := Median(p, scores),
          Constants.TbSolkoff := Sum(scores),
          Constants.TbCumulative := Sum(p.runningScores),
          Constants.TbCumulativeOpp := Sum(scores),
          Constants.TbSonnebornBerger := SonnebornBerger(p, players, |p.opponentIds|),
          Constants.TbMostBlacks := p.numBlackGames as real,
          Constants.TbHeadToHead := 0.0]
  }

  /** `calculate_all_tiebreaks`: an inactive player with no results gets an
      empty table; every other player gets their tiebreaks. Only opponents'
      scores are read, so the order of the players does not matter. */
  function AllTiebreaks(players: map<string, Player>): (r: map<string, Player>)
    ensures r.Keys == players.Keys
    ensures forall k :: k in players ==>
      r[k] == players[k].(tiebreakers := if !players[k].isActive && |players[k].results| == 0 then map[]
                                         else PlayerTiebreaks(players[k], players))
  {
    map k | k in players :: players[k].(tiebreakers :=
      if !players[k].isActive && |players[k].results| == 0 then map[] else PlayerTiebreaks(players[k], players))
  }

  /** `calculate_head_to_head` over the first `n` rounds of `p1`. */
  function HeadToHead(p1: Player, p2: Player, n: nat): (r: (bool, bool))
    requires n <= |p1.opponentIds|
  {
    if n == 0 then (false, false)
    else
      var (w, l) := HeadToHead(p1, p2, n - 1);
      var i := n - 1;
      if p1.opponentIds[i] == Some(p2.id) && i < |p1.results| then
        (w || p1.results[i] == Constants.WinScore, l || p1.results[i] == 0.0)
      else (w, l)
  }

  /** Player one won against player two iff some recorded game against them
      scored 1, and lost iff some scored 0. */
  lemma {:induction false} HeadToHeadMeaning(p1: Player, p2: Player, n: nat)
    requires n <= |p1.opponentIds|
    ensures HeadToHead(p1, p2, n).0 <==>
              exists i :: 0 <= i < n && i < |p1.results| && p1.opponentIds[i] == Some(p2.id) && p1.results[i] == 1.0
    ensures HeadToHead(p1, p2, n).1 <==>
              exists i :: 0 <= i < n && i < |p1.results| && p1.opponentIds[i] == Some(p2.id) && p1.results[i] == 0.0
    decreases n
  {
    if n > 0 {
      HeadToHeadMeaning(p1, p2, n - 1);
    }
  }

  /** Players who never met: neither won. */
  lemma HeadToHeadNeverMet(p1: Player, p2: Player)
    requires Some(p2.id) !in p1.opponentIds
    ensures HeadToHead(p1, p2, |p1.opponentIds|) == (false, false)
  {
    HeadToHeadMeaning(p1, p2, |p1.opponentIds|);
  }
}
