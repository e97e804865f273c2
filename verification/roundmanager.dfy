/** controllers/tournament/round_manager.py: the list of rounds, their
    creation, completion and undo, and the history of pairs played that
    goes with them. The pairing engines are not modelled: what the Swiss or
    round-robin engine returns for the round is a parameter. */
module RoundManagement {
  import opened Wrappers
  import opened TournamentModels
  import Players
  import Constants

  datatype RoundManager = RoundManager(
    pairingSystem: string, numRounds: int, history: PairingHistory,
    rounds: seq<RoundData>, roundRobinStarted: bool)

  datatype RoundError = AllRoundsCreated | SystemNotImplemented

  function NewManager(pairingSystem: string, numRounds: int, history: PairingHistory): (m: RoundManager)
    ensures |m.rounds| == 0 && m.history == history && m.numRounds == numRounds
  {
    RoundManager(pairingSystem, numRounds, history, [], false)
  }

  /** `current_round_number`: rounds created so far. */
  function CurrentRoundNumber(m: RoundManager): nat {
    |m.rounds|
  }

  function CountCompleted(rounds: seq<RoundData>): (n: nat)
    ensures n <= |rounds|
    ensures n == |rounds| <==> forall i :: 0 <= i < |rounds| ==> rounds[i].isCompleted
  {
    if |rounds| == 0 then 0
    else CountCompleted(rounds[..|rounds| - 1]) + (if rounds[|rounds| - 1].isCompleted then 1 else 0)
  }

  /** `completed_rounds_count`: never more than the rounds created, and all
      of them exactly when every round is completed. */
  function CompletedRoundsCount(m: RoundManager): (n: nat)
    ensures n <= CurrentRoundNumber(m)
    ensures n == CurrentRoundNumber(m) <==> forall i :: 0 <= i < |m.rounds| ==> m.rounds[i].isCompleted
  {
    CountCompleted(m.rounds)
  }

  /** `get_round`: 1-based, None outside 1..len. */
  function GetRound(m: RoundManager, n: int): (r: Option<RoundData>)
    ensures r.Some? <==> 1 <= n <= |m.rounds|
    ensures r.Some? ==> r.value == m.rounds[n - 1]
  {
    if 1 <= n <= |m.rounds| then Some(m.rounds[n - 1]) else None
  }

  /** The unordered pairs of a list of (white, black) pairings. */
  function PairSet(pairs: seq<(string, string)>): set<set<string>> {
    set i | 0 <= i < |pairs| :: PairOf(pairs[i].0, pairs[i].1)
  }

  /** The loop `for white, black in pairings: add_pairing(white, black)`. */
  function AddAll(h: PairingHistory, pairs: seq<(string, string)>): (r: PairingHistory)
    ensures r.previousMatches == h.previousMatches + PairSet(pairs)
    ensures r.manualAdjustments == h.manualAdjustments
    decreases |pairs|
  {
    if |pairs| == 0 then h
    else
      var r := AddAll(AddPairing(h, pairs[0].0, pairs[0].1), pairs[1..]);
      assert PairSet(pairs) == {PairOf(pairs[0].0, pairs[0].1)} + PairSet(pairs[1..]) by {
        forall p | p in PairSet(pairs)
          ensures p in {PairOf(pairs[0].0, pairs[0].1)} + PairSet(pairs[1..])
        {
          var i :| 0 <= i < |pairs| && p == PairOf(pairs[i].0, pairs[i].1);
          if i > 0 {
            assert pairs[1..][i - 1] == pairs[i];
          }
        }
        forall p | p in PairSet(pairs[1..])
          ensures p in PairSet(pairs)
        {
          var i :| 0 <= i < |pairs[1..]| && p == PairOf(pairs[1..][i].0, pairs[1..][i].1);
          assert pairs[1..][i] == pairs[i + 1];
        }
      }
      r
  }

  /** `create_next_round`. `engine` is what the Swiss or round-robin engine
      returns for the round as (white id, black id) pairs and a bye id, and
      `roundRobinRounds` the length of the round-robin schedule built on
      first use. Manual rounds start empty. */
  function CreateNextRound(m: RoundManager, engine: (seq<(string, string)>, Option<string>),
                           roundRobinRounds: int)
    : (r: Result<(RoundManager, seq<(string, string)>, Option<string>), RoundError>)
    ensures |m.rounds| >= m.numRounds ==> r == Failure(AllRoundsCreated)
    ensures (|m.rounds| < m.numRounds
             && m.pairingSystem !in {Constants.DutchSwiss, Constants.RoundRobin, Constants.Manual})
            ==> r == Failure(SystemNotImplemented)
    ensures r.Success? ==>
      var (m2, pairs, bye) := r.value;
      m2.rounds == m.rounds + [RoundData(|m.rounds| + 1, pairs, bye, [], false)]
      && m2.history.previousMatches == m.history.previousMatches + PairSet(pairs)
      && (m.pairingSystem == Constants.Manual ==> pairs == [] && bye.None?)
      && (m.pairingSystem != Constants.Manual ==> (pairs, bye) == engine)
      && m2.pairingSystem == m.pairingSystem
  {
    if |m.rounds| >= m.numRounds then Failure(AllRoundsCreated)
    else if m.pairingSystem !in {Constants.DutchSwiss, Constants.RoundRobin, Constants.Manual} then
      Failure(SystemNotImplemented)
    else
      var m1 :=
        if m.pairingSystem == Constants.RoundRobin && !m.roundRobinStarted then
          m.(roundRobinStarted := true, numRounds := roundRobinRounds)
        else m;
      var (pairs, bye) := if m.pairingSystem == Constants.Manual then ([], None) else engine;
      var round := RoundData(|m.rounds| + 1, pairs, bye, [], false);
      Success((m1.(rounds := m.rounds + [round], history := AddAll(m.history, pairs)), pairs, bye))
  }

  /** `rounds` padded with empty, consecutively numbered rounds up to `n`. */
  function Pad(rounds: seq<RoundData>, n: int): (r: seq<RoundData>)
    ensures |r| == if |rounds| >= n then |rounds| else n
    ensures r[..|rounds|] == rounds
    ensures forall k :: |rounds| <= k < |r| ==> r[k] == NewRound(k + 1)
    decreases n - |rounds|
  {
    if |rounds| >= n then rounds else Pad(rounds + [NewRound(|rounds| + 1)], n)
  }

  /** `set_manual_pairings`: rejects a round below 1, pads the round list,
      overwrites the round's pairings and bye, and adds the pairs to the
      history without removing the ones replaced. */
  function SetManualPairings(m: RoundManager, n: int, pairs: seq<(string, string)>, bye: Option<string>)
    : (r: (bool, RoundManager))
    ensures !r.0 <==> n < 1
    ensures !r.0 ==> r.1 == m
    ensures r.0 ==> |r.1.rounds| == (if |m.rounds| >= n then |m.rounds| else n)
    ensures r.0 ==> r.1.rounds[n - 1] == (if n <= |m.rounds| then m.rounds[n - 1] else NewRound(n)).(pairings := pairs, byePlayerId := bye)
    ensures r.0 ==> forall k :: 0 <= k < |r.1.rounds| && k != n - 1 ==>
                      r.1.rounds[k] == (if k < |m.rounds| then m.rounds[k] else NewRound(k + 1))
    ensures r.0 ==> r.1.history.previousMatches == m.history.previousMatches + PairSet(pairs)
  {
    if n < 1 then (false, m)
    else
      var padded := Pad(m.rounds, n);
      var updated := padded[n - 1 := padded[n - 1].(pairings := pairs, byePlayerId := bye)];
      (true, m.(rounds := updated, history := AddAll(m.history, pairs)))
  }

  /** `mark_round_completed`: only the round's flag changes. */
  function MarkRoundCompleted(m: RoundManager, n: int): (r: (bool, RoundManager))
    ensures r.0 <==> 1 <= n <= |m.rounds|
    ensures !r.0 ==> r.1 == m
    ensures r.0 ==> r.1 == m.(rounds := m.rounds[n - 1 := m.rounds[n - 1].(isCompleted := true)])
  {
    if 1 <= n <= |m.rounds| then (true, m.(rounds := m.rounds[n - 1 := m.rounds[n - 1].(isCompleted := true)]))
    else (false, m)
  }

  /** `undo_last_round` as written: the last, uncompleted round is removed and
      every one of its pairs discarded from the history, even a pair an
      earlier round also played. */
  function UndoLastRoundAsWritten(m: RoundManager): (r: (bool, RoundManager))
    ensures r.0 <==> |m.rounds| > 0 && !m.rounds[|m.rounds| - 1].isCompleted
    ensures !r.0 ==> r.1 == m
    ensures r.0 ==> r.1.rounds == m.rounds[..|m.rounds| - 1]
    ensures r.0 ==> r.1.history.previousMatches == m.history.previousMatches - PairSet(m.rounds[|m.rounds| - 1].pairings)
  {
    if |m.rounds| == 0 || m.rounds[|m.rounds| - 1].isCompleted then (false, m)
    else
      var last := m.rounds[|m.rounds| - 1];
      (true, m.(rounds := m.rounds[..|m.rounds| - 1],
                history := m.history.(previousMatches := m.history.previousMatches - PairSet(last.pairings))))
  }

  lemma PairSetSingle(x: (string, string))
    ensures PairSet([x]) == {PairOf(x.0, x.1)}
  {
    assert [x][0] == x;
  }

  /** Every pair of every round, the pairs the history must hold. */
  function PlayedPairs(rounds: seq<RoundData>): (s: set<set<string>>)
    ensures forall k, i :: 0 <= k < |rounds| && 0 <= i < |rounds[k].pairings| ==>
              PairOf(rounds[k].pairings[i].0, rounds[k].pairings[i].1) in s
  {
    if |rounds| == 0 then {}
    else
      var s := PlayedPairs(rounds[..|rounds| - 1]) + PairSet(rounds[|rounds| - 1].pairings);
      assert forall k :: 0 <= k < |rounds| - 1 ==> rounds[..|rounds| - 1][k] == rounds[k];
      s
  }

  /** The history knows every pair any existing round holds. */
  predicate HistoryCovers(m: RoundManager) {
    PlayedPairs(m.rounds) <= m.history.previousMatches
  }

  /** `undo_last_round` as evidently intended: a pair is discarded only if no
      remaining round holds it. */
  function UndoLastRound(m: RoundManager): (r: (bool, RoundManager))
    ensures r.0 <==> |m.rounds| > 0 && !m.rounds[|m.rounds| - 1].isCompleted
    ensures !r.0 ==> r.1 == m
    ensures r.0 ==> r.1.rounds == m.rounds[..|m.rounds| - 1]
    ensures r.0 ==> (r.1.history.previousMatches ==
      m.history.previousMatches - (PairSet(m.rounds[|m.rounds| - 1].pairings) - PlayedPairs(r.1.rounds)))
  {
    if |m.rounds| == 0 || m.rounds[|m.rounds| - 1].isCompleted then (false, m)
    else
      var rest := m.rounds[..|m.rounds| - 1];
      var gone := PairSet(m.rounds[|m.rounds| - 1].pairings) - PlayedPairs(rest);
      (true, m.(rounds := rest, history := m.history.(previousMatches := m.history.previousMatches - gone)))
  }

  /** Creating a round keeps the history covering every round. */
  lemma CreateKeepsHistory(m: RoundManager, engine: (seq<(string, string)>, Option<string>), rr: int)
    requires HistoryCovers(m)
    requires CreateNextRound(m, engine, rr).Success?
    ensures HistoryCovers(CreateNextRound(m, engine, rr).value.0)
  {
    var m2 := CreateNextRound(m, engine, rr).value.0;
    assert m2.rounds[..|m2.rounds| - 1] == m.rounds;
  }

  /** Setting manual pairings keeps the history covering every round. */
  lemma ManualKeepsHistory(m: RoundManager, n: int, pairs: seq<(string, string)>, bye: Option<string>)
    requires HistoryCovers(m)
    ensures HistoryCovers(SetManualPairings(m, n, pairs, bye).1)
  {
    var r := SetManualPairings(m, n, pairs, bye);
    if r.0 {
      PlayedPairsBound(r.1.rounds, m.rounds, n - 1, pairs);
    }
  }

  /** The pairs of a round list that differs from `old` only in round `j`
      (which holds `pairs`) and in appended empty rounds. */
  lemma PlayedPairsBound(rounds: seq<RoundData>, before: seq<RoundData>, j: int, pairs: seq<(string, string)>)
    requires 0 <= j < |rounds| && |before| <= |rounds| && rounds[j].pairings == pairs
    requires forall k :: 0 <= k < |rounds| && k != j ==>
               (k < |before| && rounds[k] == before[k]) || (k >= |before| && rounds[k].pairings == [])
    ensures PlayedPairs(rounds) <= PlayedPairs(before) + PairSet(pairs)
  {
    forall p | p in PlayedPairs(rounds)
      ensures p in PlayedPairs(before) + PairSet(pairs)
    {
      var k, i := PairIn(rounds, p);
      if k == j {
        assert p == PairOf(pairs[i].0, pairs[i].1);
      } else {
        assert before[k].pairings[i] == rounds[k].pairings[i];
      }
    }
  }

  /** Every pair of `PlayedPairs` comes from some round. */
  lemma {:induction false} PairIn(rounds: seq<RoundData>, p: set<string>) returns (k: int, i: int)
    requires p in PlayedPairs(rounds)
    ensures 0 <= k < |rounds| && 0 <= i < |rounds[k].pairings|
    ensures p == PairOf(rounds[k].pairings[i].0, rounds[k].pairings[i].1)
  {
    var front := rounds[..|rounds| - 1];
    if p in PlayedPairs(front) {
      k, i := PairIn(front, p);
      assert front[k] == rounds[k];
    } else {
      k := |rounds| - 1;
      i :| 0 <= i < |rounds[k].pairings| && p == PairOf(rounds[k].pairings[i].0, rounds[k].pairings[i].1);
    }
  }

  lemma PlayedPairsPrefix(rounds: seq<RoundData>)
    requires |rounds| > 0
    ensures PlayedPairs(rounds) == PlayedPairs(rounds[..|rounds| - 1]) + PairSet(rounds[|rounds| - 1].pairings)
  {
  }

  /** The corrected undo keeps the history covering every remaining round. */
  lemma UndoKeepsHistory(m: RoundManager)
    requires HistoryCovers(m)
    ensures HistoryCovers(UndoLastRound(m).1)
  {
    if UndoLastRound(m).0 {
      PlayedPairsPrefix(m.rounds);
    }
  }

  /** The corrected undo takes back a round created on a history that did
      not yet hold its pairs. */
  lemma UndoAfterCreate(m: RoundManager, engine: (seq<(string, string)>, Option<string>), rr: int)
    requires HistoryCovers(m)
    requires CreateNextRound(m, engine, rr).Success?
    requires PairSet(CreateNextRound(m, engine, rr).value.1) !! m.history.previousMatches
    ensures UndoLastRound(CreateNextRound(m, engine, rr).value.0).0
    ensures UndoLastRound(CreateNextRound(m, engine, rr).value.0).1.rounds == m.rounds
    ensures UndoLastRound(CreateNextRound(m, engine, rr).value.0).1.history == m.history
  {
    var m2 := CreateNextRound(m, engine, rr).value.0;
    assert m2.rounds[..|m2.rounds| - 1] == m.rounds;
    var u := UndoLastRound(m2).1;
    assert u.history.previousMatches == m.history.previousMatches;
  }

  /** As written, undoing a second round that repeats a pairing of the first
      makes the history forget that the first round played it. */
  lemma UndoAsWrittenForgetsEarlierPair()
    ensures var m := RoundManager(Constants.Manual, 3, PairingHistory({PairOf("a", "b")}, map[]),
                                  [RoundData(1, [("a", "b")], None, [], true),
                                   RoundData(2, [("b", "a")], None, [], false)], false);
            HistoryCovers(m) && !HistoryCovers(UndoLastRoundAsWritten(m).1)
            && HistoryCovers(UndoLastRound(m).1)
  {
    var m := RoundManager(Constants.Manual, 3, PairingHistory({PairOf("a", "b")}, map[]),
                          [RoundData(1, [("a", "b")], None, [], true),
                           RoundData(2, [("b", "a")], None, [], false)], false);
    assert PairOf("a", "b") == PairOf("b", "a");
    PairSetSingle(("b", "a"));
    PairSetSingle(("a", "b"));
    assert PlayedPairs(m.rounds[..1]) == {PairOf("a", "b")};
    assert PlayedPairs(m.rounds) == {PairOf("a", "b")};
    var u := UndoLastRoundAsWritten(m).1;
    assert u.rounds == m.rounds[..1];
    assert PairOf("a", "b") in PlayedPairs(u.rounds);
    assert PairOf("a", "b") !in u.history.previousMatches;
    UndoKeepsHistory(m);
  }

  /** `get_pairings_for_display`: the pairings whose two ids are both known,
      in order, and the bye player when the bye id is set and known. */
  function PairingsForDisplay(m: RoundManager, n: int, players: map<string, Players.Player>)
    : (r: (seq<(Players.Player, Players.Player)>, Option<Players.Player>))
    ensures GetRound(m, n).None? ==> r == ([], None)
    ensures |r.0| <= (if GetRound(m, n).Some? then |GetRound(m, n).value.pairings| else 0)
    ensures r.1.Some? <==> (GetRound(m, n).Some? && GetRound(m, n).value.byePlayerId.Some?
                            && GetRound(m, n).value.byePlayerId.value != ""
                            && GetRound(m, n).value.byePlayerId.value in players)
    ensures r.1.Some? ==> r.1.value == players[GetRound(m, n).value.byePlayerId.value]
  {
    match GetRound(m, n)
    case None => ([], None)
    case Some(round) =>
      var bye := round.byePlayerId;
      var ids := Known(round.pairings, players);
      (seq(|ids|, i requires 0 <= i < |ids| => (players[ids[i].0], players[ids[i].1])),
       if bye.Some? && bye.value != "" && bye.value in players then Some(players[bye.value]) else None)
  }

  /** The pairings whose ids are both in `players`, in order. */
  function Known(pairs: seq<(string, string)>, players: map<string, Players.Player>)
    : (r: seq<(string, string)>)
    ensures |r| <= |pairs|
    ensures forall j :: 0 <= j < |r| ==> r[j] in pairs && r[j].0 in players && r[j].1 in players
    ensures forall i :: 0 <= i < |pairs| && pairs[i].0 in players && pairs[i].1 in players ==> pairs[i] in r
  {
    if |pairs| == 0 then []
    else
      var rest := Known(pairs[1..], players);
      assert forall i :: 1 <= i < |pairs| ==> pairs[i] == pairs[1..][i - 1];
      if pairs[0].0 in players && pairs[0].1 in players then [pairs[0]] + rest else rest
  }
}
