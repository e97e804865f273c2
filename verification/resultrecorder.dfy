/** controllers/tournament/result_recorder.py: recording a round's results
    into the players' histories after checking each entry, recording the
    bye, and taking a round's results back. Players are held in a map from
    id to player, as the source's `players` dictionary. */
module ResultRecording {
  import opened Wrappers
  import opened Colors
  import opened Players
  import opened TournamentModels
  import Constants

  type Roster = map<string, Player>

  /** Every player's bookkeeping is consistent. */
  predicate AllConsistent(players: Roster) {
    forall id :: id in players ==> Consistent(players[id])
  }

  /** `_validate_result_entry`: both players exist, the ordered pair is one of
      the round's pairings, it was not already processed in this batch, and
      White's score lies in [0, 1]. */
  predicate ValidEntry(white: string, black: string, whiteScore: real,
                       pairingIds: set<(string, string)>, processed: set<(string, string)>,
                       ids: set<string>) {
    white in ids && black in ids
    && (white, black) in pairingIds
    && (white, black) !in processed
    && 0.0 <= whiteScore <= 1.0
  }

  lemma KeepsConsistent(p: Player, opponent: Option<Player>, result: real, color: Option<Color>)
    ensures Consistent(p) ==> Consistent(AddRoundResult(p, opponent, result, color).0)
  {
    if Consistent(p) {
      AddRoundResultConsistent(p, opponent, result, color);
    }
  }

  /** `add_round_result` with `opponent` the player itself, as
      `_record_game_result` makes it when an entry names one id twice: the
      one object takes the round and both new match-history entries. */
  function SelfRecord(p: Player, result: real, color: Option<Color>): (q: Player)
    ensures q.results == p.results + [result]
    ensures q.colorHistory == p.colorHistory + [color]
    ensures q.opponentIds == p.opponentIds + [Some(p.id)]
    ensures q.score == p.score + result
    ensures |q.matchHistory| == |p.matchHistory| + 2
    ensures q.id == p.id
    ensures Consistent(p) ==> Consistent(q)
  {
    KeepsConsistent(p, Some(p), result, color);
    var me := AddRoundResult(p, Some(p), result, color).0;
    me.(matchHistory := me.matchHistory + [MatchInfo(Some(p.id), p.score, p.score)])
  }

  /** `_record_game_result`: White records the game against Black, then
      Black (already holding White's mirrored entry) records it against the
      updated White with the complementary score. When both ids name the
      same player, that one player records both halves. */
  function RecordGame(white: string, black: string, whiteScore: real, players: Roster): (r: Roster)
    requires white in players && black in players
    ensures r.Keys == players.Keys
    ensures forall id :: id in players && id != white && id != black ==> r[id] == players[id]
    ensures white != black ==>
      && r[white].results == players[white].results + [whiteScore]
      && r[black].results == players[black].results + [1.0 - whiteScore]
      && r[white].colorHistory == players[white].colorHistory + [Some(White)]
      && r[black].colorHistory == players[black].colorHistory + [Some(Black)]
      && r[white].opponentIds == players[white].opponentIds + [Some(players[black].id)]
      && r[black].opponentIds == players[black].opponentIds + [Some(players[white].id)]
      && |r[white].matchHistory| == |players[white].matchHistory| + 2
      && |r[black].matchHistory| == |players[black].matchHistory| + 2
    ensures white == black ==>
      && r[white].results == players[white].results + [whiteScore, 1.0 - whiteScore]
      && r[white].colorHistory == players[white].colorHistory + [Some(White), Some(Black)]
      && r[white].opponentIds == players[white].opponentIds + [Some(players[white].id), Some(players[white].id)]
      && |r[white].matchHistory| == |players[white].matchHistory| + 4
    ensures Consistent(players[white]) ==> Consistent(r[white])
    ensures Consistent(players[black]) ==> Consistent(r[black])
  {
    if white == black then
      var p1 := SelfRecord(players[white], whiteScore, Some(White));
      var p2 := SelfRecord(p1, Constants.WinScore - whiteScore, Some(Black));
      assert p2.results == players[white].results + [whiteScore, 1.0 - whiteScore];
      assert p2.colorHistory == players[white].colorHistory + [Some(White), Some(Black)];
      players[white := p2]
    else RecordPair(white, black, whiteScore, players)
  }

  /** `_record_game_result` for two different players: each ends as one
      `add_round_result` of its own, up to the match entries. */
  function RecordPair(white: string, black: string, whiteScore: real, players: Roster): (r: Roster)
    requires white in players && black in players && white != black
    ensures r.Keys == players.Keys
    ensures forall id :: id in players && id != white && id != black ==> r[id] == players[id]
    ensures SameButHistory(AddRoundResult(players[white], Some(players[black]), whiteScore, Some(White)).0, r[white])
    ensures SameButHistory(AddRoundResult(players[black], Some(players[white]), 1.0 - whiteScore, Some(Black)).0, r[black])
    ensures |r[white].matchHistory| == |players[white].matchHistory| + 2
    ensures |r[black].matchHistory| == |players[black].matchHistory| + 2
    ensures Consistent(players[white]) ==> Consistent(r[white])
    ensures Consistent(players[black]) ==> Consistent(r[black])
  {
    var pair := PairPlayers(players[white], players[black], whiteScore);
    players[white := pair.0][black := pair.1]
  }

  /** The two players of one game after `_record_game_result`: white's
      `add_round_result`, then black's against the updated white. */
  function PairPlayers(white: Player, black: Player, whiteScore: real): (r: (Player, Player))
    ensures SameButHistory(AddRoundResult(white, Some(black), whiteScore, Some(White)).0, r.0)
    ensures SameButHistory(AddRoundResult(black, Some(white), 1.0 - whiteScore, Some(Black)).0, r.1)
    ensures |r.0.matchHistory| == |white.matchHistory| + 2
    ensures |r.1.matchHistory| == |black.matchHistory| + 2
    ensures Consistent(white) ==> Consistent(r.0)
    ensures Consistent(black) ==> Consistent(r.1)
  {
    var (w1, b1) := AddRoundResult(white, Some(black), whiteScore, Some(White));
    var (b2, w2) := AddRoundResult(b1.value, Some(w1), Constants.WinScore - whiteScore, Some(Black));
    WhiteSide(white, black, whiteScore);
    BlackSide(white, black, w1, b1.value, whiteScore);
    (w2.value, b2)
  }

  /** White's side of `PairPlayers`: its own game, then black's mirrored
      match entry. */
  lemma WhiteSide(white: Player, black: Player, whiteScore: real)
    ensures var w1 := AddRoundResult(white, Some(black), whiteScore, Some(White)).0;
            var b1 := AddRoundResult(white, Some(black), whiteScore, Some(White)).1.value;
            var w2 := AddRoundResult(b1, Some(w1), Constants.WinScore - whiteScore, Some(Black)).1.value;
            && SameButHistory(w1, w2) && |w2.matchHistory| == |white.matchHistory| + 2
            && (Consistent(white) ==> Consistent(w2))
  {
    var (w1, b1) := AddRoundResult(white, Some(black), whiteScore, Some(White));
    var w2 := AddRoundResult(b1.value, Some(w1), Constants.WinScore - whiteScore, Some(Black)).1.value;
    KeepsConsistent(white, Some(black), whiteScore, Some(White));
    ConsistentIgnoresHistory(w1, w2);
  }

  /** Black's side of `PairPlayers`: white's mirrored match entry `b1`,
      then its own game against the updated white `w1`. */
  lemma BlackSide(white: Player, black: Player, w1: Player, b1: Player, whiteScore: real)
    requires b1 == black.(matchHistory := b1.matchHistory) && |b1.matchHistory| == |black.matchHistory| + 1
    requires w1.id == white.id
    ensures var b2 := AddRoundResult(b1, Some(w1), Constants.WinScore - whiteScore, Some(Black)).0;
            && SameButHistory(AddRoundResult(black, Some(white), 1.0 - whiteScore, Some(Black)).0, b2)
            && |b2.matchHistory| == |black.matchHistory| + 2
            && (Consistent(black) ==> Consistent(b2))
  {
    BlackConsistent(black, b1, w1, Constants.WinScore - whiteScore);
    AddIgnoresHistory(black, b1, white, w1, Constants.WinScore - whiteScore, Some(Black));
  }

  /** Black's game keeps it consistent whatever white's entry added. */
  lemma BlackConsistent(black: Player, b1: Player, w1: Player, score: real)
    requires b1 == black.(matchHistory := b1.matchHistory)
    ensures Consistent(black) ==> Consistent(AddRoundResult(b1, Some(w1), score, Some(Black)).0)
  {
    ConsistentIgnoresHistory(black, b1);
    KeepsConsistent(b1, Some(w1), score, Some(Black));
  }

  /** Consistency does not look at the match entries. */
  lemma ConsistentIgnoresHistory(p: Player, q: Player)
    requires q == p.(matchHistory := q.matchHistory)
    ensures Consistent(p) ==> Consistent(q)
  {
  }

  /** Adding a game to a player whose match entries differ, against an
      opponent with the same id, differs only in the match entries. */
  lemma AddIgnoresHistory(p: Player, q: Player, o1: Player, o2: Player, result: real, color: Option<Color>)
    requires q == p.(matchHistory := q.matchHistory) && o1.id == o2.id
    ensures SameButHistory(AddRoundResult(p, Some(o1), result, color).0, AddRoundResult(q, Some(o2), result, color).0)
  {
  }

  /** The state carried through the loop of `record_round_results`. */
  datatype Batch = Batch(ok: bool, processed: set<(string, string)>, results: seq<MatchResult>, players: Roster)

  /** The entries from `i` on are all accepted: each is valid on its own,
      none repeats an earlier ordered pair, and none was processed before. */
  predicate AllAcceptable(entries: seq<(string, string, real)>, pairingIds: set<(string, string)>,
                          processed: set<(string, string)>, ids: set<string>) {
    (forall i :: 0 <= i < |entries| ==>
       ValidEntry(entries[i].0, entries[i].1, entries[i].2, pairingIds, processed, ids))
    && (forall i, j :: 0 <= i < j < |entries| ==> (entries[i].0, entries[i].1) != (entries[j].0, entries[j].1))
  }

  function ToResults(entries: seq<(string, string, real)>): (r: seq<MatchResult>)
    ensures |r| == |entries|
    ensures forall i :: 0 <= i < |entries| ==> r[i] == MatchResult(entries[i].0, entries[i].1, entries[i].2)
  {
    seq(|entries|, i requires 0 <= i < |entries| => MatchResult(entries[i].0, entries[i].1, entries[i].2))
  }

  /** The loop of `record_round_results` over the result entries. */
  function RecordEntries(b: Batch, entries: seq<(string, string, real)>, pairingIds: set<(string, string)>)
    : (r: Batch)
    ensures r.players.Keys == b.players.Keys
    ensures AllConsistent(b.players) ==> AllConsistent(r.players)
    ensures !b.ok ==> !r.ok
    decreases |entries|
  {
    if |entries| == 0 then b
    else RecordEntries(Step(b, entries[0], pairingIds), entries[1..], pairingIds)
  }

  /** The batch succeeds exactly when every entry is acceptable. */
  lemma {:induction false} RecordEntriesAccepts(b: Batch, entries: seq<(string, string, real)>,
                                                pairingIds: set<(string, string)>)
    ensures RecordEntries(b, entries, pairingIds).ok
            <==> b.ok && AllAcceptable(entries, pairingIds, b.processed, b.players.Keys)
    decreases |entries|
  {
    if |entries| > 0 {
      var next := Step(b, entries[0], pairingIds);
      AcceptableStep(entries, pairingIds, b.processed, b.players.Keys);
      RecordEntriesAccepts(next, entries[1..], pairingIds);
    }
  }

  /** When every entry is acceptable, the round's results grow by exactly
      the entries, in order. */
  lemma {:induction false} RecordEntriesResults(b: Batch, entries: seq<(string, string, real)>,
                                                pairingIds: set<(string, string)>)
    requires AllAcceptable(entries, pairingIds, b.processed, b.players.Keys)
    ensures RecordEntries(b, entries, pairingIds).results == b.results + ToResults(entries)
    decreases |entries|
  {
    if |entries| > 0 {
      var next := Step(b, entries[0], pairingIds);
      AcceptableStep(entries, pairingIds, b.processed, b.players.Keys);
      var m := MatchResult(entries[0].0, entries[0].1, entries[0].2);
      assert next.results == b.results + [m];
      RecordEntriesResults(next, entries[1..], pairingIds);
      ToResultsCons(entries);
      ConcatAssoc(b.results, [m], ToResults(entries[1..]));
    }
  }

  lemma ConcatAssoc<T>(a: seq<T>, b: seq<T>, c: seq<T>)
    ensures a + b + c == a + (b + c)
  {
  }

  lemma ToResultsCons(entries: seq<(string, string, real)>)
    requires |entries| > 0
    ensures ToResults(entries) == [MatchResult(entries[0].0, entries[0].1, entries[0].2)] + ToResults(entries[1..])
  {
    var t := [MatchResult(entries[0].0, entries[0].1, entries[0].2)] + ToResults(entries[1..]);
    forall i | 0 <= i < |entries|
      ensures ToResults(entries)[i] == t[i]
    {
      if i > 0 {
        assert entries[1..][i - 1] == entries[i];
      }
    }
  }

  lemma RecordEntriesSpec(b: Batch, entries: seq<(string, string, real)>, pairingIds: set<(string, string)>)
    ensures RecordEntries(b, entries, pairingIds).ok
            <==> b.ok && AllAcceptable(entries, pairingIds, b.processed, b.players.Keys)
    ensures AllAcceptable(entries, pairingIds, b.processed, b.players.Keys) ==>
              RecordEntries(b, entries, pairingIds).results == b.results + ToResults(entries)
  {
    RecordEntriesAccepts(b, entries, pairingIds);
    if AllAcceptable(entries, pairingIds, b.processed, b.players.Keys) {
      RecordEntriesResults(b, entries, pairingIds);
    }
  }

  /** One iteration: a valid entry is recorded and marked processed; an
      invalid one only clears the success flag. */
  function Step(b: Batch, e: (string, string, real), pairingIds: set<(string, string)>): (r: Batch)
    ensures r.players.Keys == b.players.Keys
    ensures ValidEntry(e.0, e.1, e.2, pairingIds, b.processed, b.players.Keys) ==>
              r.ok == b.ok && r.processed == b.processed + {(e.0, e.1)} && r.results == b.results + [MatchResult(e.0, e.1, e.2)]
    ensures !(ValidEntry(e.0, e.1, e.2, pairingIds, b.processed, b.players.Keys)) ==>
              !r.ok && r.processed == b.processed && r.results == b.results
    ensures AllConsistent(b.players) ==> AllConsistent(r.players)
  {
    if ValidEntry(e.0, e.1, e.2, pairingIds, b.processed, b.players.Keys) then
      Batch(b.ok, b.processed + {(e.0, e.1)}, b.results + [MatchResult(e.0, e.1, e.2)],
            RecordGame(e.0, e.1, e.2, b.players))
    else b.(ok := false)
  }

  /** All entries are acceptable exactly when the first is valid on its own
      and the rest are acceptable once it is marked processed. */
  lemma AcceptableStep(entries: seq<(string, string, real)>, pairingIds: set<(string, string)>,
                       processed: set<(string, string)>, ids: set<string>)
    requires |entries| > 0
    ensures AllAcceptable(entries, pairingIds, processed, ids)
            <==> (ValidEntry(entries[0].0, entries[0].1, entries[0].2, pairingIds, processed, ids)
                  && AllAcceptable(entries[1..], pairingIds, processed + {(entries[0].0, entries[0].1)}, ids))
  {
    var rest := entries[1..];
    var next := processed + {(entries[0].0, entries[0].1)};
    if AllAcceptable(entries, pairingIds, processed, ids) {
      forall i | 0 <= i < |rest|
        ensures ValidEntry(rest[i].0, rest[i].1, rest[i].2, pairingIds, next, ids)
      {
        assert rest[i] == entries[i + 1];
        assert (entries[0].0, entries[0].1) != (entries[i + 1].0, entries[i + 1].1);
      }
      forall i, j | 0 <= i < j < |rest|
        ensures (rest[i].0, rest[i].1) != (rest[j].0, rest[j].1)
      {
        assert rest[i] == entries[i + 1] && rest[j] == entries[j + 1];
      }
    }
    if ValidEntry(entries[0].0, entries[0].1, entries[0].2, pairingIds, processed, ids)
       && AllAcceptable(rest, pairingIds, next, ids) {
      forall i | 0 <= i < |entries|
        ensures ValidEntry(entries[i].0, entries[i].1, entries[i].2, pairingIds, processed, ids)
      {
        if i > 0 {
          assert entries[i] == rest[i - 1];
        }
      }
      forall i, j | 0 <= i < j < |entries|
        ensures (entries[i].0, entries[i].1) != (entries[j].0, entries[j].1)
      {
        if i == 0 {
          assert entries[j] == rest[j - 1];
          assert (rest[j - 1].0, rest[j - 1].1) !in next;
        } else {
          assert entries[i] == rest[i - 1] && entries[j] == rest[j - 1];
        }
      }
    }
  }

  /** `_record_bye_result`: an unknown player fails; a round already holding
      a result for the player succeeds without change; otherwise the bye
      scores BYE_SCORE for an active player and 0 for an inactive one. */
  function RecordBye(byeId: string, roundNumber: int, players: Roster): (r: (bool, Roster))
    ensures r.0 <==> byeId in players
    ensures r.1.Keys == players.Keys
    ensures byeId !in players || |players[byeId].results| >= roundNumber ==> r.1 == players
    ensures byeId in players && |players[byeId].results| < roundNumber ==>
      r.1 == players[byeId := AddRoundResult(players[byeId], None,
                                             if players[byeId].isActive then Constants.ByeScore else 0.0, None).0]
    ensures AllConsistent(players) ==> AllConsistent(r.1)
  {
    if byeId !in players then (false, players)
    else if |players[byeId].results| >= roundNumber then (true, players)
    else
      var p := players[byeId];
      var score := if p.isActive then Constants.ByeScore else 0.0;
      KeepsConsistent(p, None, score, None);
      (true, players[byeId := AddRoundResult(p, None, score, None).0])
  }

  function PairingIds(round: RoundData): set<(string, string)> {
    set i | 0 <= i < |round.pairings| :: round.pairings[i]
  }

  /** `record_round_results`: every entry is checked and, if valid, recorded;
      then the bye. It reports success exactly when every entry was accepted
      and the bye (if any) was recorded; pairings left without a result are
      not a failure. */
  function RecordRoundResults(round: RoundData, entries: seq<(string, string, real)>, players: Roster)
    : (r: (bool, RoundData, Roster))
    ensures r.0 <==> AllAcceptable(entries, PairingIds(round), {}, players.Keys)
                     && (round.byePlayerId.None? || round.byePlayerId.value == "" || round.byePlayerId.value in players)
    ensures r.0 ==> r.1.results == round.results + ToResults(entries)
    ensures r.1 == round.(results := r.1.results)
    ensures r.2.Keys == players.Keys
    ensures AllConsistent(players) ==> AllConsistent(r.2)
  {
    var b := RecordEntries(Batch(true, {}, round.results, players), entries, PairingIds(round));
    RecordEntriesSpec(Batch(true, {}, round.results, players), entries, PairingIds(round));
    var (byeOk, ps) :=
      if round.byePlayerId.Some? && round.byePlayerId.value != "" then
        RecordBye(round.byePlayerId.value, round.roundNumber, b.players)
      else (true, b.players);
    (b.ok && byeOk, round.(results := b.results), ps)
  }

  // ------------------------------------------------------------------ undo

  /** What undoing one player's result does. */
  datatype UndoOutcome = Undone(player: Player) | NoResultForRound | Raises

  /** `_undo_player_result` as written: after popping the last entries it
      reads the NEW last colour and opponent, so the black count is lowered
      when the previous round was Black and the bye flag is recomputed only
      when the previous round was a bye. Popping an empty list raises. */
  function UndoPlayerResultAsWritten(p: Player, roundNumber: int): (r: UndoOutcome)
    ensures |p.results| < roundNumber ==> r == NoResultForRound
    ensures r.Undone? ==> |p.results| > 0 && r.player.results == p.results[..|p.results| - 1]
    ensures (r.Undone? && |r.player.colorHistory| > 0 && r.player.colorHistory[|r.player.colorHistory| - 1] == Some(Black))
              ==> r.player.numBlackGames == (if p.numBlackGames - 1 < 0 then 0 else p.numBlackGames - 1)
  {
    if |p.results| < roundNumber then NoResultForRound
    else if |p.results| == 0 || |p.opponentIds| == 0 || |p.colorHistory| == 0 then Raises
    else
      var removed := p.results[|p.results| - 1];
      var opps := p.opponentIds[..|p.opponentIds| - 1];
      var colors := p.colorHistory[..|p.colorHistory| - 1];
      var q := p.(results := p.results[..|p.results| - 1], score := p.score - removed,
                  opponentIds := opps, colorHistory := colors,
                  runningScores := if |p.runningScores| > 0 then p.runningScores[..|p.runningScores| - 1] else []);
      var q2 := if |colors| > 0 && colors[|colors| - 1] == Some(Black) then
                  q.(numBlackGames := if q.numBlackGames - 1 < 0 then 0 else q.numBlackGames - 1)
                else q;
      var q3 := if |opps| > 0 && opps[|opps| - 1].None? then q2.(hasReceivedBye := None in opps) else q2;
      Undone(q3)
  }

  /** `_undo_player_result` as evidently intended (and as the tournament
      view's controller does it): the black count and bye flag follow the
      entries popped. */
  function UndoPlayerResult(p: Player, roundNumber: int): (r: UndoOutcome)
    ensures |p.results| < roundNumber ==> r == NoResultForRound
    ensures r.Raises? <==> roundNumber <= |p.results| && (|p.results| == 0 || |p.opponentIds| == 0 || |p.colorHistory| == 0)
    ensures r.Undone? ==> |p.results| > 0 && r.player.results == p.results[..|p.results| - 1]
                          && r.player.matchHistory == p.matchHistory
  {
    if |p.results| < roundNumber then NoResultForRound
    else if |p.results| == 0 || |p.opponentIds| == 0 || |p.colorHistory| == 0 then Raises
    else
      var removed := p.results[|p.results| - 1];
      var opp := p.opponentIds[|p.opponentIds| - 1];
      var color := p.colorHistory[|p.colorHistory| - 1];
      var opps := p.opponentIds[..|p.opponentIds| - 1];
      var q := p.(results := p.results[..|p.results| - 1], score := p.score - removed,
                  opponentIds := opps, colorHistory := p.colorHistory[..|p.colorHistory| - 1],
                  runningScores := if |p.runningScores| > 0 then p.runningScores[..|p.runningScores| - 1] else []);
      var q2 := if color == Some(Black) then
                  q.(numBlackGames := if q.numBlackGames - 1 < 0 then 0 else q.numBlackGames - 1)
                else q;
      Undone(if opp.None? then q2.(hasReceivedBye := None in opps) else q2)
  }

  /** Undoing takes back exactly what recording a round added, except the
      match entry, which the source never removes. */
  lemma UndoAfterAdd(p: Player, opponent: Option<Player>, result: real, color: Option<Color>, roundNumber: int)
    requires Consistent(p) && roundNumber <= |p.results| + 1
    ensures UndoPlayerResult(AddRoundResult(p, opponent, result, color).0, roundNumber)
              == Undone(p.(matchHistory := AddRoundResult(p, opponent, result, color).0.matchHistory))
  {
    var q := AddRoundResult(p, opponent, result, color).0;
    assert q.results[..|q.results| - 1] == p.results;
    assert q.opponentIds[..|q.opponentIds| - 1] == p.opponentIds;
    assert q.colorHistory[..|q.colorHistory| - 1] == p.colorHistory;
    assert q.runningScores[..|q.runningScores| - 1] == p.runningScores;
    if color == Some(Black) {
      assert p.numBlackGames >= 0;
    }
    if opponent.None? {
      assert p.hasReceivedBye == (None in p.opponentIds);
    }
  }

  /** As written, undoing a White game played after a Black one lowers the
      black count, which the remaining Black game should keep at one. */
  lemma UndoAsWrittenMiscountsBlack(p: Player, opp: Player)
    requires p.results == [] && Consistent(p)
    ensures var p1 := AddRoundResult(p, Some(opp), 1.0, Some(Black)).0;
            var p2 := AddRoundResult(p1, Some(opp), 1.0, Some(White)).0;
            p2.numBlackGames == 1
            && UndoPlayerResultAsWritten(p2, 2).Undone?
            && UndoPlayerResultAsWritten(p2, 2).player.numBlackGames == 0
            && UndoPlayerResult(p2, 2).Undone?
            && UndoPlayerResult(p2, 2).player.numBlackGames == 1
  {
    var p1 := AddRoundResult(p, Some(opp), 1.0, Some(Black)).0;
    var p2 := AddRoundResult(p1, Some(opp), 1.0, Some(White)).0;
    assert p.colorHistory == [];
    assert p2.colorHistory == [Some(Black), Some(White)];
    assert p.numBlackGames == 0 by {
      assert Played(p.colorHistory) == [];
    }
  }

  /** What an undo that succeeds pops and recomputes. */
  lemma UndoPops(p: Player, roundNumber: int)
    requires UndoPlayerResult(p, roundNumber).Undone?
    ensures var u, k := UndoPlayerResult(p, roundNumber).player, |p.results|;
      && k > 0 && |p.opponentIds| > 0 && |p.colorHistory| > 0
      && u.results == p.results[..k - 1] && u.score == p.score - p.results[k - 1]
      && u.opponentIds == p.opponentIds[..|p.opponentIds| - 1]
      && u.colorHistory == p.colorHistory[..|p.colorHistory| - 1]
      && u.runningScores == (if |p.runningScores| > 0 then p.runningScores[..|p.runningScores| - 1] else [])
      && u.numBlackGames == (if p.colorHistory[|p.colorHistory| - 1] == Some(Black)
                             then (if p.numBlackGames - 1 < 0 then 0 else p.numBlackGames - 1)
                             else p.numBlackGames)
      && u.hasReceivedBye == (if p.opponentIds[|p.opponentIds| - 1].None? then None in u.opponentIds
                              else p.hasReceivedBye)
  {
  }

  lemma {:induction false} SumPop(s: seq<real>)
    requires |s| > 0
    ensures Sum(s[..|s| - 1]) == Sum(s) - s[|s| - 1]
  {
  }

  lemma {:induction false} RunningPop(rs: seq<real>, running: seq<real>, shorter: seq<real>, shorterRunning: seq<real>)
    requires |running| == |rs| > 0
    requires forall i :: 0 <= i < |rs| ==> running[i] == Sum(rs[..i + 1])
    requires shorter == rs[..|rs| - 1] && shorterRunning == running[..|rs| - 1]
    ensures forall i :: 0 <= i < |shorter| ==> shorterRunning[i] == Sum(shorter[..i + 1])
  {
    forall i | 0 <= i < |shorter| ensures shorterRunning[i] == Sum(shorter[..i + 1]) {
      assert shorter[..i + 1] == rs[..i + 1];
    }
  }

  lemma {:induction false} BlackPop(h: History)
    requires |h| > 0
    ensures Count(Played(h[..|h| - 1]), Black) == Count(Played(h), Black) - (if h[|h| - 1] == Some(Black) then 1 else 0)
  {
    var c := h[|h| - 1];
    var ch := h[..|h| - 1];
    assert h == ch + [c];
    PlayedAppend(ch, c);
    if c.Some? {
      CountAppend(Played(ch), c.value, Black);
      assert Played(h) == Played(ch) + [c.value];
    } else {
      assert Played(h) == Played(ch);
    }
  }

  lemma {:induction false} NonePop(ids: seq<Option<string>>)
    requires |ids| > 0 && ids[|ids| - 1].Some?
    ensures (None in ids[..|ids| - 1]) == (None in ids)
  {
    assert ids == ids[..|ids| - 1] + [ids[|ids| - 1]];
  }

  /** Undoing a consistent player's last round keeps its bookkeeping
      consistent. */
  lemma {:induction false} UndoKeepsConsistent(p: Player, roundNumber: int)
    requires Consistent(p)
    ensures UndoPlayerResult(p, roundNumber).Undone? ==> Consistent(UndoPlayerResult(p, roundNumber).player)
  {
    if UndoPlayerResult(p, roundNumber).Undone? {
      UndoPops(p, roundNumber);
      PopConsistent(p, UndoPlayerResult(p, roundNumber).player);
    }
  }

  /** Dropping the last round from every per-round list of a consistent
      player, and adjusting the totals to match, keeps it consistent. */
  lemma {:induction false} PopConsistent(p: Player, u: Player)
    requires Consistent(p)
    requires var k := |p.results|;
      && k > 0 && |p.opponentIds| > 0 && |p.colorHistory| > 0
      && u.results == p.results[..k - 1] && u.score == p.score - p.results[k - 1]
      && u.opponentIds == p.opponentIds[..|p.opponentIds| - 1]
      && u.colorHistory == p.colorHistory[..|p.colorHistory| - 1]
      && u.runningScores == (if |p.runningScores| > 0 then p.runningScores[..|p.runningScores| - 1] else [])
      && u.numBlackGames == (if p.colorHistory[|p.colorHistory| - 1] == Some(Black)
                             then (if p.numBlackGames - 1 < 0 then 0 else p.numBlackGames - 1)
                             else p.numBlackGames)
      && u.hasReceivedBye == (if p.opponentIds[|p.opponentIds| - 1].None? then None in u.opponentIds
                              else p.hasReceivedBye)
    ensures Consistent(u)
  {
    SumPop(p.results);
    RunningPop(p.results, p.runningScores, u.results, u.runningScores);
    PopFlags(p, u);
  }

  /** The black-game count and the bye flag after dropping the last round. */
  lemma PopFlags(p: Player, u: Player)
    requires Consistent(p) && |p.opponentIds| > 0 && |p.colorHistory| > 0
    requires u.opponentIds == p.opponentIds[..|p.opponentIds| - 1]
    requires u.colorHistory == p.colorHistory[..|p.colorHistory| - 1]
    requires u.numBlackGames == (if p.colorHistory[|p.colorHistory| - 1] == Some(Black)
                                 then (if p.numBlackGames - 1 < 0 then 0 else p.numBlackGames - 1)
                                 else p.numBlackGames)
    requires u.hasReceivedBye == (if p.opponentIds[|p.opponentIds| - 1].None? then None in u.opponentIds
                                  else p.hasReceivedBye)
    ensures u.numBlackGames == Count(Played(u.colorHistory), Black)
    ensures u.hasReceivedBye == (None in u.opponentIds)
  {
    BlackPop(p.colorHistory);
    if p.opponentIds[|p.opponentIds| - 1].Some? {
      NonePop(p.opponentIds);
    }
  }

  /** What the undo loop leaves: the success flag and the roster, or the
      `IndexError` of an undo that pops an empty list, which ends the loop
      and leaves `undo_round_results`. */
  datatype UndoRun = Finished(ok: bool, players: Roster) | Raised

  /** One player's undo applied to the roster. */
  function UndoOne(players: Roster, id: string, roundNumber: int): (r: UndoRun)
    requires id in players
    ensures r.Raised? <==> UndoPlayerResult(players[id], roundNumber).Raises?
    ensures r.Finished? ==> r.players.Keys == players.Keys
    ensures r.Finished? ==> (r.ok <==> UndoPlayerResult(players[id], roundNumber).Undone?)
    ensures r.Finished? ==> forall k :: k in players && k != id ==> r.players[k] == players[k]
    ensures r.Finished? && r.ok ==> r.players[id] == UndoPlayerResult(players[id], roundNumber).player
    ensures r.Finished? && !r.ok ==> r.players == players
  {
    match UndoPlayerResult(players[id], roundNumber)
    case Undone(q) => Finished(true, players[id := q])
    case NoResultForRound => Finished(false, players)
    case Raises => Raised
  }

  /** Undoing a consistent roster in a round numbered from 1 never raises,
      and the roster stays consistent. */
  lemma UndoOneConsistent(players: Roster, id: string, roundNumber: int)
    requires id in players
    ensures AllConsistent(players) && roundNumber >= 1 ==>
              UndoOne(players, id, roundNumber).Finished? && AllConsistent(UndoOne(players, id, roundNumber).players)
  {
    if AllConsistent(players) {
      UndoKeepsConsistent(players[id], roundNumber);
    }
  }

  /** The loop of `undo_round_results` over the round's results: both
      players undone when both exist. */
  function UndoGames(results: seq<MatchResult>, roundNumber: int, players: Roster): (r: UndoRun)
    ensures r.Finished? ==> r.players.Keys == players.Keys
    ensures |results| == 0 ==> r == Finished(true, players)
    ensures AllConsistent(players) && roundNumber >= 1 ==> r.Finished? && AllConsistent(r.players)
    decreases |results|
  {
    if |results| == 0 then Finished(true, players)
    else
      var m := results[0];
      var first :=
        if m.whiteId in players && m.blackId in players then
          UndoOneConsistent(players, m.whiteId, roundNumber);
          match UndoOne(players, m.whiteId, roundNumber)
          case Raised => Raised
          case Finished(okW, ps1) =>
            UndoOneConsistent(ps1, m.blackId, roundNumber);
            (match UndoOne(ps1, m.blackId, roundNumber)
             case Raised => Raised
             case Finished(okB, ps2) => Finished(okW && okB, ps2))
        else Finished(true, players);
      match first
      case Raised => Raised
      case Finished(ok, ps) =>
        (match UndoGames(results[1..], roundNumber, ps)
         case Raised => Raised
         case Finished(okRest, ps3) => Finished(ok && okRest, ps3))
  }

  /** `undo_round_results`: only a completed round can be undone; then each
      game's players and the bye player are undone, and the round is left
      with no results and not completed. An undo that pops an empty list
      raises out of the whole call. */
  function UndoRoundResults(round: RoundData, players: Roster): (r: Result<(bool, RoundData, Roster), UndoError>)
    ensures !round.isCompleted ==> r == Success((false, round, players))
    ensures r.Success? && round.isCompleted ==> r.value.1 == round.(results := [], isCompleted := false)
    ensures r.Success? ==> r.value.2.Keys == players.Keys
    ensures AllConsistent(players) && round.roundNumber >= 1 ==> r.Success? && AllConsistent(r.value.2)
    ensures round.isCompleted && |round.results| == 0
            && (round.byePlayerId.None? || round.byePlayerId.value == "" || round.byePlayerId.value !in players)
            ==> r == Success((true, round.(results := [], isCompleted := false), players))
  {
    if !round.isCompleted then Success((false, round, players))
    else
      match UndoGames(round.results, round.roundNumber, players)
      case Raised => Failure(IndexError)
      case Finished(okGames, ps) =>
        var bye :=
          if round.byePlayerId.Some? && round.byePlayerId.value != "" && round.byePlayerId.value in ps then
            UndoOneConsistent(ps, round.byePlayerId.value, round.roundNumber);
            UndoOne(ps, round.byePlayerId.value, round.roundNumber)
          else Finished(true, ps);
        match bye
        case Raised => Failure(IndexError)
        case Finished(okBye, ps2) => Success((okGames && okBye, round.(results := [], isCompleted := false), ps2))
  }

  /** The exception an undo can raise: popping an empty list. */
  datatype UndoError = IndexError

  /** A completed round 0 whose result names a player without results:
      `len(results) < 0` is false, so the undo pops an empty list. */
  lemma UndoRoundZeroRaises(p: Player, q: Player)
    requires p.results == [] && q.results == [] && p.id != q.id
    ensures var round := RoundData(0, [(p.id, q.id)], None, [MatchResult(p.id, q.id, 1.0)], true);
            UndoRoundResults(round, map[p.id := p, q.id := q]) == Failure(IndexError)
  {
  }

  // ------------------------------------------------ record, then undo

  /** Equal except for the match history, which no undo takes back. */
  predicate SameButHistory(p: Player, q: Player) {
    p.(matchHistory := q.matchHistory) == q
  }

  /** Undoing `q`'s last round gives back `p`, up to the match history. */
  predicate UndoesTo(q: Player, roundNumber: int, p: Player) {
    UndoPlayerResult(q, roundNumber).Undone? && SameButHistory(UndoPlayerResult(q, roundNumber).player, p)
  }

  /** Undoing a recorded round gives the player back whatever match
      entries it gained meanwhile. */
  lemma UndoAfterAddAnyHistory(p: Player, opponent: Option<Player>, result: real, color: Option<Color>,
                               roundNumber: int, h: seq<MatchInfo>)
    requires Consistent(p) && roundNumber <= |p.results| + 1
    ensures UndoPlayerResult(AddRoundResult(p, opponent, result, color).0.(matchHistory := h), roundNumber)
              == Undone(p.(matchHistory := h))
  {
    var q := AddRoundResult(p, opponent, result, color).0.(matchHistory := h);
    assert q.results[..|q.results| - 1] == p.results;
    assert q.opponentIds[..|q.opponentIds| - 1] == p.opponentIds;
    assert q.colorHistory[..|q.colorHistory| - 1] == p.colorHistory;
    assert q.runningScores[..|q.runningScores| - 1] == p.runningScores;
    if color == Some(Black) {
      assert p.numBlackGames >= 0;
    }
    if opponent.None? {
      assert p.hasReceivedBye == (None in p.opponentIds);
    }
  }

  /** Undoing either player of a recorded game gives that player back. */
  lemma {:induction false} RecordGameUndone(white: string, black: string, whiteScore: real, players: Roster,
                                            roundNumber: int)
    requires white in players && black in players && white != black
    requires Consistent(players[white]) && Consistent(players[black])
    requires roundNumber <= |players[white].results| + 1 && roundNumber <= |players[black].results| + 1
    ensures UndoesTo(RecordGame(white, black, whiteScore, players)[white], roundNumber, players[white])
    ensures UndoesTo(RecordGame(white, black, whiteScore, players)[black], roundNumber, players[black])
  {
    var r := RecordPair(white, black, whiteScore, players);
    assert RecordGame(white, black, whiteScore, players) == r;
    SideUndone(players[white], Some(players[black]), whiteScore, Some(White), roundNumber, r[white]);
    SideUndone(players[black], Some(players[white]), 1.0 - whiteScore, Some(Black), roundNumber, r[black]);
  }

  /** A player that took one game, up to the match entries, undoes back to
      what it was before the game. */
  lemma SideUndone(p: Player, opponent: Option<Player>, result: real, color: Option<Color>, roundNumber: int, q: Player)
    requires Consistent(p) && roundNumber <= |p.results| + 1
    requires SameButHistory(AddRoundResult(p, opponent, result, color).0, q)
    ensures UndoesTo(q, roundNumber, p)
  {
    UndoAfterAddAnyHistory(p, opponent, result, color, roundNumber, q.matchHistory);
  }

  predicate EntryNames(e: (string, string, real), x: string) {
    e.0 == x || e.1 == x
  }

  predicate NamedIn(entries: seq<(string, string, real)>, x: string) {
    exists j :: 0 <= j < |entries| && EntryNames(entries[j], x)
  }

  /** Every entry names two different players, and no player is named by
      two entries. */
  predicate DisjointEntries(entries: seq<(string, string, real)>)
    decreases |entries|
  {
    |entries| == 0
    || (entries[0].0 != entries[0].1 && !NamedIn(entries[1..], entries[0].0)
        && !NamedIn(entries[1..], entries[0].1) && DisjointEntries(entries[1..]))
  }

  predicate GameNames(m: MatchResult, x: string) {
    m.whiteId == x || m.blackId == x
  }

  predicate NamedBy(results: seq<MatchResult>, x: string) {
    exists i :: 0 <= i < |results| && GameNames(results[i], x)
  }

  /** Every game has two different players, and no player plays twice. */
  predicate DisjointGames(results: seq<MatchResult>)
    decreases |results|
  {
    |results| == 0
    || (results[0].whiteId != results[0].blackId && !NamedBy(results[1..], results[0].whiteId)
        && !NamedBy(results[1..], results[0].blackId) && DisjointGames(results[1..]))
  }

  lemma NamedByConcat(a: seq<MatchResult>, c: seq<MatchResult>, x: string)
    ensures NamedBy(a + c, x) <==> NamedBy(a, x) || NamedBy(c, x)
  {
    if NamedBy(a + c, x) {
      var i :| 0 <= i < |a + c| && GameNames((a + c)[i], x);
      if i >= |a| { assert (a + c)[i] == c[i - |a|]; }
    }
    if NamedBy(c, x) {
      var i :| 0 <= i < |c| && GameNames(c[i], x);
      assert (a + c)[|a| + i] == c[i];
    }
    if NamedBy(a, x) {
      var i :| 0 <= i < |a| && GameNames(a[i], x);
      assert (a + c)[i] == a[i];
    }
  }

  lemma NamedByTail(results: seq<MatchResult>, x: string)
    requires |results| > 0
    ensures NamedBy(results[1..], x) ==> NamedBy(results, x)
  {
    if NamedBy(results[1..], x) {
      var i :| 0 <= i < |results[1..]| && GameNames(results[1..][i], x);
      assert results[i + 1] == results[1..][i];
    }
  }

  lemma NamedInTail(entries: seq<(string, string, real)>, x: string)
    requires |entries| > 0
    ensures NamedIn(entries, x) <==> EntryNames(entries[0], x) || NamedIn(entries[1..], x)
  {
    if NamedIn(entries[1..], x) {
      var j :| 0 <= j < |entries[1..]| && EntryNames(entries[1..][j], x);
      assert entries[j + 1] == entries[1..][j];
    }
    if NamedIn(entries, x) && !EntryNames(entries[0], x) {
      var j :| 0 <= j < |entries| && EntryNames(entries[j], x);
      assert entries[1..][j - 1] == entries[j];
    }
  }

  /** The results a batch records, in order: each entry that passes
      validation when its turn comes. */
  function Recorded(b: Batch, entries: seq<(string, string, real)>, pairingIds: set<(string, string)>)
    : seq<MatchResult>
    decreases |entries|
  {
    if |entries| == 0 then []
    else
      var e := entries[0];
      (if ValidEntry(e.0, e.1, e.2, pairingIds, b.processed, b.players.Keys) then [MatchResult(e.0, e.1, e.2)] else [])
      + Recorded(Step(b, e, pairingIds), entries[1..], pairingIds)
  }

  /** The round's results grow by exactly the recorded entries. */
  lemma {:induction false} RecordEntriesRecorded(b: Batch, entries: seq<(string, string, real)>,
                                                 pairingIds: set<(string, string)>)
    ensures RecordEntries(b, entries, pairingIds).results == b.results + Recorded(b, entries, pairingIds)
    decreases |entries|
  {
    if |entries| > 0 {
      var e := entries[0];
      var next := Step(b, e, pairingIds);
      var head := if ValidEntry(e.0, e.1, e.2, pairingIds, b.processed, b.players.Keys)
                  then [MatchResult(e.0, e.1, e.2)] else [];
      assert next.results == b.results + head;
      RecordEntriesRecorded(next, entries[1..], pairingIds);
      ConcatAssoc(b.results, head, Recorded(next, entries[1..], pairingIds));
    }
  }

  /** The recorded games name known players, each named by some entry, and
      with disjoint entries no player plays twice. */
  lemma {:induction false} RecordedFromEntries(b: Batch, entries: seq<(string, string, real)>,
                                               pairingIds: set<(string, string)>)
    requires DisjointEntries(entries)
    ensures forall x :: NamedBy(Recorded(b, entries, pairingIds), x) ==> x in b.players && NamedIn(entries, x)
    ensures DisjointGames(Recorded(b, entries, pairingIds))
    decreases |entries|
  {
    if |entries| > 0 {
      var e := entries[0];
      var next := Step(b, e, pairingIds);
      var head := if ValidEntry(e.0, e.1, e.2, pairingIds, b.processed, b.players.Keys) then [MatchResult(e.0, e.1, e.2)] else [];
      var rest := Recorded(next, entries[1..], pairingIds);
      RecordedFromEntries(next, entries[1..], pairingIds);
      forall x | NamedBy(head + rest, x) ensures x in b.players && NamedIn(entries, x) {
        NamedByConcat(head, rest, x);
        NamedInTail(entries, x);
      }
      if |head| == 1 {
        assert !NamedBy(rest, e.0) && !NamedBy(rest, e.1);
        ConsDisjoint(head[0], rest);
      } else {
        assert head + rest == rest;
      }
    }
  }

  /** A game whose players no later game names keeps the games disjoint. */
  lemma ConsDisjoint(g: MatchResult, rest: seq<MatchResult>)
    requires g.whiteId != g.blackId && !NamedBy(rest, g.whiteId) && !NamedBy(rest, g.blackId)
    requires DisjointGames(rest)
    ensures DisjointGames([g] + rest)
  {
    assert ([g] + rest)[1..] == rest;
  }

  /** One turn of the batch loop: the players of a recorded entry can be
      undone back to what they were. */
  lemma StepUndone(b: Batch, e: (string, string, real), pairingIds: set<(string, string)>, roundNumber: int)
    requires ValidEntry(e.0, e.1, e.2, pairingIds, b.processed, b.players.Keys) && e.0 != e.1
    requires Consistent(b.players[e.0]) && Consistent(b.players[e.1])
    requires roundNumber <= |b.players[e.0].results| + 1 && roundNumber <= |b.players[e.1].results| + 1
    ensures UndoesTo(Step(b, e, pairingIds).players[e.0], roundNumber, b.players[e.0])
    ensures UndoesTo(Step(b, e, pairingIds).players[e.1], roundNumber, b.players[e.1])
  {
    assert Step(b, e, pairingIds).players == RecordGame(e.0, e.1, e.2, b.players);
    RecordGameUndone(e.0, e.1, e.2, b.players, roundNumber);
  }

  /** One turn of the batch loop leaves alone every player it does not
      record a game for. */
  lemma StepFrame(b: Batch, e: (string, string, real), pairingIds: set<(string, string)>)
    ensures forall x :: (x in b.players && !(ValidEntry(e.0, e.1, e.2, pairingIds, b.processed, b.players.Keys)
                                             && EntryNames(e, x))) ==> Step(b, e, pairingIds).players[x] == b.players[x]
  {
  }

  /** The batch after its first entry and then the rest: players named by
      a recorded game can be undone back, the rest are as they were. */
  lemma {:induction false} RecordCombine(entries: seq<(string, string, real)>, valid: bool,
                                         rest: seq<MatchResult>, roundNumber: int,
                                         before: Roster, middle: Roster, after: Roster)
    requires |entries| > 0 && DisjointEntries(entries)
    requires middle.Keys == before.Keys
    requires forall x :: NamedBy(rest, x) ==> NamedIn(entries[1..], x)
    requires valid ==> entries[0].0 in before && entries[0].1 in before
    requires valid ==> UndoesTo(middle[entries[0].0], roundNumber, before[entries[0].0])
                       && UndoesTo(middle[entries[0].1], roundNumber, before[entries[0].1])
    requires forall x :: x in before && !(valid && EntryNames(entries[0], x)) ==> middle[x] == before[x]
    requires forall x :: x in middle && NamedBy(rest, x) ==> x in after && UndoesTo(after[x], roundNumber, middle[x])
    requires forall x :: x in middle && !NamedBy(rest, x) ==> x in after && after[x] == middle[x]
    ensures var e := entries[0];
            var recorded := (if valid then [MatchResult(e.0, e.1, e.2)] else []) + rest;
            && (forall x :: x in before && NamedBy(recorded, x) ==> x in after && UndoesTo(after[x], roundNumber, before[x]))
            && (forall x :: x in before && !NamedBy(recorded, x) ==> x in after && after[x] == before[x])
  {
    var e := entries[0];
    var head := if valid then [MatchResult(e.0, e.1, e.2)] else [];
    forall x | x in before
      ensures NamedBy(head + rest, x) ==> x in after && UndoesTo(after[x], roundNumber, before[x])
      ensures !NamedBy(head + rest, x) ==> x in after && after[x] == before[x]
    {
      NamedByConcat(head, rest, x);
      if valid && EntryNames(e, x) {
        assert x == e.0 || x == e.1;
        assert !NamedIn(entries[1..], x);
        assert NamedBy(head, x) by { assert GameNames(head[0], x); }
      } else {
        assert !NamedBy(head, x);
      }
    }
  }

  /** The players the later entries name are untouched by the first one,
      so they keep their result counts. */
  lemma {:induction false} RestBound(entries: seq<(string, string, real)>, valid: bool, roundNumber: int,
                                     before: Roster, middle: Roster)
    requires |entries| > 0 && DisjointEntries(entries) && middle.Keys == before.Keys
    requires forall x :: x in before && !(valid && EntryNames(entries[0], x)) ==> middle[x] == before[x]
    requires forall x :: x in before && NamedIn(entries, x) ==> roundNumber <= |before[x].results| + 1
    ensures forall x :: x in middle && NamedIn(entries[1..], x) ==> roundNumber <= |middle[x].results| + 1
  {
    forall x | x in middle && NamedIn(entries[1..], x)
      ensures roundNumber <= |middle[x].results| + 1
    {
      NamedInTail(entries, x);
      assert !EntryNames(entries[0], x);
    }
  }

  /** Recording a batch of disjoint entries and undoing one player gives
      that player back if a recorded game names it; a player no recorded
      game names is left alone. */
  lemma {:induction false} RecordEntriesUndone(b: Batch, entries: seq<(string, string, real)>,
                                               pairingIds: set<(string, string)>, roundNumber: int)
    requires AllConsistent(b.players) && DisjointEntries(entries)
    requires forall x :: x in b.players && NamedIn(entries, x) ==> roundNumber <= |b.players[x].results| + 1
    ensures forall x :: x in b.players && NamedBy(Recorded(b, entries, pairingIds), x) ==>
              UndoesTo(RecordEntries(b, entries, pairingIds).players[x], roundNumber, b.players[x])
    ensures forall x :: x in b.players && !NamedBy(Recorded(b, entries, pairingIds), x) ==>
              RecordEntries(b, entries, pairingIds).players[x] == b.players[x]
    decreases |entries|
  {
    if |entries| > 0 {
      var e := entries[0];
      var next := Step(b, e, pairingIds);
      var valid := ValidEntry(e.0, e.1, e.2, pairingIds, b.processed, b.players.Keys);
      var rest := Recorded(next, entries[1..], pairingIds);
      assert Recorded(b, entries, pairingIds) == (if valid then [MatchResult(e.0, e.1, e.2)] else []) + rest;
      assert RecordEntries(b, entries, pairingIds) == RecordEntries(next, entries[1..], pairingIds);
      StepFrame(b, e, pairingIds);
      if valid {
        assert NamedIn(entries, e.0) && NamedIn(entries, e.1) by {
          assert EntryNames(entries[0], e.0) && EntryNames(entries[0], e.1);
        }
        StepUndone(b, e, pairingIds, roundNumber);
      }
      RestBound(entries, valid, roundNumber, b.players, next.players);
      RecordEntriesUndone(next, entries[1..], pairingIds, roundNumber);
      RecordedFromEntries(next, entries[1..], pairingIds);
      RecordCombine(entries, valid, rest, roundNumber, b.players, next.players,
                    RecordEntries(next, entries[1..], pairingIds).players);
    }
  }

  /** One turn of the undo loop when both players of the first game have
      a result to undo. */
  lemma UndoGamesFirst(results: seq<MatchResult>, roundNumber: int, players: Roster)
    requires |results| > 0 && results[0].whiteId != results[0].blackId
    requires results[0].whiteId in players && results[0].blackId in players
    requires UndoPlayerResult(players[results[0].whiteId], roundNumber).Undone?
    requires UndoPlayerResult(players[results[0].blackId], roundNumber).Undone?
    ensures UndoGames(results, roundNumber, players)
            == UndoGames(results[1..], roundNumber,
                         players[results[0].whiteId := UndoPlayerResult(players[results[0].whiteId], roundNumber).player]
                                [results[0].blackId := UndoPlayerResult(players[results[0].blackId], roundNumber).player])
  {
    var m := results[0];
    var ps1 := players[m.whiteId := UndoPlayerResult(players[m.whiteId], roundNumber).player];
    assert UndoOne(players, m.whiteId, roundNumber) == Finished(true, ps1);
    assert ps1[m.blackId] == players[m.blackId];
  }

  /** The roster after the first game's players are undone and then the
      rest of the games: named players hold their undone selves, the rest
      are as they were. */
  lemma {:induction false} UndoCombine(results: seq<MatchResult>, players: Roster, undone: Roster, done: Roster)
    requires |results| > 0 && DisjointGames(results) && done.Keys == players.Keys
    requires forall x :: NamedBy(results, x) ==> x in undone
    requires results[0].whiteId in undone && results[0].blackId in undone
    requires results[0].whiteId in players && results[0].blackId in players
    requires var m := results[0];
             var ps2 := players[m.whiteId := undone[m.whiteId]][m.blackId := undone[m.blackId]];
             && (forall x :: x in ps2 && x in undone && NamedBy(results[1..], x) ==> done[x] == undone[x])
             && (forall x :: x in ps2 && !NamedBy(results[1..], x) ==> done[x] == ps2[x])
    ensures forall x :: x in players && NamedBy(results, x) ==> done[x] == undone[x]
    ensures forall x :: x in players && !NamedBy(results, x) ==> done[x] == players[x]
  {
    var m := results[0];
    var rest := results[1..];
    forall x | x in players
      ensures NamedBy(results, x) ==> done[x] == undone[x]
      ensures !NamedBy(results, x) ==> done[x] == players[x]
    {
      if GameNames(m, x) {
        assert !NamedBy(rest, x);
        assert NamedBy(results, x) by { assert GameNames(results[0], x); }
      } else if NamedBy(results, x) {
        var i :| 0 <= i < |results| && GameNames(results[i], x);
        assert i > 0 && rest[i - 1] == results[i];
      } else {
        assert !NamedBy(rest, x);
      }
    }
  }

  /** Undoing disjoint games whose players all have a result to undo
      (`undone` holds what each one's undo gives): every named player is
      undone once, everyone else is left alone, and the loop reports
      success. */
  lemma {:induction false} UndoGamesRestores(results: seq<MatchResult>, roundNumber: int, players: Roster,
                                             undone: Roster)
    requires DisjointGames(results)
    requires forall x :: NamedBy(results, x) ==>
               x in players && x in undone && UndoPlayerResult(players[x], roundNumber) == Undone(undone[x])
    ensures UndoGames(results, roundNumber, players).Finished? && UndoGames(results, roundNumber, players).ok
    ensures forall x :: x in players && NamedBy(results, x) ==> UndoGames(results, roundNumber, players).players[x] == undone[x]
    ensures forall x :: x in players && !NamedBy(results, x) ==> UndoGames(results, roundNumber, players).players[x] == players[x]
    decreases |results|
  {
    if |results| > 0 {
      var m := results[0];
      var rest := results[1..];
      assert GameNames(results[0], m.whiteId) && GameNames(results[0], m.blackId);
      var ps2 := players[m.whiteId := undone[m.whiteId]][m.blackId := undone[m.blackId]];
      UndoGamesFirst(results, roundNumber, players);
      forall x | NamedBy(rest, x) ensures x in ps2 && ps2[x] == players[x] && NamedBy(results, x) {
        NamedByTail(results, x);
      }
      UndoGamesRestores(rest, roundNumber, ps2, undone);
      UndoCombine(results, players, undone, UndoGames(rest, roundNumber, ps2).players);
    }
  }

  /** The bye player a round records and undoes, if any. */
  function ByeOf(round: RoundData): Option<string> {
    if round.byePlayerId.Some? && round.byePlayerId.value != "" then round.byePlayerId else None
  }

  /** The roster after the bye of a round is recorded on `ps`. */
  function ByeRecorded(round: RoundData, ps: Roster): Roster {
    if ByeOf(round).Some? then RecordBye(ByeOf(round).value, round.roundNumber, ps).1 else ps
  }

  /** The roster after the bye of a round is undone on `ps`, when that
      undo succeeds. */
  function ByeUndone(round: RoundData, ps: Roster): Roster {
    if ByeOf(round).Some? && ByeOf(round).value in ps
       && UndoPlayerResult(ps[ByeOf(round).value], round.roundNumber).Undone?
    then ps[ByeOf(round).value := UndoPlayerResult(ps[ByeOf(round).value], round.roundNumber).player]
    else ps
  }

  /** Recording a fresh round is recording its games, then its bye. */
  lemma RecordRoundParts(round: RoundData, entries: seq<(string, string, real)>, players: Roster)
    requires round.results == []
    ensures var b0 := Batch(true, {}, [], players);
            && RecordRoundResults(round, entries, players).1 == round.(results := Recorded(b0, entries, PairingIds(round)))
            && RecordRoundResults(round, entries, players).2 == ByeRecorded(round, RecordEntries(b0, entries, PairingIds(round)).players)
  {
    var b0 := Batch(true, {}, [], players);
    RecordEntriesRecorded(b0, entries, PairingIds(round));
  }

  /** Recording the bye on a roster whose game players can be undone keeps
      every touched player undoable and leaves the others alone. */
  lemma ByeCombine(round: RoundData, rec: seq<MatchResult>, bp: Roster, players: Roster)
    requires AllConsistent(players) && bp.Keys == players.Keys
    requires forall x :: x in players ==> |players[x].results| == round.roundNumber - 1
    requires ByeOf(round).Some? ==> !NamedBy(rec, ByeOf(round).value)
    requires forall x :: x in players && NamedBy(rec, x) ==> UndoesTo(bp[x], round.roundNumber, players[x])
    requires forall x :: x in players && !NamedBy(rec, x) ==> bp[x] == players[x]
    ensures ByeRecorded(round, bp).Keys == players.Keys
    ensures forall x :: x in players && (NamedBy(rec, x) || ByeOf(round) == Some(x)) ==>
              UndoesTo(ByeRecorded(round, bp)[x], round.roundNumber, players[x])
    ensures forall x :: x in players && !(NamedBy(rec, x) || ByeOf(round) == Some(x)) ==>
              ByeRecorded(round, bp)[x] == players[x]
  {
    if ByeOf(round).Some? && ByeOf(round).value in players {
      var bye := ByeOf(round).value;
      var p := players[bye];
      var score := if p.isActive then Constants.ByeScore else 0.0;
      assert bp[bye] == p;
      ByeUndoes(p, score, round.roundNumber);
      var after := bp[bye := AddRoundResult(p, None, score, None).0];
      assert ByeRecorded(round, bp) == after;
      TouchOne(players, bp, after, bye, rec, round.roundNumber);
    }
  }

  /** Undoing one more player on top of a set of undoable ones. */
  lemma TouchOne(players: Roster, bp: Roster, after: Roster, bye: string, rec: seq<MatchResult>, roundNumber: int)
    requires bp.Keys == players.Keys && bye in players && bye in after && after == bp[bye := after[bye]]
    requires !NamedBy(rec, bye)
    requires forall x :: x in players && NamedBy(rec, x) ==> UndoesTo(bp[x], roundNumber, players[x])
    requires forall x :: x in players && !NamedBy(rec, x) ==> bp[x] == players[x]
    requires UndoesTo(after[bye], roundNumber, players[bye])
    ensures forall x :: x in players && (NamedBy(rec, x) || Some(bye) == Some(x)) ==> UndoesTo(after[x], roundNumber, players[x])
    ensures forall x :: x in players && !(NamedBy(rec, x) || Some(bye) == Some(x)) ==> after[x] == players[x]
  {
  }

  /** A recorded bye undoes back to the player it was recorded on. */
  lemma ByeUndoes(p: Player, score: real, roundNumber: int)
    requires Consistent(p) && roundNumber <= |p.results| + 1
    ensures UndoesTo(AddRoundResult(p, None, score, None).0, roundNumber, p)
  {
    UndoAfterAdd(p, None, score, None, roundNumber);
  }

  /** What recording a fresh round does, player by player: the players of
      a recorded game and the bye player can each be undone back to what
      they were, and everyone else is untouched. */
  lemma {:induction false} RecordRoundUndoable(round: RoundData, entries: seq<(string, string, real)>, players: Roster)
    requires AllConsistent(players) && round.results == [] && round.roundNumber >= 1
    requires forall x :: x in players ==> |players[x].results| == round.roundNumber - 1
    requires DisjointEntries(entries)
    requires ByeOf(round).Some? ==> !NamedIn(entries, ByeOf(round).value)
    ensures var r := RecordRoundResults(round, entries, players);
            var rec := Recorded(Batch(true, {}, [], players), entries, PairingIds(round));
            && r.1 == round.(results := rec)
            && DisjointGames(rec)
            && r.2.Keys == players.Keys
            && (forall x :: NamedBy(rec, x) ==> x in players)
            && (ByeOf(round).Some? ==> !NamedBy(rec, ByeOf(round).value))
            && (forall x :: x in players && (NamedBy(rec, x) || ByeOf(round) == Some(x)) ==>
                  UndoesTo(r.2[x], round.roundNumber, players[x]))
            && (forall x :: x in players && !(NamedBy(rec, x) || ByeOf(round) == Some(x)) ==> r.2[x] == players[x])
  {
    var b0 := Batch(true, {}, [], players);
    var pids := PairingIds(round);
    var rec := Recorded(b0, entries, pids);
    RecordRoundParts(round, entries, players);
    RecordEntriesUndone(b0, entries, pids, round.roundNumber);
    RecordedFromEntries(b0, entries, pids);
    ByeCombine(round, rec, RecordEntries(b0, entries, pids).players, players);
  }

  /** Undoing a completed round is undoing its games, then its bye. */
  lemma UndoRoundParts(round: RoundData, recorded: Roster)
    requires round.isCompleted
    requires UndoGames(round.results, round.roundNumber, recorded).Finished?
    requires UndoGames(round.results, round.roundNumber, recorded).ok
    requires var f := UndoGames(round.results, round.roundNumber, recorded).players;
             ByeOf(round).Some? && ByeOf(round).value in f ==> UndoPlayerResult(f[ByeOf(round).value], round.roundNumber).Undone?
    ensures UndoRoundResults(round, recorded)
              == Success((true, round.(results := [], isCompleted := false),
                          ByeUndone(round, UndoGames(round.results, round.roundNumber, recorded).players)))
  {
  }

  /** The game players of a round, each undone one round. */
  function UndoneMap(recorded: Roster, roundNumber: int): (m: Roster)
    ensures m.Keys == recorded.Keys
    ensures forall x :: x in recorded && UndoPlayerResult(recorded[x], roundNumber).Undone? ==>
              UndoPlayerResult(recorded[x], roundNumber) == Undone(m[x])
  {
    map x | x in recorded :: if UndoPlayerResult(recorded[x], roundNumber).Undone?
                              then UndoPlayerResult(recorded[x], roundNumber).player else recorded[x]
  }

  /** Undoing a round recorded as above gives every player back, up to the
      match entries, and reports success. */
  lemma {:induction false} UndoRoundRestores(round: RoundData, players: Roster, recorded: Roster)
    requires round.isCompleted && DisjointGames(round.results) && recorded.Keys == players.Keys
    requires forall x :: NamedBy(round.results, x) ==> x in players
    requires ByeOf(round).Some? ==> !NamedBy(round.results, ByeOf(round).value)
    requires forall x :: x in players && (NamedBy(round.results, x) || ByeOf(round) == Some(x)) ==>
               UndoesTo(recorded[x], round.roundNumber, players[x])
    requires forall x :: x in players && !(NamedBy(round.results, x) || ByeOf(round) == Some(x)) ==>
               recorded[x] == players[x]
    ensures var u := UndoRoundResults(round, recorded);
            && u.Success? && u.value.0
            && u.value.1 == round.(results := [], isCompleted := false)
            && u.value.2.Keys == players.Keys
            && forall x :: x in players ==> SameButHistory(u.value.2[x], players[x])
  {
    GamesRestore(round, players, recorded);
    var f := UndoGames(round.results, round.roundNumber, recorded).players;
    ByeRestore(round, players, recorded, f);
    UndoRoundParts(round, recorded);
  }

  /** Undoing the games of a round recorded as above succeeds and gives
      their players back, up to the match entries. */
  lemma GamesRestore(round: RoundData, players: Roster, recorded: Roster)
    requires DisjointGames(round.results) && recorded.Keys == players.Keys
    requires forall x :: NamedBy(round.results, x) ==> x in players
    requires forall x :: x in players && NamedBy(round.results, x) ==> UndoesTo(recorded[x], round.roundNumber, players[x])
    ensures UndoGames(round.results, round.roundNumber, recorded).Finished?
    ensures UndoGames(round.results, round.roundNumber, recorded).ok
    ensures UndoGames(round.results, round.roundNumber, recorded).players.Keys == players.Keys
    ensures forall x :: x in players && NamedBy(round.results, x) ==>
              SameButHistory(UndoGames(round.results, round.roundNumber, recorded).players[x], players[x])
    ensures forall x :: x in players && !NamedBy(round.results, x) ==>
              UndoGames(round.results, round.roundNumber, recorded).players[x] == recorded[x]
  {
    var undone := UndoneMap(recorded, round.roundNumber);
    UndoGamesRestores(round.results, round.roundNumber, recorded, undone);
  }

  /** Undoing the bye after the games gives the bye player back too. */
  lemma ByeRestore(round: RoundData, players: Roster, recorded: Roster, f: Roster)
    requires recorded.Keys == players.Keys && f.Keys == players.Keys
    requires ByeOf(round).Some? ==> !NamedBy(round.results, ByeOf(round).value)
    requires forall x :: x in players && ByeOf(round) == Some(x) ==> UndoesTo(recorded[x], round.roundNumber, players[x])
    requires forall x :: x in players && !(NamedBy(round.results, x) || ByeOf(round) == Some(x)) ==>
               recorded[x] == players[x]
    requires forall x :: x in players && NamedBy(round.results, x) ==> SameButHistory(f[x], players[x])
    requires forall x :: x in players && !NamedBy(round.results, x) ==> f[x] == recorded[x]
    ensures ByeOf(round).Some? && ByeOf(round).value in f ==> UndoPlayerResult(f[ByeOf(round).value], round.roundNumber).Undone?
    ensures ByeUndone(round, f).Keys == players.Keys
    ensures forall x :: x in players ==> SameButHistory(ByeUndone(round, f)[x], players[x])
  {
    if ByeOf(round).Some? && ByeOf(round).value in f {
      var bye := ByeOf(round).value;
      assert f[bye] == recorded[bye];
      var after := f[bye := UndoPlayerResult(f[bye], round.roundNumber).player];
      assert ByeUndone(round, f) == after;
      forall x | x in players
        ensures SameButHistory(after[x], players[x])
      {
        if x != bye && !NamedBy(round.results, x) {
          assert after[x] == players[x];
        }
      }
    }
  }

  /** Recording a fresh round's results and then undoing the round gives
      every player back as it was, apart from the match entries the undo
      never removes, and the undo reports success: for players who have
      each played every earlier round and entries that name every player
      at most once and never the bye player. */
  lemma {:induction false} RecordThenUndo(round: RoundData, entries: seq<(string, string, real)>, players: Roster)
    requires AllConsistent(players) && round.results == [] && round.roundNumber >= 1
    requires forall x :: x in players ==> |players[x].results| == round.roundNumber - 1
    requires DisjointEntries(entries)
    requires ByeOf(round).Some? ==> !NamedIn(entries, ByeOf(round).value)
    ensures var r := RecordRoundResults(round, entries, players);
            var u := UndoRoundResults(r.1.(isCompleted := true), r.2);
            && u.Success? && u.value.0
            && u.value.1 == round.(isCompleted := false)
            && u.value.2.Keys == players.Keys
            && forall x :: x in players ==> SameButHistory(u.value.2[x], players[x])
  {
    var r := RecordRoundResults(round, entries, players);
    RecordRoundUndoable(round, entries, players);
    UndoRoundRestores(r.1.(isCompleted := true), players, r.2);
  }
}
