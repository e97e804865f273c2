/** gui/views/tournament/tournament_controller.py without Qt: checks before
    starting or preparing a round, pairing generation, recording and undoing
    a round's results, on the view of the tournament the controller reads
    (players, round count, pairing system, and the generated pairings and
    byes per round). The pairing engine and the tournament's own recorder are
    not called: their outcomes are parameters. */
module TournamentControl {
  import opened Wrappers
  import opened Colors
  import opened Players
  import Constants

  type Roster = map<string, Player>

  /** The attributes of the tournament the controller uses. */
  datatype View = View(
    players: Roster, numRounds: int, pairingSystem: string,
    roundsPairingsIds: seq<seq<(string, string)>>, roundsByesIds: seq<Option<string>>)

  datatype Controller = Controller(
    tournament: Option<View>, currentRoundIndex: int, lastRecorded: seq<(string, string, real)>)

  /** `set_tournament`: clearing the tournament also forgets the index and
      the last recorded results. */
  function SetTournament(c: Controller, t: Option<View>): (r: Controller)
    ensures r.tournament == t
    ensures t.None? ==> r.currentRoundIndex == 0 && r.lastRecorded == []
    ensures t.Some? ==> r.currentRoundIndex == c.currentRoundIndex && r.lastRecorded == c.lastRecorded
  {
    if t.None? then Controller(None, 0, []) else c.(tournament := t)
  }

  // ------------------------------------------------------------ validation

  datatype Validation = Invalid(error: string) | Valid | ValidNeedsConfirmation(message: string)

  function Pow2(n: nat): (r: nat)
    ensures r >= 1
  {
    if n == 0 then 1 else 2 * Pow2(n - 1)
  }

  /** `2 ** num_rounds` compared with a whole count: for a negative round
      count the power is a fraction below one, so no count is below it
      except zero, which the minimum of two already rejects. */
  predicate BelowRecommended(count: nat, numRounds: int) {
    numRounds >= 0 && count < Pow2(numRounds)
  }

  function ActiveCount(players: Roster): (n: nat)
    ensures n <= |players|
  {
    var act := set id | id in players && players[id].isActive;
    SubsetCard(act, players.Keys);
    |act|
  }

  lemma SubsetCard<T>(a: set<T>, b: set<T>)
    requires a <= b
    ensures |a| <= |b|
  {
    if a != {} {
      var x :| x in a;
      SubsetCard(a - {x}, b - {x});
    }
  }

  /** `validate_minimum_players`: the players counted are the active ones
      when preparing a round and all of them at the start. */
  function ValidateMinimumPlayers(c: Controller, forPreparation: bool): (r: Validation)
    ensures c.tournament.None? ==> r.Invalid?
    ensures c.tournament.Some? ==>
              var t := c.tournament.value;
              var n := if forPreparation then ActiveCount(t.players) else |t.players|;
              (r.Invalid? <==>
                 (t.pairingSystem == Constants.RoundRobin && n < 3)
                 || ((t.pairingSystem == Constants.DutchSwiss || t.pairingSystem == Constants.Manual) && n < 2))
              && (r.ValidNeedsConfirmation? <==>
                    t.pairingSystem == Constants.DutchSwiss && n >= 2 && BelowRecommended(n, t.numRounds))
  {
    match c.tournament
    case None => Invalid("No tournament loaded.")
    case Some(t) =>
      var n := if forPreparation then ActiveCount(t.players) else |t.players|;
      var kind := if forPreparation then "active " else "";
      if t.pairingSystem == Constants.RoundRobin then
        if n < 3 then Invalid("Round Robin tournaments require at least three " + kind + "players.")
        else Valid
      else if t.pairingSystem == Constants.DutchSwiss then
        if n < 2 then Invalid("FIDE Dutch Swiss tournaments require at least two " + kind + "players.")
        else if BelowRecommended(n, t.numRounds) then
          ValidNeedsConfirmation("For a " + Text.IntToString(t.numRounds)
            + "-round FIDE Dutch Swiss tournament, a minimum of "
            + Text.IntToString(Pow2(t.numRounds)) + " players is recommended. "
            + "The tournament may not work properly. Do you want to continue anyway?")
        else Valid
      else if t.pairingSystem == Constants.Manual then
        if n < 2 then Invalid("Manual pairing tournaments require at least two " + kind + "players.")
        else Valid
      else Valid
  }

  /** Adding players, with the same active flags for those already there,
      never turns a valid field invalid. */
  lemma ValidationMonotone(c: Controller, d: Controller, forPreparation: bool)
    requires c.tournament.Some? && d.tournament.Some?
    requires c.tournament.value.pairingSystem == d.tournament.value.pairingSystem
    requires c.tournament.value.numRounds == d.tournament.value.numRounds
    requires c.tournament.value.players.Keys <= d.tournament.value.players.Keys
    requires forall id :: id in c.tournament.value.players ==>
               d.tournament.value.players[id].isActive == c.tournament.value.players[id].isActive
    ensures !ValidateMinimumPlayers(c, forPreparation).Invalid? ==> !ValidateMinimumPlayers(d, forPreparation).Invalid?
  {
    var p := c.tournament.value.players;
    var q := d.tournament.value.players;
    SubsetCard(p.Keys, q.Keys);
    assert |p| == |p.Keys| && |q| == |q.Keys|;
    var a := set id | id in p && p[id].isActive;
    var b := set id | id in q && q[id].isActive;
    assert a <= b;
    SubsetCard(a, b);
  }

  // ---------------------------------------------------- pairing generation

  datatype Generation = Generation(success: bool, pairings: seq<(string, string)>, bye: Option<string>,
                                   error: Option<string>)

  /** `generate_pairings`. `engine` is what `create_pairings` returned for
      the round, or the message of the exception it raised; it is consulted
      only for a round within the round count. */
  function GeneratePairings(c: Controller, roundIndex: int,
                            engine: Result<(seq<(string, string)>, Option<string>), string>): (r: Generation)
    ensures r.success ==> c.tournament.Some? && roundIndex < c.tournament.value.numRounds
                          && engine.Success? && r.pairings == engine.value.0 && r.bye == engine.value.1
    ensures !r.success ==> r.pairings == [] && r.bye == None && r.error.Some?
    ensures (c.tournament.Some? && roundIndex < c.tournament.value.numRounds && engine.Success?) ==>
              (!r.success <==>
                 (engine.value.0 == [] && engine.value.1.None?
                  && ActiveCount(c.tournament.value.players) > 1
                  && ActiveCount(c.tournament.value.players) % 2 == 0))
  {
    match c.tournament
    case None => Generation(false, [], None, Some("No tournament loaded."))
    case Some(t) =>
      if roundIndex >= t.numRounds then
        Generation(false, [], None, Some("All tournament rounds have been generated."))
      else
        match engine
        case Failure(e) => Generation(false, [], None, Some("Pairing generation failed: " + e))
        case Success((pairs, bye)) =>
          var active := ActiveCount(t.players);
          if pairs == [] && active > 1 && bye.None? && active % 2 == 0 then
            Generation(false, [], None,
              Some("Pairing generation failed for Round " + Text.IntToString(roundIndex + 1)
                   + ". No pairings returned. Check logs and player statuses."))
          else Generation(true, pairs, bye, None)
  }

  /** `pairings_exist_for_round`. */
  predicate PairingsExistForRound(c: Controller, roundIndex: int) {
    c.tournament.Some? && roundIndex < |c.tournament.value.roundsPairingsIds|
  }

  /** Python's `xs[:k]`. */
  function Take<T>(xs: seq<T>, k: int): (r: seq<T>)
    ensures |r| == if k < 0 then (if |xs| + k < 0 then 0 else |xs| + k) else if k < |xs| then k else |xs|
    ensures r <= xs
  {
    if k < 0 then (if |xs| + k < 0 then [] else xs[..|xs| + k])
    else if k < |xs| then xs[..k] else xs
  }

  /** `clear_round_pairings`: the round and every later one lose their
      pairings and byes. */
  function ClearRoundPairings(c: Controller, roundIndex: int): (r: Controller)
    ensures r.currentRoundIndex == c.currentRoundIndex && r.lastRecorded == c.lastRecorded
    ensures c.tournament.None? ==> r == c
    ensures c.tournament.Some? ==>
              (r.tournament.Some?
               && r.tournament.value.players == c.tournament.value.players
               && r.tournament.value.roundsPairingsIds <= c.tournament.value.roundsPairingsIds
               && r.tournament.value.roundsByesIds <= c.tournament.value.roundsByesIds)
  {
    match c.tournament
    case None => c
    case Some(t) =>
      c.(tournament := Some(t.(roundsPairingsIds := Take(t.roundsPairingsIds, roundIndex),
                               roundsByesIds := Take(t.roundsByesIds, roundIndex))))
  }

  /** After clearing from a round on, that round has no pairings and every
      earlier round keeps its own. */
  lemma ClearThenExists(c: Controller, roundIndex: nat, j: int)
    requires c.tournament.Some?
    ensures !PairingsExistForRound(ClearRoundPairings(c, roundIndex), roundIndex)
    ensures (0 <= j < roundIndex && j < |c.tournament.value.roundsPairingsIds|) ==>
              PairingsExistForRound(ClearRoundPairings(c, roundIndex), j)
              && ClearRoundPairings(c, roundIndex).tournament.value.roundsPairingsIds[j]
                 == c.tournament.value.roundsPairingsIds[j]
  {
  }

  /** `get_round_pairings`: the pairs whose players are both known, and the
      bye player if the round has a known one. */
  function GetRoundPairings(c: Controller, roundIndex: int): (r: (seq<(Player, Player)>, Option<Player>))
    requires c.tournament.Some? ==> |c.tournament.value.roundsByesIds| >= |c.tournament.value.roundsPairingsIds|
    ensures |r.0| <= (if PairingsExistForRound(c, roundIndex) && roundIndex >= 0
                      then |c.tournament.value.roundsPairingsIds[roundIndex]| else 0)
    ensures r.1.Some? ==> c.tournament.Some? && r.1.value in c.tournament.value.players.Values
  {
    if !PairingsExistForRound(c, roundIndex) || roundIndex < 0 then ([], None)
    else
      var t := c.tournament.value;
      var bye := t.roundsByesIds[roundIndex];
      (KnownPairs(t.roundsPairingsIds[roundIndex], t.players),
       if bye.Some? && bye.value != "" && bye.value in t.players then Some(t.players[bye.value]) else None)
  }

  function KnownPairs(ids: seq<(string, string)>, players: Roster): (r: seq<(Player, Player)>)
    ensures |r| <= |ids|
    ensures forall k :: 0 <= k < |r| ==> r[k].0 in players.Values && r[k].1 in players.Values
  {
    if ids == [] then []
    else
      var rest := KnownPairs(ids[1..], players);
      if ids[0].0 in players && ids[0].1 in players
      then [(players[ids[0].0], players[ids[0].1])] + rest
      else rest
  }

  // ------------------------------------------------------------- recording

  datatype Recording = Recording(success: bool, finished: bool, error: Option<string>)

  /** `record_results`. `recorded` is what the tournament's `record_results`
      returned, or the message of the exception it raised. */
  function RecordResults(c: Controller, roundIndex: int, data: seq<(string, string, real)>,
                         recorded: Result<bool, string>): (r: (Recording, Controller))
    ensures r.0.success <==> c.tournament.Some? && roundIndex < |c.tournament.value.roundsPairingsIds|
                             && recorded == Success(true)
    ensures r.0.success ==> r.1 == c.(currentRoundIndex := roundIndex + 1, lastRecorded := data)
                            && (r.0.finished <==> roundIndex + 1 >= c.tournament.value.numRounds)
    ensures !r.0.success ==> r.1 == c && !r.0.finished && r.0.error.Some?
  {
    if c.tournament.None? then (Recording(false, false, Some("No tournament loaded.")), c)
    else if roundIndex >= |c.tournament.value.roundsPairingsIds| then
      (Recording(false, false, Some("No pairings available to record results for this round.")), c)
    else
      match recorded
      case Failure(e) => (Recording(false, false, Some("Recording results failed: " + e)), c)
      case Success(false) =>
        (Recording(false, false, Some("Some results may not have been recorded properly.")), c)
      case Success(true) =>
        var next := c.(currentRoundIndex := roundIndex + 1, lastRecorded := data);
        (Recording(true, roundIndex + 1 >= c.tournament.value.numRounds, None), next)
  }

  /** `parse_result_to_score`: the white score of a result name. */
  function ParseResultToScore(s: string): (r: Option<real>)
    ensures r.Some? <==> s in {Constants.ResultWhiteWin, Constants.ResultDraw, Constants.ResultBlackWin}
  {
    if s == Constants.ResultWhiteWin then Some(Constants.WinScore)
    else if s == Constants.ResultDraw then Some(Constants.DrawScore)
    else if s == Constants.ResultBlackWin then Some(Constants.LossScore)
    else None
  }

  /** The result name of a white score, the other direction of the parse. */
  function ResultName(score: real): Option<string> {
    if score == Constants.WinScore then Some(Constants.ResultWhiteWin)
    else if score == Constants.DrawScore then Some(Constants.ResultDraw)
    else if score == Constants.LossScore then Some(Constants.ResultBlackWin)
    else None
  }

  /** Parsing and naming are inverse on the three results. */
  lemma ParseResultRoundTrip(s: string, score: real)
    ensures ParseResultToScore(s) == Some(score) <==> ResultName(score) == Some(s)
  {
  }

  // --------------------------------------------------------------- undoing

  /** `can_undo`. */
  predicate CanUndo(c: Controller) {
    c.tournament.Some? && |c.lastRecorded| > 0 && c.currentRoundIndex > 0
  }

  /** Python's `round(x, 1)` on an exact value: to the nearest tenth, a tie
      to the even tenth. */
  function RoundTenth(x: real): (r: real)
    ensures -0.05 <= r - x <= 0.05
  {
    var y := x * 10.0;
    var f := y.Floor;
    var frac := y - f as real;
    var n := if frac < 0.5 then f else if frac > 0.5 then f + 1 else if f % 2 == 0 then f else f + 1;
    n as real / 10.0
  }

  /** A whole number of tenths is kept by the rounding. */
  lemma RoundTenthExact(k: int)
    ensures RoundTenth(k as real / 10.0) == k as real / 10.0
  {
    assert (k as real / 10.0) * 10.0 == k as real;
  }

  /** `_revert_player_round_data`: take back the last round of the player's
      lists; the score loses the last result, rounded to a tenth. */
  function RevertPlayerRoundData(p: Player): (r: Player)
    ensures |p.results| == 0 ==> r == p
    ensures |p.results| > 0 ==>
              r.results == p.results[..|p.results| - 1]
              && r.score == RoundTenth(p.score - p.results[|p.results| - 1])
              && r.opponentIds == (if |p.opponentIds| > 0 then p.opponentIds[..|p.opponentIds| - 1] else [])
              && r.colorHistory == (if |p.colorHistory| > 0 then p.colorHistory[..|p.colorHistory| - 1] else [])
              && (p.numBlackGames >= 0 ==> r.numBlackGames >= 0)
    ensures r.id == p.id && r.matchHistory == p.matchHistory && r.isActive == p.isActive
  {
    if |p.results| == 0 then p
    else
      var last := p.results[|p.results| - 1];
      var opp := if |p.opponentIds| > 0 then p.opponentIds[|p.opponentIds| - 1] else None;
      var color := if |p.colorHistory| > 0 then p.colorHistory[|p.colorHistory| - 1] else None;
      var opps := if |p.opponentIds| > 0 then p.opponentIds[..|p.opponentIds| - 1] else [];
      var q := p.(results := p.results[..|p.results| - 1],
                  score := RoundTenth(p.score - last),
                  runningScores := if |p.runningScores| > 0 then p.runningScores[..|p.runningScores| - 1] else [],
                  opponentIds := opps,
                  colorHistory := if |p.colorHistory| > 0 then p.colorHistory[..|p.colorHistory| - 1] else []);
      var q2 := if color == Some(Black) then
                  q.(numBlackGames := if p.numBlackGames - 1 < 0 then 0 else p.numBlackGames - 1)
                else q;
      if opp.None? then q2.(hasReceivedBye := None in opps) else q2
  }

  /** Reverting right after a round was added gives the player back, apart
      from the match entry, when the score is a whole number of tenths. */
  lemma RevertAfterAdd(p: Player, opponent: Option<Player>, result: real, color: Option<Color>, k: int)
    requires Consistent(p) && p.score == k as real / 10.0
    ensures RevertPlayerRoundData(AddRoundResult(p, opponent, result, color).0)
              == p.(matchHistory := AddRoundResult(p, opponent, result, color).0.matchHistory)
  {
    var q := AddRoundResult(p, opponent, result, color).0;
    assert q.results[..|q.results| - 1] == p.results;
    assert q.opponentIds[..|q.opponentIds| - 1] == p.opponentIds;
    assert q.colorHistory[..|q.colorHistory| - 1] == p.colorHistory;
    assert q.runningScores[..|q.runningScores| - 1] == p.runningScores;
    assert q.score - result == p.score;
    RoundTenthExact(k);
    if color == Some(Black) {
      assert p.numBlackGames >= 0;
    }
    if opponent.None? {
      assert p.hasReceivedBye == (None in p.opponentIds);
    }
  }

  /** Revert each known player named in the entries, white then black. */
  function RevertEntries(players: Roster, entries: seq<(string, string, real)>): (r: Roster)
    ensures r.Keys == players.Keys
    ensures forall id :: id in players && (forall k :: 0 <= k < |entries| ==> entries[k].0 != id && entries[k].1 != id)
              ==> r[id] == players[id]
  {
    if entries == [] then players
    else
      var (w, b, _) := entries[0];
      var p1 := if w in players then players[w := RevertPlayerRoundData(players[w])] else players;
      var p2 := if b in p1 then p1[b := RevertPlayerRoundData(p1[b])] else p1;
      RevertEntries(p2, entries[1..])
  }

  /** `undo_last_results`: revert the players of the last recorded round and
      its bye, forget those results and step the index back. */
  function UndoLastResults(c: Controller): (r: (bool, Option<string>, Controller))
    ensures r.0 <==> CanUndo(c)
    ensures !r.0 ==> r.2 == c && r.1.Some?
    ensures r.0 ==> r.1.None? && r.2.currentRoundIndex == c.currentRoundIndex - 1 && r.2.lastRecorded == []
                    && r.2.tournament.Some?
                    && r.2.tournament.value == c.tournament.value.(players := r.2.tournament.value.players)
                    && r.2.tournament.value.players.Keys == c.tournament.value.players.Keys
  {
    if !CanUndo(c) then (false, Some("No results from a completed round are available to undo."), c)
    else
      var t := c.tournament.value;
      var undone := c.currentRoundIndex - 1;
      var players := RevertEntries(t.players, c.lastRecorded);
      var bye := if undone < |t.roundsByesIds| then t.roundsByesIds[undone] else None;
      var players2 := if bye.Some? && bye.value != "" && bye.value in players
                      then players[bye.value := RevertPlayerRoundData(players[bye.value])] else players;
      (true, None, Controller(Some(t.(players := players2)), undone, []))
  }

  /** Undo takes back what the last recording set: the index and the stored
      results return to what they were before it. */
  lemma UndoAfterRecord(c: Controller, roundIndex: nat, data: seq<(string, string, real)>)
    requires c.tournament.Some? && roundIndex < |c.tournament.value.roundsPairingsIds| && data != []
    ensures var after := RecordResults(c, roundIndex, data, Success(true)).1;
            var u := UndoLastResults(after);
            u.0 && u.2.currentRoundIndex == roundIndex && u.2.lastRecorded == []
  {
  }

  /** `is_manual_pairing_system`. */
  predicate IsManualPairingSystem(c: Controller) {
    c.tournament.Some? && c.tournament.value.pairingSystem == Constants.Manual
  }
}
