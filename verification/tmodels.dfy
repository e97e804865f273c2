/** The tournament records of tournament/models.py together with the
    standalone models/tournament/pairing_history.py and
    models/tournament/tournament_config.py: the configuration, one game's
    result, one round, and the set of pairs already played, each with the
    dictionary form used for saving. */
module TournamentModels {
  import opened Wrappers
  import Constants

  // -------------------------------------------------------------- config

  /** TournamentConfig of models/tournament/tournament_config.py; the copy in
      tournament/models.py is the same record without `tournamentOver`. */
  datatype Config = Config(
    name: string, numRounds: int, pairingSystem: string,
    tiebreakOrder: seq<string>, tournamentOver: bool)

  /** The constructor with its defaults. */
  function NewConfig(name: string, numRounds: int): (c: Config)
    ensures c.name == name && c.numRounds == numRounds
    ensures c.pairingSystem == Constants.DutchSwiss
    ensures c.tiebreakOrder == Constants.DefaultTiebreakOrder && !c.tournamentOver
  {
    Config(name, numRounds, Constants.DutchSwiss, Constants.DefaultTiebreakOrder, false)
  }

  /** A saved configuration; None marks an absent key. */
  datatype ConfigDict = ConfigDict(
    name: Option<string>, numRounds: Option<int>, pairingSystem: Option<string>,
    tiebreakOrder: Option<seq<string>>, tournamentOver: Option<bool>)

  function ConfigToDict(c: Config): (d: ConfigDict)
    ensures d.name.Some? && d.numRounds.Some? && d.pairingSystem.Some?
    ensures d.tiebreakOrder.Some? && d.tournamentOver.Some?
  {
    ConfigDict(Some(c.name), Some(c.numRounds), Some(c.pairingSystem),
               Some(c.tiebreakOrder), Some(c.tournamentOver))
  }

  /** `from_dict`: the round count is required, every other key defaults. */
  function ConfigFromDict(d: ConfigDict): (r: Option<Config>)
    ensures r.Some? <==> d.numRounds.Some?
    ensures r.Some? ==> r.value.numRounds == d.numRounds.value
    ensures r.Some? && d.name.None? ==> r.value.name == "Untitled Tournament"
    ensures r.Some? && d.pairingSystem.None? ==> r.value.pairingSystem == Constants.DutchSwiss
    ensures r.Some? && d.tiebreakOrder.None? ==> r.value.tiebreakOrder == Constants.DefaultTiebreakOrder
    ensures r.Some? && d.tournamentOver.None? ==> !r.value.tournamentOver
    ensures r.Some? && d.name.Some? ==> r.value.name == d.name.value
    ensures r.Some? && d.tournamentOver.Some? ==> r.value.tournamentOver == d.tournamentOver.value
  {
    if d.numRounds.None? then None
    else Some(Config(
      d.name.GetOr("Untitled Tournament"), d.numRounds.value,
      d.pairingSystem.GetOr(Constants.DutchSwiss),
      d.tiebreakOrder.GetOr(Constants.DefaultTiebreakOrder),
      d.tournamentOver.GetOr(false)))
  }

  lemma ConfigRoundTrip(c: Config)
    ensures ConfigFromDict(ConfigToDict(c)) == Some(c)
  {
  }

  /** tournament/models.py `TournamentConfig.to_dict`: four keys. */
  function LegacyConfigToDict(c: Config): (d: ConfigDict)
    ensures d.tournamentOver.None? && d.numRounds == Some(c.numRounds)
  {
    ConfigToDict(c).(tournamentOver := None)
  }

  /** The four-field record round-trips; its over-flag reads back False. */
  lemma LegacyConfigRoundTrip(c: Config)
    ensures ConfigFromDict(LegacyConfigToDict(c)) == Some(c.(tournamentOver := false))
  {
  }

  // -------------------------------------------------------- match result

  datatype MatchResult = MatchResult(whiteId: string, blackId: string, whiteScore: real)
  {
    /** `black_score`: the rest of the one point. */
    function BlackScore(): (b: real)
      ensures b + whiteScore == Constants.WinScore
    {
      1.0 - whiteScore
    }
  }

  datatype MatchResultDict = MatchResultDict(whiteId: Option<string>, blackId: Option<string>, whiteScore: Option<real>)

  function MatchResultToDict(m: MatchResult): (d: MatchResultDict)
    ensures d.whiteId.Some? && d.blackId.Some? && d.whiteScore.Some?
  {
    MatchResultDict(Some(m.whiteId), Some(m.blackId), Some(m.whiteScore))
  }

  /** `MatchResult.from_dict`: all three keys are required. */
  function MatchResultFromDict(d: MatchResultDict): (r: Option<MatchResult>)
    ensures r.Some? <==> d.whiteId.Some? && d.blackId.Some? && d.whiteScore.Some?
    ensures r.Some? ==> r.value.whiteId == d.whiteId.value && r.value.blackId == d.blackId.value
                        && r.value.whiteScore == d.whiteScore.value
  {
    if d.whiteId.Some? && d.blackId.Some? && d.whiteScore.Some? then
      Some(MatchResult(d.whiteId.value, d.blackId.value, d.whiteScore.value))
    else None
  }

  lemma MatchResultRoundTrip(m: MatchResult)
    ensures MatchResultFromDict(MatchResultToDict(m)) == Some(m)
  {
  }

  // --------------------------------------------------------------- round

  datatype RoundData = RoundData(
    roundNumber: int, pairings: seq<(string, string)>, byePlayerId: Option<string>,
    results: seq<MatchResult>, isCompleted: bool)

  /** A round as first created: no results, not completed. */
  function NewRound(n: int): (r: RoundData)
    ensures r.roundNumber == n && |r.pairings| == 0 && r.byePlayerId.None?
    ensures |r.results| == 0 && !r.isCompleted
  {
    RoundData(n, [], None, [], false)
  }

  datatype RoundDict = RoundDict(
    roundNumber: Option<int>, pairings: Option<seq<(string, string)>>,
    byePlayerId: Option<Option<string>>, results: Option<seq<MatchResultDict>>,
    isCompleted: Option<bool>)

  function RoundToDict(r: RoundData): (d: RoundDict)
    ensures d.roundNumber == Some(r.roundNumber) && d.pairings == Some(r.pairings)
    ensures d.results.Some? && |d.results.value| == |r.results|
  {
    RoundDict(Some(r.roundNumber), Some(r.pairings), Some(r.byePlayerId),
              Some(seq(|r.results|, i requires 0 <= i < |r.results| => MatchResultToDict(r.results[i]))),
              Some(r.isCompleted))
  }

  /** Every saved result read back, or None if one lacks a key. */
  function ResultsFromDicts(ds: seq<MatchResultDict>): (r: Option<seq<MatchResult>>)
    ensures r.Some? <==> forall i :: 0 <= i < |ds| ==> MatchResultFromDict(ds[i]).Some?
    ensures r.Some? ==> |r.value| == |ds|
    ensures r.Some? ==> forall i :: 0 <= i < |ds| ==> Some(r.value[i]) == MatchResultFromDict(ds[i])
  {
    if |ds| == 0 then Some([])
    else
      match MatchResultFromDict(ds[0])
      case None => None
      case Some(m) =>
        match ResultsFromDicts(ds[1..])
        case None => None
        case Some(rest) => Some([m] + rest)
  }

  /** `RoundData.from_dict`: the round number is required; pairings, bye,
      results and the completed flag default to [], None, [] and False. */
  function RoundFromDict(d: RoundDict): (r: Option<RoundData>)
    ensures d.roundNumber.None? ==> r.None?
    ensures r.Some? ==> r.value.roundNumber == d.roundNumber.value
    ensures r.Some? && d.pairings.None? ==> r.value.pairings == []
    ensures r.Some? && d.byePlayerId.None? ==> r.value.byePlayerId.None?
    ensures r.Some? && d.results.None? ==> r.value.results == []
    ensures r.Some? && d.isCompleted.None? ==> !r.value.isCompleted
    ensures d.roundNumber.Some? && d.results.None? ==> r.Some?
  {
    if d.roundNumber.None? then None
    else
      match ResultsFromDicts(d.results.GetOr([]))
      case None => None
      case Some(results) =>
        Some(RoundData(d.roundNumber.value, d.pairings.GetOr([]), d.byePlayerId.GetOr(None),
                       results, d.isCompleted.GetOr(false)))
  }

  lemma RoundRoundTrip(r: RoundData)
    ensures RoundFromDict(RoundToDict(r)) == Some(r)
  {
    var ds := RoundToDict(r).results.value;
    var back := ResultsFromDicts(ds);
    assert back.Some?;
    assert back.value == r.results;
  }

  // ---------------------------------------------------- pairing history

  /** Python `frozenset({a, b})`: a single element when a == b. */
  function PairOf(a: string, b: string): (s: set<string>)
    ensures a in s && b in s && forall x :: x in s ==> x == a || x == b
  {
    {a, b}
  }

  datatype PairingHistory = PairingHistory(
    previousMatches: set<set<string>>, manualAdjustments: map<int, map<string, string>>)

  function EmptyHistory(): (h: PairingHistory)
    ensures forall a, b :: !HavePlayed(h, a, b)
  {
    PairingHistory({}, map[])
  }

  /** `add_pairing`. */
  function AddPairing(h: PairingHistory, a: string, b: string): (r: PairingHistory)
    ensures r.previousMatches == h.previousMatches + {PairOf(a, b)}
    ensures r.manualAdjustments == h.manualAdjustments
  {
    h.(previousMatches := h.previousMatches + {PairOf(a, b)})
  }

  /** `have_played`. */
  predicate HavePlayed(h: PairingHistory, a: string, b: string) {
    PairOf(a, b) in h.previousMatches
  }

  /** After adding a pair it has been played in both orders, and every pair
      played before still has. */
  lemma AddThenPlayed(h: PairingHistory, a: string, b: string, x: string, y: string)
    ensures HavePlayed(AddPairing(h, a, b), a, b) && HavePlayed(AddPairing(h, a, b), b, a)
    ensures HavePlayed(h, x, y) ==> HavePlayed(AddPairing(h, a, b), x, y)
  {
    assert PairOf(a, b) == PairOf(b, a);
  }

  /** Adding a pair twice is adding it once, in either order. */
  lemma AddPairingIdempotent(h: PairingHistory, a: string, b: string)
    ensures AddPairing(AddPairing(h, a, b), a, b) == AddPairing(h, a, b)
    ensures AddPairing(AddPairing(h, a, b), b, a) == AddPairing(h, a, b)
  {
    assert PairOf(a, b) == PairOf(b, a);
  }

  /** `have_played` does not depend on the order of the two ids. */
  lemma HavePlayedSymmetric(h: PairingHistory, a: string, b: string)
    ensures HavePlayed(h, a, b) <==> HavePlayed(h, b, a)
  {
    assert PairOf(a, b) == PairOf(b, a);
  }

  /** The saved form: each pair as a list of its ids, in any order. */
  datatype HistoryDict = HistoryDict(
    previousMatches: Option<seq<seq<string>>>, manualAdjustments: Option<map<int, map<string, string>>>)

  function Elements(l: seq<string>): (s: set<string>)
    ensures forall x :: x in s <==> x in l
  {
    set x | x in l
  }

  /** `lists` is a listing of `pairs`: one list per pair, each listing the
      ids of its pair. */
  ghost predicate ListsPairs(lists: seq<seq<string>>, pairs: set<set<string>>) {
    (forall i :: 0 <= i < |lists| ==> Elements(lists[i]) in pairs)
    && (forall p :: p in pairs ==> Listed(lists, p))
  }

  ghost predicate Listed(lists: seq<seq<string>>, p: set<string>) {
    exists i :: 0 <= i < |lists| && Elements(lists[i]) == p
  }

  lemma ListedAppend(lists: seq<seq<string>>, l: seq<string>, p: set<string>)
    requires Listed(lists, p) || Elements(l) == p
    ensures Listed(lists + [l], p)
  {
    if Elements(l) == p {
      assert (lists + [l])[|lists|] == l;
    } else {
      var i :| 0 <= i < |lists| && Elements(lists[i]) == p;
      assert (lists + [l])[i] == lists[i];
    }
  }

  /** The ids of a pair as a list. */
  method SetToList(s: set<string>) returns (l: seq<string>)
    ensures Elements(l) == s && |l| == |s|
  {
    l := [];
    var rest := s;
    while rest != {}
      invariant rest <= s && Elements(l) == s - rest && |l| + |rest| == |s|
      invariant forall i, j :: 0 <= i < j < |l| ==> l[i] != l[j]
      invariant forall x :: x in l ==> x !in rest
      decreases |rest|
    {
      var x :| x in rest;
      l := l + [x];
      rest := rest - {x};
    }
  }

  /** `PairingHistory.to_dict`: each pair listed once, in set order. */
  method HistoryToDict(h: PairingHistory) returns (d: HistoryDict)
    ensures d.previousMatches.Some? && ListsPairs(d.previousMatches.value, h.previousMatches)
    ensures d.manualAdjustments == Some(h.manualAdjustments)
  {
    var lists: seq<seq<string>> := [];
    var rest := h.previousMatches;
    while rest != {}
      invariant rest <= h.previousMatches
      invariant forall i :: 0 <= i < |lists| ==> Elements(lists[i]) in h.previousMatches
      invariant forall p :: p in h.previousMatches - rest ==> Listed(lists, p)
      decreases |rest|
    {
      var p :| p in rest;
      var l := SetToList(p);
      forall q | q in h.previousMatches - (rest - {p})
        ensures Listed(lists + [l], q)
      {
        ListedAppend(lists, l, q);
      }
      lists := lists + [l];
      rest := rest - {p};
    }
    d := HistoryDict(Some(lists), Some(h.manualAdjustments));
  }

  /** `PairingHistory.from_dict`: each list back to a set; missing keys give
      an empty history. */
  function HistoryFromDict(d: HistoryDict): (h: PairingHistory)
    ensures d.previousMatches.None? ==> h.previousMatches == {}
    ensures d.manualAdjustments.None? ==> h.manualAdjustments == map[]
    ensures d.previousMatches.Some? ==>
      forall p :: p in h.previousMatches <==> Listed(d.previousMatches.value, p)
  {
    var lists := d.previousMatches.GetOr([]);
    PairingHistory(set i | 0 <= i < |lists| :: Elements(lists[i]), d.manualAdjustments.GetOr(map[]))
  }

  /** Reading back any listing of a history gives the history. */
  lemma HistoryRoundTrip(h: PairingHistory, d: HistoryDict)
    requires d.previousMatches.Some? && ListsPairs(d.previousMatches.value, h.previousMatches)
    requires d.manualAdjustments == Some(h.manualAdjustments)
    ensures HistoryFromDict(d) == h
  {
    var back := HistoryFromDict(d);
    assert back.previousMatches == h.previousMatches;
  }
}
