/** models/tournament/tournament.py: the tournament that holds the
    configuration, the players by id and the round manager (whose history of
    pairs is the tournament's own), with player management, result
    recording, the standings comparison and the choice of the bye. */
module Tournaments {
  import opened Wrappers
  import opened Players
  import opened TournamentModels
  import opened RoundManagement
  import ResultRecording
  import Tiebreaks
  import Constants

  datatype Tournament = Tournament(config: Config, players: map<string, Player>, manager: RoundManager)

  /** Players keyed by their own id, as the tournament's dictionary is built. */
  predicate WellKeyed(players: map<string, Player>) {
    forall k :: k in players ==> players[k].id == k
  }

  /** `{p.id: p for p in players}`: a later player with the same id wins. */
  function ByIds(ps: seq<Player>): (m: map<string, Player>)
    ensures WellKeyed(m)
    ensures forall p :: p in ps ==> p.id in m
    ensures forall k :: k in m ==> m[k] in ps
    ensures |ps| > 0 ==> m[ps[|ps| - 1].id] == ps[|ps| - 1]
  {
    if |ps| == 0 then map[]
    else
      var m := ByIds(ps[..|ps| - 1]);
      assert forall p :: p in ps <==> p in ps[..|ps| - 1] || p == ps[|ps| - 1];
      m[ps[|ps| - 1].id := ps[|ps| - 1]]
  }

  /** The constructor as evidently intended: an omitted tiebreak order takes
      the default one (the source stores None, see `CompareAsWritten`). */
  function NewTournament(name: string, ps: seq<Player>, numRounds: int,
                         tiebreakOrder: Option<seq<string>>, pairingSystem: string): (t: Tournament)
    ensures t.config == Config(name, numRounds, pairingSystem,
                               tiebreakOrder.GetOr(Constants.DefaultTiebreakOrder), false)
    ensures t.manager.numRounds == numRounds && t.manager.pairingSystem == pairingSystem
    ensures |t.manager.rounds| == 0 && t.manager.history == EmptyHistory()
    ensures WellKeyed(t.players)
    ensures forall p :: p in ps ==> p.id in t.players
    ensures forall k :: k in t.players ==> t.players[k] in ps
  {
    Tournament(Config(name, numRounds, pairingSystem, tiebreakOrder.GetOr(Constants.DefaultTiebreakOrder), false),
               ByIds(ps), NewManager(pairingSystem, numRounds, EmptyHistory()))
  }

  /** The `num_rounds` setter writes both the configuration and the round
      manager, so the two never disagree afterwards. */
  function SetNumRounds(t: Tournament, n: int): (r: Tournament)
    ensures r.config.numRounds == n && r.manager.numRounds == n
    ensures r.players == t.players && r.manager.rounds == t.manager.rounds
    ensures r.config == t.config.(numRounds := n)
  {
    t.(config := t.config.(numRounds := n), manager := t.manager.(numRounds := n))
  }

  /** The `tournament_over` getter as written: it is declared with the
      tiebreak order's setter decorator, so the property's getter is the
      tiebreak order's. */
  function TournamentOverAsWritten(t: Tournament): (r: seq<string>)
  {
    t.config.tiebreakOrder
  }

  /** The `tournament_over` getter as evidently intended. */
  function TournamentOver(t: Tournament): (r: bool)
  {
    t.config.tournamentOver
  }

  /** The setter (the decorated function itself) writes the flag, which the
      intended getter then reads back. */
  function SetTournamentOver(t: Tournament, over: bool): (r: Tournament)
    ensures TournamentOver(r) == over
    ensures r.players == t.players && r.manager == t.manager
    ensures r.config.tiebreakOrder == t.config.tiebreakOrder
  {
    t.(config := t.config.(tournamentOver := over))
  }

  /** A new tournament is not over, yet the getter as written hands back the
      (non-empty, so truthy) default tiebreak order. */
  lemma OverGetterReturnsOrder(name: string, numRounds: int)
    ensures var t := NewTournament(name, [], numRounds, None, Constants.DutchSwiss);
            !TournamentOver(t) && |TournamentOverAsWritten(t)| == 6
  {
  }

  // --------------------------------------------------- player management

  /** `get_player_list`: the ids of all players, or of the active ones. */
  function PlayerIds(t: Tournament, activeOnly: bool): (r: set<string>)
    ensures r <= t.players.Keys
    ensures forall k :: k in t.players ==> (k in r <==> !activeOnly || t.players[k].isActive)
  {
    set k | k in t.players && (!activeOnly || t.players[k].isActive)
  }

  function AddPlayer(t: Tournament, p: Player): (r: Tournament)
    ensures r.players.Keys == t.players.Keys + {p.id}
    ensures r.players[p.id] == p
    ensures forall k :: k in t.players && k != p.id ==> r.players[k] == t.players[k]
    ensures WellKeyed(t.players) ==> WellKeyed(r.players)
  {
    t.(players := t.players[p.id := p])
  }

  /** `remove_player`: True iff the id was present; only that entry goes. */
  function RemovePlayer(t: Tournament, id: string): (r: (bool, Tournament))
    ensures r.0 <==> id in t.players
    ensures r.1.players.Keys == t.players.Keys - {id}
    ensures forall k :: k in r.1.players ==> r.1.players[k] == t.players[k]
    ensures r.1.config == t.config && r.1.manager == t.manager
  {
    if id in t.players then (true, t.(players := t.players - {id})) else (false, t)
  }

  /** `set_player_active`: False for an unknown id; otherwise only that
      player's flag changes. */
  function SetPlayerActive(t: Tournament, id: string, active: bool): (r: (bool, Tournament))
    ensures r.0 <==> id in t.players
    ensures !r.0 ==> r.1 == t
    ensures r.0 ==> r.1.players == t.players[id := t.players[id].(isActive := active)]
    ensures r.1.config == t.config && r.1.manager == t.manager
  {
    if id in t.players then (true, t.(players := t.players[id := t.players[id].(isActive := active)]))
    else (false, t)
  }

  lemma AddThenRemove(t: Tournament, p: Player)
    requires p.id !in t.players
    ensures RemovePlayer(AddPlayer(t, p), p.id) == (true, t)
  {
    assert AddPlayer(t, p).players - {p.id} == t.players;
  }

  // ------------------------------------------------------------- results

  /** `record_results`: False for a round that does not exist; otherwise the
      result recorder's verdict, and on success the round is marked
      completed. The round's results are kept either way, as the recorder
      fills the round record in place. */
  function RecordResults(t: Tournament, roundIndex: int, entries: seq<(string, string, real)>)
    : (r: (bool, Tournament))
    ensures GetRound(t.manager, roundIndex + 1).None? ==> r == (false, t)
    ensures r.0 ==> 1 <= roundIndex + 1 <= |r.1.manager.rounds| && r.1.manager.rounds[roundIndex].isCompleted
    ensures r.0 ==> r.1.manager.rounds[roundIndex].results
                    == t.manager.rounds[roundIndex].results + ResultRecording.ToResults(entries)
    ensures r.1.players.Keys == t.players.Keys && r.1.config == t.config
    ensures |r.1.manager.rounds| == |t.manager.rounds|
    ensures ResultRecording.AllConsistent(t.players) ==> ResultRecording.AllConsistent(r.1.players)
  {
    var n := roundIndex + 1;
    match GetRound(t.manager, n)
    case None => (false, t)
    case Some(round) =>
      var (ok, round2, players2) := ResultRecording.RecordRoundResults(round, entries, t.players);
      var m := t.manager.(rounds := t.manager.rounds[n - 1 := round2]);
      if ok then (true, t.(players := players2, manager := MarkRoundCompleted(m, n).1))
      else (false, t.(players := players2, manager := m))
  }

  // ------------------------------------------------------------ standings

  /** Python's `<` on strings: code-point lexicographic order. */
  predicate LexLess(a: string, b: string)
    decreases |a|
  {
    if |a| == 0 then |b| > 0
    else if |b| == 0 then false
    else if a[0] != b[0] then a[0] < b[0]
    else LexLess(a[1..], b[1..])
  }

  /** Two different strings are ordered one way exactly. */
  lemma {:induction false} LexTotal(a: string, b: string)
    ensures a != b ==> (LexLess(a, b) <==> !LexLess(b, a))
    ensures !LexLess(a, a)
    decreases |a|
  {
    if |a| > 0 && |b| > 0 && a[0] == b[0] {
      LexTotal(a[1..], b[1..]);
      assert a == [a[0]] + a[1..] && b == [b[0]] + b[1..];
    } else if |a| > 0 && |b| > 0 {
      LexTotal(a[1..], a[1..]);
    } else if |a| > 0 {
      LexTotal(a[1..], a[1..]);
    }
  }

  function Get(m: map<string, real>, k: string): real {
    if k in m then m[k] else 0.0
  }

  /** The loop over the tiebreak order: the first tiebreak that differs
      decides. */
  function CompareTiebreaks(a: map<string, real>, b: map<string, real>, order: seq<string>): (r: int)
    ensures r in {-1, 0, 1}
    ensures r == 0 <==> forall i :: 0 <= i < |order| ==> Get(a, order[i]) == Get(b, order[i])
  {
    if |order| == 0 then 0
    else if Get(a, order[0]) != Get(b, order[0]) then (if Get(a, order[0]) > Get(b, order[0]) then 1 else -1)
    else
      assert forall i :: 1 <= i < |order| ==> order[i] == order[1..][i - 1];
      CompareTiebreaks(a, b, order[1..])
  }

  lemma {:induction false} CompareTiebreaksAntisymmetric(a: map<string, real>, b: map<string, real>, order: seq<string>)
    ensures CompareTiebreaks(b, a, order) == -CompareTiebreaks(a, b, order)
    decreases |order|
  {
    if |order| > 0 {
      CompareTiebreaksAntisymmetric(a, b, order[1..]);
    }
  }

  /** `_compare_players`: score, then head-to-head, then the tiebreaks in
      order, then rating, then name (the alphabetically later name ranks
      higher). 1 means `p1` ranks higher. */
  function ComparePlayers(p1: Player, p2: Player, order: seq<string>): (r: int)
    ensures r in {-1, 0, 1}
    ensures p1.score > p2.score ==> r == 1
    ensures p1.score < p2.score ==> r == -1
  {
    if p1.score != p2.score then (if p1.score > p2.score then 1 else -1)
    else
      var (w1, w2) := Tiebreaks.HeadToHead(p1, p2, |p1.opponentIds|);
      if w1 && !w2 then 1
      else if w2 && !w1 then -1
      else
        var tb := CompareTiebreaks(p1.tiebreakers, p2.tiebreakers, order);
        if tb != 0 then tb
        else if p1.rating != p2.rating then (if p1.rating > p2.rating then 1 else -1)
        else if p1.name != p2.name then (if LexLess(p1.name, p2.name) then -1 else 1)
        else 0
  }

  /** A player who never played themself compares equal with themself, and
      two players who never met compare in opposite ways. */
  lemma CompareAntisymmetric(p1: Player, p2: Player, order: seq<string>)
    requires Some(p2.id) !in p1.opponentIds && Some(p1.id) !in p2.opponentIds
    ensures ComparePlayers(p1, p2, order) == -ComparePlayers(p2, p1, order)
    ensures p1 == p2 ==> ComparePlayers(p1, p2, order) == 0
  {
    Tiebreaks.HeadToHeadNeverMet(p1, p2);
    Tiebreaks.HeadToHeadNeverMet(p2, p1);
    CompareTiebreaksAntisymmetric(p1.tiebreakers, p2.tiebreakers, order);
    LexTotal(p1.name, p2.name);
  }

  /** `_compare_players` as written, on a configuration whose tiebreak order
      may be None (the constructor stores None when no order is given):
      iterating over None raises, modelled as a None result. */
  function CompareAsWritten(p1: Player, p2: Player, order: Option<seq<string>>): (r: Option<int>)
    ensures order.Some? ==> r == Some(ComparePlayers(p1, p2, order.value))
  {
    if p1.score != p2.score then Some(if p1.score > p2.score then 1 else -1)
    else
      var (w1, w2) := Tiebreaks.HeadToHead(p1, p2, |p1.opponentIds|);
      if w1 && !w2 then Some(1)
      else if w2 && !w1 then Some(-1)
      else if order.None? then None
      else Some(ComparePlayers(p1, p2, order.value))
  }

  /** Two players level on points who never met make the standings of a
      tournament built without a tiebreak order raise; with the default
      order they are compared. */
  lemma CompareWithoutOrderRaises(p1: Player, p2: Player)
    requires p1.score == p2.score
    requires Some(p2.id) !in p1.opponentIds
    ensures CompareAsWritten(p1, p2, None).None?
    ensures CompareAsWritten(p1, p2, Some(Constants.DefaultTiebreakOrder)).Some?
  {
    Tiebreaks.HeadToHeadNeverMet(p1, p2);
  }

  // ----------------------------------------------------------------- bye

  /** The bye sort key (score, rating, name), compared lexicographically. */
  predicate KeyLess(a: Player, b: Player) {
    a.score < b.score
    || (a.score == b.score && a.rating < b.rating)
    || (a.score == b.score && a.rating == b.rating && LexLess(a.name, b.name))
  }

  predicate SameKey(a: Player, b: Player) {
    a.score == b.score && a.rating == b.rating && a.name == b.name
  }

  /** The index of the first player with the least key, as a stable sort
      puts first. */
  function FirstLeast(ps: seq<Player>): (i: nat)
    requires |ps| > 0
    ensures i < |ps|
    ensures forall j :: 0 <= j < |ps| ==> !KeyLess(ps[j], ps[i])
    ensures forall j :: 0 <= j < i ==> !SameKey(ps[j], ps[i])
  {
    if |ps| == 1 then KeyOrder(ps[0], ps[0]); 0
    else
      var k := FirstLeast(ps[..|ps| - 1]);
      assert forall j :: 0 <= j < |ps| - 1 ==> ps[..|ps| - 1][j] == ps[j];
      var last := ps[|ps| - 1];
      KeyOrder(ps[k], last);
      if KeyLess(last, ps[k]) then
        assert forall j :: 0 <= j < |ps| ==> !KeyLess(ps[j], last) by {
          forall j | 0 <= j < |ps| ensures !KeyLess(ps[j], last) {
            KeyTransitive(ps[j], last, ps[k]);
            KeyOrder(last, last);
          }
        }
        |ps| - 1
      else k
  }

  lemma KeyOrder(a: Player, b: Player)
    ensures !KeyLess(a, a)
    ensures !KeyLess(b, a) && !SameKey(a, b) ==> KeyLess(a, b)
    ensures KeyLess(a, b) ==> !KeyLess(b, a)
  {
    LexTotal(a.name, b.name);
    LexTotal(a.name, a.name);
  }

  lemma KeyTransitive(a: Player, b: Player, c: Player)
    ensures KeyLess(a, b) && KeyLess(b, c) ==> KeyLess(a, c)
  {
    LexTransitive(a.name, b.name, c.name);
  }

  lemma {:induction false} LexTransitive(a: string, b: string, c: string)
    ensures LexLess(a, b) && LexLess(b, c) ==> LexLess(a, c)
    decreases |a|
  {
    if |a| > 0 && |b| > 0 && |c| > 0 {
      LexTransitive(a[1..], b[1..], c[1..]);
    }
  }

  /** `_get_eligible_bye_player`: None without an active candidate;
      otherwise the least (score, rating, name) among the active players who
      have not had a bye, or among all active players once everyone has. */
  function EligibleByePlayer(candidates: seq<Player>): (r: Option<Player>)
    ensures r.None? <==> forall i :: 0 <= i < |candidates| ==> !candidates[i].isActive
    ensures r.Some? ==> r.value in candidates && r.value.isActive
    ensures r.Some? && (exists i :: 0 <= i < |candidates| && candidates[i].isActive && !candidates[i].hasReceivedBye)
            ==> !r.value.hasReceivedBye
    ensures r.Some? ==> forall i :: 0 <= i < |candidates| && candidates[i].isActive
                          && (r.value.hasReceivedBye || !candidates[i].hasReceivedBye)
                          ==> !KeyLess(candidates[i], r.value)
  {
    var active := Filter(candidates, false);
    if |active| == 0 then None
    else
      var noBye := Filter(candidates, true);
      if |noBye| > 0 then Some(noBye[FirstLeast(noBye)])
      else Some(active[FirstLeast(active)])
  }

  /** The active candidates, or only those without a bye, in order. */
  function Filter(ps: seq<Player>, withoutBye: bool): (r: seq<Player>)
    ensures forall p :: p in r <==> p in ps && p.isActive && (!withoutBye || !p.hasReceivedBye)
  {
    if |ps| == 0 then []
    else
      var rest := Filter(ps[..|ps| - 1], withoutBye);
      var p := ps[|ps| - 1];
      assert forall q :: q in ps <==> q in ps[..|ps| - 1] || q == p;
      if p.isActive && (!withoutBye || !p.hasReceivedBye) then rest + [p] else rest
  }
}
