/** validation/fpc.py, `FPCValidator.validate_tournament_compliance`: the
    tournament-wide check, which replays saved round snapshots in round
    order, validates each round against the pairings made before it and
    then records the round's results on copies of the players. Players are
    given as Player values (the dictionary form of a player is left out). */
module FpcReplay {
  import opened Wrappers
  import opened Colors
  import opened Players
  import opened Seqs
  import opened Constants
  import opened Fpc

  /** One entry of a round's "results": white id, black id, white's score
      (None when the game has no result yet). */
  datatype GameResult = GameResult(whiteId: string, blackId: string, whiteScore: Option<real>)

  /** A saved round. `byePlayerId` and `byePlayer` are the two keys the bye
      may be stored under. */
  datatype RoundSnapshot = RoundSnapshot(
    roundNumber: int, pairings: seq<(string, string)>,
    byePlayerId: Option<string>, byePlayer: Option<string>,
    halfPointByes: seq<string>, zeroPointByes: seq<string>, results: seq<GameResult>)

  /** The tournament dictionary: its players, its rounds and the configured
      number of rounds, if any. */
  datatype TournamentData = TournamentData(players: seq<Player>, rounds: seq<RoundSnapshot>, numRounds: Option<int>)

  // ------------------------------------------------------ the player map

  // The validator's `player_map` is an insertion-ordered dictionary from
  // id to player; it is modelled as a sequence with distinct ids, where
  // storing under a known id replaces the entry in place.

  predicate UniqueIds(t: seq<Player>) {
    forall i, j :: 0 <= i < j < |t| ==> t[i].id != t[j].id
  }

  lemma IdsCons(t: seq<Player>)
    requires |t| > 0
    ensures Ids(t) == {t[0].id} + Ids(t[1..])
  {
    forall id | id in Ids(t)
      ensures id in {t[0].id} + Ids(t[1..])
    {
      var i :| 0 <= i < |t| && t[i].id == id;
      if i > 0 {
        assert t[1..][i - 1].id == id;
      }
    }
    forall id | id in Ids(t[1..])
      ensures id in Ids(t)
    {
      var i :| 0 <= i < |t[1..]| && t[1..][i].id == id;
      assert t[i + 1].id == id;
    }
  }

  /** `player_map.get(id)`. */
  function Find(t: seq<Player>, id: string): (r: Option<Player>)
    ensures r.Some? <==> id in Ids(t)
    ensures r.Some? ==> r.value.id == id && r.value in t
  {
    if |t| == 0 then None
    else
      IdsCons(t);
      if t[0].id == id then Some(t[0]) else Find(t[1..], id)
  }

  /** `player_map[p.id] = p`. */
  function Put(t: seq<Player>, p: Player): (r: seq<Player>)
    ensures Ids(r) == Ids(t) + {p.id}
    ensures |r| == if p.id in Ids(t) then |t| else |t| + 1
    ensures UniqueIds(t) ==> UniqueIds(r)
  {
    if |t| == 0 then
      assert [p][0].id == p.id;
      [p]
    else if t[0].id == p.id then
      ReplaceHead(t, p);
      [p] + t[1..]
    else
      var rest := Put(t[1..], p);
      KeepHead(t, p, rest);
      [t[0]] + rest
  }

  /** `r` is `t` with `p` stored under its id. */
  predicate Stored(t: seq<Player>, p: Player, r: seq<Player>) {
    && Ids(r) == Ids(t) + {p.id}
    && |r| == (if p.id in Ids(t) then |t| else |t| + 1)
    && (UniqueIds(t) ==> UniqueIds(r))
  }

  lemma UniqueTail(t: seq<Player>)
    requires |t| > 0 && UniqueIds(t)
    ensures UniqueIds(t[1..])
  {
    forall i, j | 0 <= i < j < |t[1..]|
      ensures t[1..][i].id != t[1..][j].id
    {
      assert t[1..][i] == t[i + 1] && t[1..][j] == t[j + 1];
    }
  }

  lemma ReplaceHead(t: seq<Player>, p: Player)
    requires |t| > 0 && t[0].id == p.id
    ensures Stored(t, p, [p] + t[1..])
  {
    var r := [p] + t[1..];
    IdsCons(t);
    IdsCons(r);
    assert r[1..] == t[1..];
    if UniqueIds(t) {
      UniqueTail(t);
      UniqueCons(p, t[1..]);
    }
  }

  lemma KeepHead(t: seq<Player>, p: Player, rest: seq<Player>)
    requires |t| > 0 && t[0].id != p.id && Stored(t[1..], p, rest)
    ensures Stored(t, p, [t[0]] + rest)
  {
    var r := [t[0]] + rest;
    IdsCons(t);
    IdsCons(r);
    assert r[1..] == rest;
    if UniqueIds(t) {
      UniqueTail(t);
      UniqueCons(t[0], rest);
    }
  }

  /** A first entry whose id the rest lacks keeps the ids distinct. */
  lemma UniqueCons(x: Player, rest: seq<Player>)
    requires UniqueIds(rest) && x.id !in Ids(rest)
    ensures UniqueIds([x] + rest)
  {
    var r := [x] + rest;
    forall i, j | 0 <= i < j < |r|
      ensures r[i].id != r[j].id
    {
      assert r[j] == rest[j - 1];
      if i > 0 {
        assert r[i] == rest[i - 1];
      }
    }
  }

  /** Storing a player makes it the entry for its id and leaves the other
      entries as they were. */
  lemma {:induction false} FindPut(t: seq<Player>, p: Player, id: string)
    requires UniqueIds(t)
    ensures Find(Put(t, p), id) == if id == p.id then Some(p) else Find(t, id)
  {
    if |t| > 0 {
      var r := Put(t, p);
      if t[0].id == p.id {
        assert r == [p] + t[1..];
        assert r[1..] == t[1..];
        if id != p.id {
          assert Find(r, id) == Find(r[1..], id);
        }
      } else {
        assert r == [t[0]] + Put(t[1..], p);
        assert r[1..] == Put(t[1..], p);
        assert UniqueIds(t[1..]);
        FindPut(t[1..], p, id);
      }
    }
  }

  /** `Player.from_dict(player.to_dict())`: the copy the validator works on. */
  function Copy(p: Player): (q: Player)
    ensures q.id == p.id && q.name == p.name
  {
    FromDict(ToDict(p), p.id).value
  }

  /** The player map built from the tournament's players: a later player
      with an id already seen replaces the earlier one in its place. */
  function BuildTable(players: seq<Player>): (t: seq<Player>)
    ensures UniqueIds(t) && Ids(t) == Ids(players)
    ensures |t| <= |players|
  {
    if players == [] then []
    else
      var init := players[..|players| - 1];
      var t := Put(BuildTable(init), Copy(players[|players| - 1]));
      assert Ids(players) == Ids(init) + {players[|players| - 1].id} by {
        forall id | id in Ids(players)
          ensures id in Ids(init) + {players[|players| - 1].id}
        {
          var i :| 0 <= i < |players| && players[i].id == id;
          if i < |players| - 1 {
            assert init[i].id == id;
          }
        }
      }
      t
  }

  // ------------------------------------------------------ recording games

  /** `self.add_round_result(opponent, result, color)` on the map's
      entries. When a player is paired with itself both updates land on
      the same object: its own entry and then the mirrored one. */
  function Record(t: seq<Player>, selfId: string, oppId: string, result: real, color: Color)
    : (r: seq<Player>)
    requires UniqueIds(t) && selfId in Ids(t) && oppId in Ids(t)
    ensures UniqueIds(r) && Ids(r) == Ids(t) && |r| == |t|
  {
    var me := Find(t, selfId).value;
    var opp := Find(t, oppId).value;
    var (me2, opp2) := AddRoundResult(me, Some(opp), result, Some(color));
    if selfId == oppId then
      Put(t, me2.(matchHistory := me2.matchHistory + [MatchInfo(Some(me.id), me.score, me.score)]))
    else
      Put(Put(t, opp2.value), me2)
  }

  /** One entry of the round's results: skipped without a score or when
      either player is unknown; otherwise white then black record it. */
  function ApplyGame(t: seq<Player>, g: GameResult): (r: seq<Player>)
    requires UniqueIds(t)
    ensures UniqueIds(r) && Ids(r) == Ids(t) && |r| == |t|
  {
    if g.whiteScore.None? || g.whiteId !in Ids(t) || g.blackId !in Ids(t) then t
    else
      var s := g.whiteScore.value;
      var t1 := Record(t, g.whiteId, g.blackId, s, White);
      Record(t1, g.blackId, g.whiteId, 1.0 - s, Black)
  }

  function ApplyResults(t: seq<Player>, games: seq<GameResult>): (r: seq<Player>)
    requires UniqueIds(t)
    ensures UniqueIds(r) && Ids(r) == Ids(t) && |r| == |t|
    decreases |games|
  {
    if games == [] then t else ApplyResults(ApplyGame(t, games[0]), games[1..])
  }

  /** A bye worth `score` for a known player who has fewer results than
      the round number. */
  function ApplyBye(t: seq<Player>, id: string, roundNumber: int, score: real): (r: seq<Player>)
    requires UniqueIds(t)
    ensures UniqueIds(r) && Ids(r) == Ids(t) && |r| == |t|
  {
    match Find(t, id)
    case None => t
    case Some(p) =>
      if roundNumber > |p.results| then Put(t, AddRoundResult(p, None, score, None).0) else t
  }

  function ApplyByes(t: seq<Player>, ids: seq<string>, roundNumber: int, score: real): (r: seq<Player>)
    requires UniqueIds(t)
    ensures UniqueIds(r) && Ids(r) == Ids(t) && |r| == |t|
    decreases |ids|
  {
    if ids == [] then t else ApplyByes(ApplyBye(t, ids[0], roundNumber, score), ids[1..], roundNumber, score)
  }

  // ------------------------------------------------------- one round

  /** `bye_player_id or bye_player`, with an empty id counting as none. */
  function ByeIdOf(r: RoundSnapshot): (id: Option<string>)
    ensures id.Some? ==> id.value != ""
    ensures id.Some? ==> id == r.byePlayerId || id == r.byePlayer
  {
    if r.byePlayerId.Some? && r.byePlayerId.value != "" then r.byePlayerId
    else if r.byePlayer.Some? && r.byePlayer.value != "" then r.byePlayer
    else None
  }

  /** The round's pairings between players the map knows, in order. */
  function KnownPairings(t: seq<Player>, ids: seq<(string, string)>): (ps: seq<Pairing>)
    ensures |ps| <= |ids|
  {
    if ids == [] then []
    else
      var w := Find(t, ids[0].0);
      var b := Find(t, ids[0].1);
      (if w.Some? && b.Some? then [(w.value, b.value)] else []) + KnownPairings(t, ids[1..])
  }

  /** The pairs of ids of `ids` whose players are both known. */
  function KnownKeys(ids: seq<(string, string)>, known: set<string>): set<set<string>> {
    set k | 0 <= k < |ids| && ids[k].0 in known && ids[k].1 in known :: {ids[k].0, ids[k].1}
  }

  function PairKeys(ps: seq<Pairing>): set<set<string>> {
    set i | 0 <= i < |ps| :: Key(ps[i].0, ps[i].1)
  }

  lemma PairKeysAppend(a: seq<Pairing>, b: seq<Pairing>)
    ensures PairKeys(a + b) == PairKeys(a) + PairKeys(b)
  {
    forall x | x in PairKeys(a + b)
      ensures x in PairKeys(a) + PairKeys(b)
    {
      var i :| 0 <= i < |a + b| && x == Key((a + b)[i].0, (a + b)[i].1);
      if i >= |a| {
        assert (a + b)[i] == b[i - |a|];
      } else {
        assert (a + b)[i] == a[i];
      }
    }
    forall x | x in PairKeys(a)
      ensures x in PairKeys(a + b)
    {
      var i :| 0 <= i < |a| && x == Key(a[i].0, a[i].1);
      assert (a + b)[i] == a[i];
    }
    forall x | x in PairKeys(b)
      ensures x in PairKeys(a + b)
    {
      var i :| 0 <= i < |b| && x == Key(b[i].0, b[i].1);
      assert (a + b)[|a| + i] == b[i];
    }
  }

  lemma KnownKeysCons(ids: seq<(string, string)>, known: set<string>)
    requires |ids| > 0
    ensures KnownKeys(ids, known)
            == (if ids[0].0 in known && ids[0].1 in known then {{ids[0].0, ids[0].1}} else {})
               + KnownKeys(ids[1..], known)
  {
    forall x | x in KnownKeys(ids, known) && x !in KnownKeys(ids[1..], known)
      ensures ids[0].0 in known && ids[0].1 in known && x == {ids[0].0, ids[0].1}
    {
      var k :| 0 <= k < |ids| && ids[k].0 in known && ids[k].1 in known && x == {ids[k].0, ids[k].1};
    }
    forall x | x in KnownKeys(ids[1..], known)
      ensures x in KnownKeys(ids, known)
    {
      var k :| 0 <= k < |ids[1..]| && ids[1..][k].0 in known && ids[1..][k].1 in known
               && x == {ids[1..][k].0, ids[1..][k].1};
      assert ids[k + 1] == ids[1..][k];
    }
  }

  /** The keys the validator adds to `previous_matches` after a round are
      the known pairs of its snapshot. */
  lemma {:induction false} KnownPairingKeys(t: seq<Player>, ids: seq<(string, string)>)
    ensures PairKeys(KnownPairings(t, ids)) == KnownKeys(ids, Ids(t))
  {
    if ids != [] {
      KnownPairingKeys(t, ids[1..]);
      var w := Find(t, ids[0].0);
      var b := Find(t, ids[0].1);
      var head: seq<Pairing> := if w.Some? && b.Some? then [(w.value, b.value)] else [];
      var rest := KnownPairings(t, ids[1..]);
      assert KnownPairings(t, ids) == head + rest;
      PairKeysAppend(head, rest);
      KnownKeysCons(ids, Ids(t));
      if w.Some? && b.Some? {
        assert PairKeys(head) == {{ids[0].0, ids[0].1}} by {
          assert head[0] == (w.value, b.value);
        }
      }
    }
  }

  /** What the replay carries from round to round. */
  datatype ReplayState = ReplayState(
    table: seq<Player>, total: int, compliant: int,
    violations: seq<CriterionResult>, warnings: seq<CriterionResult>,
    previous: set<set<string>>, byes: map<string, int>)

  /** `violation.details["round"] = round_number` on every entry. */
  function Tag(rs: seq<CriterionResult>, roundNumber: int): (r: seq<CriterionResult>)
    ensures |r| == |rs|
    ensures forall i :: 0 <= i < |r| ==> r[i] == rs[i].(round := Some(roundNumber))
  {
    seq(|rs|, i requires 0 <= i < |rs| => rs[i].(round := Some(roundNumber)))
  }

  /** The ids a round's scheduled byes take out of the round. */
  function ScheduledIds(r: RoundSnapshot): set<string> {
    (set i | 0 <= i < |r.halfPointByes| :: r.halfPointByes[i])
    + (set i | 0 <= i < |r.zeroPointByes| :: r.zeroPointByes[i])
  }

  /** A round validator: `self.validate_round_pairings` with its
      arguments pairings, bye player, current round, total rounds, previous
      matches, bye history and players. */
  type Validator = (seq<Pairing>, Option<Player>, int, int, set<set<string>>, map<string, int>, seq<Player>) -> Report

  /** What the replay relies on of the round validator: its report
      summarises its results, 3 + the quality count of them. */
  ghost predicate ReportsRounds(v: Validator) {
    forall ps, bye, cr, tr, prev, byes, players ::
      v(ps, bye, cr, tr, prev, byes, players) == ReportOf(v(ps, bye, cr, tr, prev, byes, players).results)
      && |v(ps, bye, cr, tr, prev, byes, players).results| == 3 + QualityCount(cr, tr)
  }

  lemma RoundValidatorReports()
    ensures ReportsRounds(ValidateRoundPairings)
  {
  }

  /** The report of one round, as the replay validates it: the pairings
      between known players, the bye player if known, every player but the
      ones on a scheduled bye, and the configured number of rounds or else
      the round's own number as the total. */
  function RoundReport(v: Validator, s: ReplayState, r: RoundSnapshot, numRounds: Option<int>): (rep: Report)
    requires ReportsRounds(v)
    ensures rep == ReportOf(rep.results)
    ensures |rep.results| == 3 + QualityCount(r.roundNumber, numRounds.GetOr(r.roundNumber))
  {
    var bye := if ByeIdOf(r).Some? then Find(s.table, ByeIdOf(r).value) else None;
    var scheduled := ScheduledIds(r);
    var players := Filter(s.table, (p: Player) => p.id !in scheduled);
    var ps := KnownPairings(s.table, r.pairings);
    var tr := numRounds.GetOr(r.roundNumber);
    ReportsAt(v, ps, bye, r.roundNumber, tr, s.previous, s.byes, players);
    v(ps, bye, r.roundNumber, tr, s.previous, s.byes, players)
  }

  /** `ReportsRounds` at one call. */
  lemma ReportsAt(v: Validator, ps: seq<Pairing>, bye: Option<Player>, cr: int, tr: int,
                  prev: set<set<string>>, byes: map<string, int>, players: seq<Player>)
    requires ReportsRounds(v)
    ensures v(ps, bye, cr, tr, prev, byes, players) == ReportOf(v(ps, bye, cr, tr, prev, byes, players).results)
    ensures |v(ps, bye, cr, tr, prev, byes, players).results| == 3 + QualityCount(cr, tr)
  {
  }

  /** The players after a round: its results, then its bye, then its
      half-point and zero-point byes. */
  function Recorded(t: seq<Player>, r: RoundSnapshot): (t2: seq<Player>)
    requires UniqueIds(t)
    ensures UniqueIds(t2) && Ids(t2) == Ids(t) && |t2| == |t|
  {
    var t1 := ApplyResults(t, r.results);
    var bye := ByeIdOf(r);
    var t2 := if bye.Some? then ApplyBye(t1, bye.value, r.roundNumber, ByeScore) else t1;
    var t3 := ApplyByes(t2, r.halfPointByes, r.roundNumber, DrawScore);
    ApplyByes(t3, r.zeroPointByes, r.roundNumber, LossScore)
  }

  /** A report's violation list holds only absolute violations, and its
      warning list only quality ones. */
  lemma ReportParts(rep: Report)
    requires rep == ReportOf(rep.results)
    ensures 0 <= rep.compliant <= rep.total
    ensures forall i :: 0 <= i < |rep.violations| ==> IsAbsoluteViolation(rep.violations[i])
    ensures forall i :: 0 <= i < |rep.warnings| ==> IsQualityWarning(rep.warnings[i])
  {
    var r0 := ReportOf(rep.results);
    forall i | 0 <= i < |rep.violations|
      ensures IsAbsoluteViolation(rep.violations[i])
    {
      assert r0.violations[i] in r0.violations;
    }
    forall i | 0 <= i < |rep.warnings|
      ensures IsQualityWarning(rep.warnings[i])
    {
      assert r0.warnings[i] in r0.warnings;
    }
  }

  /** An absolute violation when `absolute`, a quality warning otherwise. */
  predicate OfKind(x: CriterionResult, absolute: bool) {
    if absolute then IsAbsoluteViolation(x) else IsQualityWarning(x)
  }

  /** Entries of one kind, each tagged with round `n`. */
  predicate RoundTagged(vs: seq<CriterionResult>, n: int, absolute: bool) {
    forall i :: 0 <= i < |vs| ==> OfKind(vs[i], absolute) && vs[i].round == Some(n)
  }

  /** Entries of one kind, each tagged with the number of a round of `rs`. */
  predicate Tagged(vs: seq<CriterionResult>, rs: seq<RoundSnapshot>, absolute: bool) {
    forall i :: 0 <= i < |vs| ==> OfKind(vs[i], absolute) && vs[i].round.Some? && HasRound(rs, vs[i].round.value)
  }

  lemma ExtendTagged(whole: seq<CriterionResult>, k: int, rs: seq<RoundSnapshot>, absolute: bool)
    requires |rs| > 0 && 0 <= k <= |whole|
    requires Tagged(whole[..k], rs[..|rs| - 1], absolute)
    requires RoundTagged(whole[k..], rs[|rs| - 1].roundNumber, absolute)
    ensures Tagged(whole, rs, absolute)
  {
    forall i | 0 <= i < |whole|
      ensures OfKind(whole[i], absolute) && whole[i].round.Some? && HasRound(rs, whole[i].round.value)
    {
      if i < k {
        assert whole[..k][i] == whole[i];
        HasRoundPrefix(rs, whole[i].round.value);
      } else {
        assert whole[k..][i - k] == whole[i];
        assert rs[|rs| - 1].roundNumber == whole[i].round.value;
      }
    }
  }

  /** One iteration of the replay loop. */
  function Step(v: Validator, s: ReplayState, r: RoundSnapshot, numRounds: Option<int>): (s2: ReplayState)
    requires ReportsRounds(v) && UniqueIds(s.table)
    ensures UniqueIds(s2.table) && Ids(s2.table) == Ids(s.table)
    ensures s2.total == s.total + 3 + QualityCount(r.roundNumber, numRounds.GetOr(r.roundNumber))
    ensures s.compliant <= s2.compliant <= s.compliant + (s2.total - s.total)
    ensures s2.previous == s.previous + KnownKeys(r.pairings, Ids(s.table))
    ensures s.violations <= s2.violations && RoundTagged(s2.violations[|s.violations|..], r.roundNumber, true)
    ensures s.warnings <= s2.warnings && RoundTagged(s2.warnings[|s.warnings|..], r.roundNumber, false)
  {
    var rep := RoundReport(v, s, r, numRounds);
    var ps := KnownPairings(s.table, r.pairings);
    KnownPairingKeys(s.table, r.pairings);
    var bye := if ByeIdOf(r).Some? then Find(s.table, ByeIdOf(r).value) else None;
    var byes := if bye.Some? then s.byes[bye.value.id := ByeCount(s.byes, bye.value.id) + 1] else s.byes;
    var vs := Tag(rep.violations, r.roundNumber);
    var ws := Tag(rep.warnings, r.roundNumber);
    ReportParts(rep);
    assert (s.violations + vs)[|s.violations|..] == vs;
    assert (s.warnings + ws)[|s.warnings|..] == ws;
    ReplayState(Recorded(s.table, r), s.total + rep.total, s.compliant + rep.compliant,
                s.violations + vs, s.warnings + ws, s.previous + PairKeys(ps), byes)
  }

  // ------------------------------------------------------ the whole replay

  /** The criteria a run of rounds checks in all. */
  function RoundsTotal(rs: seq<RoundSnapshot>, numRounds: Option<int>): int {
    if rs == [] then 0
    else
      RoundsTotal(rs[..|rs| - 1], numRounds)
      + 3 + QualityCount(rs[|rs| - 1].roundNumber, numRounds.GetOr(rs[|rs| - 1].roundNumber))
  }

  /** The pairs of known players the rounds `rs` scheduled. */
  function PriorKeys(rs: seq<RoundSnapshot>, known: set<string>): set<set<string>> {
    if rs == [] then {} else PriorKeys(rs[..|rs| - 1], known) + KnownKeys(rs[|rs| - 1].pairings, known)
  }

  /** Some round of `rs` has number `n`. */
  predicate HasRound(rs: seq<RoundSnapshot>, n: int) {
    exists j :: 0 <= j < |rs| && rs[j].roundNumber == n
  }

  lemma HasRoundPrefix(rs: seq<RoundSnapshot>, n: int)
    requires |rs| > 0 && HasRound(rs[..|rs| - 1], n)
    ensures HasRound(rs, n)
  {
    var j :| 0 <= j < |rs| - 1 && rs[..|rs| - 1][j].roundNumber == n;
    assert rs[j].roundNumber == n;
  }

  /** The state after replaying the rounds `rs` in order: the previous
      matches are exactly the pairs of known players of those rounds, the
      totals are their totals, and every violation and warning is tagged
      with the number of one of them. */
  function ReplayRounds(v: Validator, t: seq<Player>, rs: seq<RoundSnapshot>, numRounds: Option<int>)
    : (s: ReplayState)
    requires ReportsRounds(v) && UniqueIds(t)
    ensures UniqueIds(s.table) && Ids(s.table) == Ids(t)
    ensures s.previous == PriorKeys(rs, Ids(t))
    ensures s.total == RoundsTotal(rs, numRounds)
    ensures 0 <= s.compliant <= s.total
    ensures Tagged(s.violations, rs, true) && Tagged(s.warnings, rs, false)
  {
    if rs == [] then ReplayState(t, 0, 0, [], [], {}, map[])
    else
      var init := rs[..|rs| - 1];
      var last := rs[|rs| - 1];
      var s0 := ReplayRounds(v, t, init, numRounds);
      var s := Step(v, s0, last, numRounds);
      assert s.violations[..|s0.violations|] == s0.violations;
      assert s.warnings[..|s0.warnings|] == s0.warnings;
      ExtendTagged(s.violations, |s0.violations|, rs, true);
      ExtendTagged(s.warnings, |s0.warnings|, rs, false);
      s
  }

  // ------------------------------------------------------ round order

  predicate SortedByRound(rs: seq<RoundSnapshot>) {
    forall i, j :: 0 <= i < j < |rs| ==> rs[i].roundNumber <= rs[j].roundNumber
  }

  /** Inserts `x` before the first round numbered at least as high. */
  function Insert(x: RoundSnapshot, rs: seq<RoundSnapshot>): (r: seq<RoundSnapshot>)
    requires SortedByRound(rs)
    ensures SortedByRound(r) && multiset(r) == multiset(rs) + multiset{x}
  {
    if rs == [] then [x]
    else if x.roundNumber <= rs[0].roundNumber then [x] + rs
    else
      var rest := Insert(x, rs[1..]);
      assert multiset(rs) == multiset{rs[0]} + multiset(rs[1..]) by {
        assert rs == [rs[0]] + rs[1..];
      }
      BoundedRest(x, rs, rest);
      SortedCons(rs[0], rest);
      [rs[0]] + rest
  }

  /** Every round of `rest` is numbered at least as high as the head of
      `rs` when `rest` holds the tail of `rs` and a later `x`. */
  lemma BoundedRest(x: RoundSnapshot, rs: seq<RoundSnapshot>, rest: seq<RoundSnapshot>)
    requires SortedByRound(rs) && |rs| > 0 && x.roundNumber > rs[0].roundNumber
    requires multiset(rest) == multiset(rs[1..]) + multiset{x}
    ensures forall k :: 0 <= k < |rest| ==> rs[0].roundNumber <= rest[k].roundNumber
  {
    forall k | 0 <= k < |rest|
      ensures rs[0].roundNumber <= rest[k].roundNumber
    {
      assert rest[k] in multiset(rest);
      if rest[k] != x {
        assert rest[k] in multiset(rs[1..]);
        var m :| 0 <= m < |rs[1..]| && rs[1..][m] == rest[k];
        assert rs[m + 1] == rest[k];
      }
    }
  }

  lemma SortedCons(h: RoundSnapshot, rest: seq<RoundSnapshot>)
    requires SortedByRound(rest)
    requires forall k :: 0 <= k < |rest| ==> h.roundNumber <= rest[k].roundNumber
    ensures SortedByRound([h] + rest)
  {
    var r := [h] + rest;
    forall i, j | 0 <= i < j < |r|
      ensures r[i].roundNumber <= r[j].roundNumber
    {
      assert r[j] == rest[j - 1];
      if i > 0 { assert r[i] == rest[i - 1]; }
    }
  }

  /** `sorted(rounds, key=round_number)`: ascending round numbers, the same
      rounds. */
  function SortRounds(rs: seq<RoundSnapshot>): (r: seq<RoundSnapshot>)
    ensures SortedByRound(r) && multiset(r) == multiset(rs)
  {
    if rs == [] then []
    else
      assert rs == [rs[0]] + rs[1..];
      Insert(rs[0], SortRounds(rs[1..]))
  }

  /** Tags name rounds of the tournament whatever order the rounds are in. */
  lemma TaggedPermutation(vs: seq<CriterionResult>, a: seq<RoundSnapshot>, b: seq<RoundSnapshot>, absolute: bool)
    requires multiset(a) == multiset(b) && Tagged(vs, a, absolute)
    ensures Tagged(vs, b, absolute)
  {
    forall i | 0 <= i < |vs|
      ensures HasRound(b, vs[i].round.value)
    {
      var j :| 0 <= j < |a| && a[j].roundNumber == vs[i].round.value;
      assert a[j] in multiset(b);
      var k :| 0 <= k < |b| && b[k] == a[j];
    }
  }

  // ----------------------------------------------------- the validation

  /** `validate_tournament_compliance`. */
  function ValidateTournament(data: TournamentData): (rep: Report)
    ensures data.players == [] || data.rounds == [] ==>
              rep == Report(0, 0, [], [], NotApplicable, [])
    ensures data.players != [] && data.rounds != []
            && Feasibility(|data.players|, data.numRounds.GetOr(|data.rounds|)).Some? ==>
              var f := Feasibility(|data.players|, data.numRounds.GetOr(|data.rounds|)).value.0;
              rep == Report(1, 0, [f], [], Violation, [f])
    ensures data.players != [] && data.rounds != []
            && Feasibility(|data.players|, data.numRounds.GetOr(|data.rounds|)).None? ==>
              ReplaySummary(rep, data)
  {
    if data.players == [] || data.rounds == [] then Report(0, 0, [], [], NotApplicable, [])
    else
      match Feasibility(|data.players|, data.numRounds.GetOr(|data.rounds|))
      case Some((f, _)) => Report(1, 0, [f], [], Violation, [f])
      case None => ReplayReport(data)
  }

  /** The report of a replay: one result per validated round, compliant
      ones counted, failing when some round has an absolute violation, and
      every violation and warning tagged with a round of the data. */
  predicate ReplaySummary(rep: Report, data: TournamentData) {
    && rep.total == RoundsTotal(SortRounds(data.rounds), data.numRounds)
    && 0 <= rep.compliant <= rep.total && rep.results == []
    && (rep.overall == Violation <==> rep.violations != [])
    && rep.overall != NotApplicable
    && Tagged(rep.violations, data.rounds, true) && Tagged(rep.warnings, data.rounds, false)
  }

  /** The rounds replayed in order over the player map. */
  function ReplayReport(data: TournamentData): (rep: Report)
    ensures ReplaySummary(rep, data)
  {
    RoundValidatorReports();
    var sorted := SortRounds(data.rounds);
    var s := ReplayRounds(ValidateRoundPairings, BuildTable(data.players), sorted, data.numRounds);
    TaggedPermutation(s.violations, sorted, data.rounds, true);
    TaggedPermutation(s.warnings, sorted, data.rounds, false);
    Report(s.total, s.compliant, s.violations, s.warnings,
           if s.violations != [] then Violation else Compliant, [])
  }

  /** C1 of a replayed round looks only at earlier rounds: with the state
      after the rounds before it, a pairing of the round repeats exactly
      when one of its known pairs was scheduled earlier. */
  lemma RoundSeesOnlyEarlierPairs(v: Validator, t: seq<Player>, rs: seq<RoundSnapshot>, numRounds: Option<int>,
                                  k: int)
    requires ReportsRounds(v) && UniqueIds(t) && 0 <= k < |rs|
    ensures var s := ReplayRounds(v, t, rs[..k], numRounds);
            RepeatsPairing(KnownPairings(s.table, rs[k].pairings), s.previous)
            <==> KnownKeys(rs[k].pairings, Ids(t)) * PriorKeys(rs[..k], Ids(t)) != {}
  {
    var s := ReplayRounds(v, t, rs[..k], numRounds);
    RepeatsIffKnownKeys(s.table, rs[k].pairings, s.previous);
  }

  /** A round repeats a pairing exactly when one of its known pairs is
      among the previous matches. */
  lemma RepeatsIffKnownKeys(t: seq<Player>, ids: seq<(string, string)>, previous: set<set<string>>)
    ensures RepeatsPairing(KnownPairings(t, ids), previous) <==> KnownKeys(ids, Ids(t)) * previous != {}
  {
    KnownPairingKeys(t, ids);
    RepeatsIffPairKeys(KnownPairings(t, ids), previous);
  }

  /** A list of pairings repeats a match exactly when one of its keys is
      among the previous matches. */
  lemma RepeatsIffPairKeys(ps: seq<Pairing>, previous: set<set<string>>)
    ensures RepeatsPairing(ps, previous) <==> PairKeys(ps) * previous != {}
  {
    if RepeatsPairing(ps, previous) {
      var i :| 0 <= i < |ps| && Key(ps[i].0, ps[i].1) in previous;
      assert Key(ps[i].0, ps[i].1) in PairKeys(ps) * previous;
    }
    if PairKeys(ps) * previous != {} {
      var x :| x in PairKeys(ps) * previous;
      var i :| 0 <= i < |ps| && x == Key(ps[i].0, ps[i].1);
      assert Key(ps[i].0, ps[i].1) in previous;
    }
  }

  /** Every criterion of every replayed round is counted: the total is the
      sum over the rounds of 3 + the quality count. */
  lemma {:induction false} RoundsTotalBounds(rs: seq<RoundSnapshot>, numRounds: Option<int>)
    ensures 11 * |rs| <= RoundsTotal(rs, numRounds) <= 21 * |rs|
  {
    if rs != [] {
      RoundsTotalBounds(rs[..|rs| - 1], numRounds);
    }
  }
}
