/** validation/fpc.py: the FIDE pairing checker for the Dutch system (FIDE
    Handbook C.04.3). The absolute criteria C1-C3 and the quality criteria
    C4-C21 are each a function from one round's pairings to a criterion
    result; a round report gathers them. A pairing is the (white, black)
    pair of players as they stand before the round. Players are compared by
    id where the source compares the objects themselves (within one round
    they are the same objects). */
module Fpc {
  import opened Wrappers
  import opened Text
  import opened Colors
  import opened Players
  import opened Seqs
  import Constants

  datatype Status = Compliant | Violation | NotApplicable

  datatype Kind = Absolute | Quality

  datatype FloatDir = FloatDown | FloatUp | FloatNone

  /** A `CriterionResult`. Of the free-text description and the details
      dictionary only the entries other code reads are kept: the
      `violation_count` and the `round` the tournament replay adds. */
  datatype CriterionResult = CriterionResult(
    criterion: nat, status: Status, kind: Option<Kind>,
    violationCount: Option<int>, round: Option<int>)

  /** The criterion's text, "C" followed by its number. */
  function Name(r: CriterionResult): string {
    "C" + NatToString(r.criterion)
  }

  function Passed(name: nat): CriterionResult {
    CriterionResult(name, Compliant, None, None, None)
  }

  function Skipped(name: nat): CriterionResult {
    CriterionResult(name, NotApplicable, None, None, None)
  }

  function Flagged(name: nat, kind: Kind): CriterionResult {
    CriterionResult(name, Violation, Some(kind), None, None)
  }

  /** `criterion_id`: the text before the first colon, stripped. */
  function CriterionId(criterion: string): (r: string)
    ensures ':' !in r
  {
    var head := Split(criterion, ':')[0];
    NoCountNotIn(head, ':');
    StripKeeps(head, ':');
    Strip(head)
  }

  lemma {:induction false} NoCountNotIn(s: string, c: char)
    requires CountChar(s, c) == 0
    ensures c !in s
  {
    if |s| > 0 {
      NoCountNotIn(s[1..], c);
      assert s == [s[0]] + s[1..];
    }
  }

  /** A criterion written "C<n>: description" (or just its id) has the id
      it starts with. */
  lemma CriterionIdOf(id: string, rest: string)
    requires ':' !in id && |id| > 0 && !IsSpace(id[0]) && !IsSpace(id[|id| - 1])
    ensures CriterionId(id) == id
    ensures CriterionId(id + ":" + rest) == id
  {
    SplitFirst(id, [], ':');
    assert id + [] == id;
    SplitFirst(id, ":" + rest, ':');
    assert id + ":" + rest == id + (":" + rest);
    StripOfTrimmed(id);
  }

  // ------------------------------------------------------------- players

  type Pairing = (Player, Player)

  /** A falsy opponent id (None or empty) marks an unplayed round. */
  predicate PlayedAgainst(o: Option<string>) {
    o.Some? && o.value != ""
  }

  /** `_has_full_point_bye`: an unplayed round (no opponent) worth at least
      a win, among the rounds where both lists have an entry. */
  predicate HasFullPointBye(p: Player) {
    exists i :: 0 <= i < |p.opponentIds| && i < |p.results|
                && p.opponentIds[i].None? && p.results[i] >= Constants.WinScore
  }

  /** `_count_played_games`. */
  function CountPlayedGames(p: Player): (n: nat)
    ensures n <= |p.opponentIds|
    ensures n == 0 <==> forall i :: 0 <= i < |p.opponentIds| ==> !PlayedAgainst(p.opponentIds[i])
  {
    |Filter(p.opponentIds, PlayedAgainst)|
  }

  /** `_is_topscorer` (Article 1.7): only in the final round, a score above
      half of the maximum possible before it. */
  predicate IsTopscorer(p: Player, currentRound: int, totalRounds: int) {
    currentRound == totalRounds && totalRounds > 0
    && p.score > (currentRound - 1) as real * 0.5
  }

  /** `_eligible_for_bye`. */
  predicate EligibleForBye(p: Player) {
    !p.hasReceivedBye && !HasFullPointBye(p)
  }

  predicate IsActive(p: Player) {
    p.isActive
  }

  /** `_float_type`: how the player floated `roundsBack` rounds before the
      current one, read off the match-history entry at index
      `currentRound - roundsBack - 1`. A played game floats the player down
      (up) when they scored more (less) than the opponent before it; an
      unplayed round floats down when it scored points. */
  function FloatType(p: Player, roundsBack: int, currentRound: int): (d: FloatDir)
    ensures d != FloatNone ==>
              1 <= roundsBack < currentRound && currentRound - roundsBack - 1 < |p.matchHistory|
    ensures d != FloatNone && PlayedAgainst(p.matchHistory[currentRound - roundsBack - 1].opponentId) ==>
              (var m := p.matchHistory[currentRound - roundsBack - 1];
               (d == FloatDown <==> m.playerScore > m.opponentScore)
               && (d == FloatUp <==> m.playerScore < m.opponentScore))
    ensures d != FloatNone && !PlayedAgainst(p.matchHistory[currentRound - roundsBack - 1].opponentId) ==>
              d == FloatDown && currentRound - roundsBack - 1 < |p.results|
              && p.results[currentRound - roundsBack - 1] > 0.0
  {
    if roundsBack >= currentRound || roundsBack < 1 then FloatNone
    else
      var k := currentRound - roundsBack - 1;
      if k >= |p.matchHistory| then FloatNone
      else
        var m := p.matchHistory[k];
        if !PlayedAgainst(m.opponentId) then
          if k < |p.results| && p.results[k] > 0.0 then FloatDown else FloatNone
        else if m.playerScore > m.opponentScore then FloatDown
        else if m.playerScore < m.opponentScore then FloatUp
        else FloatNone
  }

  // ------------------------------------------------------------ pairings

  function WhiteIds(ps: seq<Pairing>): set<string> {
    set i | 0 <= i < |ps| :: ps[i].0.id
  }

  function BlackIds(ps: seq<Pairing>): set<string> {
    set i | 0 <= i < |ps| :: ps[i].1.id
  }

  function ByeIds(bye: Option<Player>): set<string> {
    if bye.Some? then {bye.value.id} else {}
  }

  /** `_assigned_color_map`: White for the whites, then Black for the blacks
      (overwriting), then no colour for the bye player. */
  function AssignedColors(ps: seq<Pairing>, bye: Option<Player>): (m: map<string, Option<Color>>)
    ensures m.Keys == WhiteIds(ps) + BlackIds(ps) + ByeIds(bye)
    ensures bye.Some? ==> m[bye.value.id] == None
    ensures forall id :: id in m && id !in ByeIds(bye) ==>
              m[id] == Some(if id in BlackIds(ps) then Black else White)
  {
    var colored := map id | id in WhiteIds(ps) + BlackIds(ps) ::
                     Some(if id in BlackIds(ps) then Black else White);
    if bye.Some? then colored[bye.value.id := None] else colored
  }

  /** A round where no player appears twice: no white is also a black and
      the bye player is not paired. */
  predicate ProperRound(ps: seq<Pairing>, bye: Option<Player>) {
    (forall i, j :: 0 <= i < |ps| && 0 <= j < |ps| ==> ps[i].0.id != ps[j].1.id)
    && (bye.Some? ==> forall i :: 0 <= i < |ps| ==> ps[i].0.id != bye.value.id && ps[i].1.id != bye.value.id)
  }

  /** In a proper round every white is assigned White and every black Black. */
  lemma ProperRoundColors(ps: seq<Pairing>, bye: Option<Player>)
    requires ProperRound(ps, bye)
    ensures forall i :: 0 <= i < |ps| ==>
              AssignedColors(ps, bye)[ps[i].0.id] == Some(White)
              && AssignedColors(ps, bye)[ps[i].1.id] == Some(Black)
  {
    var m := AssignedColors(ps, bye);
    forall i | 0 <= i < |ps|
      ensures m[ps[i].0.id] == Some(White) && m[ps[i].1.id] == Some(Black)
    {
      assert ps[i].0.id in WhiteIds(ps);
      assert ps[i].1.id in BlackIds(ps);
      assert ps[i].0.id !in BlackIds(ps);
    }
  }

  predicate Unequal(pr: Pairing) {
    pr.0.score != pr.1.score
  }

  function Higher(pr: Pairing): Player {
    if pr.0.score > pr.1.score then pr.0 else pr.1
  }

  function Lower(pr: Pairing): Player {
    if pr.0.score > pr.1.score then pr.1 else pr.0
  }

  /** `_identify_floaters`: (downfloaters, upfloaters, MDP opponents). The
      unequal-score pairings, in order, each give their higher player as a
      downfloater and their lower player as an upfloater and MDP opponent;
      the bye player is appended to the downfloaters. */
  function Floaters(ps: seq<Pairing>, bye: Option<Player>): (r: (seq<Player>, seq<Player>, seq<Player>))
    ensures r.1 == r.2
    ensures |r.1| == |Filter(ps, Unequal)|
    ensures |r.0| == |r.1| + |ByeIds(bye)|
    ensures forall k :: 0 <= k < |r.1| ==> r.0[k].score > r.1[k].score
    ensures bye.Some? ==> r.0[|r.0| - 1] == bye.value
  {
    var u := Filter(ps, Unequal);
    (Highers(u) + (if bye.Some? then [bye.value] else []), Lowers(u), Lowers(u))
  }

  function Highers(u: seq<Pairing>): (r: seq<Player>)
    ensures |r| == |u| && forall k :: 0 <= k < |u| ==> r[k] == Higher(u[k])
  {
    seq(|u|, k requires 0 <= k < |u| => Higher(u[k]))
  }

  function Lowers(u: seq<Pairing>): (r: seq<Player>)
    ensures |r| == |u| && forall k :: 0 <= k < |u| ==> r[k] == Lower(u[k])
  {
    seq(|u|, k requires 0 <= k < |u| => Lower(u[k]))
  }

  /** The k-th downfloater and upfloater are the higher and lower player of
      one unequal-score pairing. */
  lemma FloaterOrigins(ps: seq<Pairing>, bye: Option<Player>)
    ensures var r := Floaters(ps, bye);
            forall k :: 0 <= k < |r.1| ==>
              exists i :: 0 <= i < |ps| && Unequal(ps[i]) && r.0[k] == Higher(ps[i]) && r.1[k] == Lower(ps[i])
  {
    var u := Filter(ps, Unequal);
    var r := Floaters(ps, bye);
    forall k | 0 <= k < |r.1|
      ensures exists i :: 0 <= i < |ps| && Unequal(ps[i]) && r.0[k] == Higher(ps[i]) && r.1[k] == Lower(ps[i])
    {
      assert r.0[k] == Higher(u[k]) && r.1[k] == Lower(u[k]);
      assert u[k] in ps;
      var i :| 0 <= i < |ps| && ps[i] == u[k];
      assert Unequal(ps[i]);
    }
  }

  /** Equal-score pairings float nobody: only the bye player floats. */
  lemma EqualScoresNoFloaters(ps: seq<Pairing>, bye: Option<Player>)
    requires forall i :: 0 <= i < |ps| ==> ps[i].0.score == ps[i].1.score
    ensures Floaters(ps, bye).1 == []
    ensures Floaters(ps, bye).0 == (if bye.Some? then [bye.value] else [])
  {
    assert Filter(ps, Unequal) == [];
  }

  /** Every player of an unequal-score pairing floats: the higher one down,
      the lower one up. */
  lemma UnequalPairingFloats(ps: seq<Pairing>, bye: Option<Player>, i: int)
    requires 0 <= i < |ps| && Unequal(ps[i])
    ensures Higher(ps[i]) in Floaters(ps, bye).0
    ensures Lower(ps[i]) in Floaters(ps, bye).1
  {
    var u := Filter(ps, Unequal);
    assert ps[i] in u;
    var k :| 0 <= k < |u| && u[k] == ps[i];
    var f := Floaters(ps, bye);
    assert f.0[k] == Higher(u[k]);
    assert f.1[k] == Lower(u[k]);
  }

  // -------------------------------------------------------------- context

  /** `RoundContext`, built by `_build_context`. */
  datatype Context = Context(
    pairings: seq<Pairing>, bye: Option<Player>, players: seq<Player>,
    currentRound: int, totalRounds: int, previous: set<set<string>>,
    given: map<string, Option<Color>>,
    down: seq<Player>, up: seq<Player>, mdp: seq<Player>, eligible: seq<Player>)

  function BuildContext(ps: seq<Pairing>, bye: Option<Player>, players: seq<Player>,
                        currentRound: int, totalRounds: int, previous: set<set<string>>): (c: Context)
    ensures c.pairings == ps && c.bye == bye && c.players == players
    ensures c.currentRound == currentRound && c.totalRounds == totalRounds && c.previous == previous
  {
    var (down, up, mdp) := Floaters(ps, bye);
    Context(ps, bye, players, currentRound, totalRounds, previous, AssignedColors(ps, bye),
            down, up, mdp, Filter(players, EligibleForBye))
  }

  function Key(a: Player, b: Player): set<string> {
    {a.id, b.id}
  }

  // ----------------------------------------------------- absolute criteria

  /** Some pairing of the round repeats an earlier one. */
  predicate RepeatsPairing(ps: seq<Pairing>, previous: set<set<string>>) {
    exists i :: 0 <= i < |ps| && Key(ps[i].0, ps[i].1) in previous
  }

  /** C1: no two players meet twice. */
  function CheckC1(ps: seq<Pairing>, previous: set<set<string>>): (r: CriterionResult)
    ensures r.criterion == 1 && r.status != NotApplicable
    ensures r.status == Violation <==> RepeatsPairing(ps, previous)
    ensures r.kind.Some? <==> r.status == Violation
    ensures r.kind.Some? ==> r.kind.value == Absolute
  {
    if Any(ps, (pr: Pairing) => Key(pr.0, pr.1) in previous) then Flagged(1, Absolute)
    else Passed(1)
  }

  /** The count `player_bye_history.get(id, 0)`. */
  function ByeCount(history: map<string, int>, id: string): int {
    if id in history then history[id] else 0
  }

  /** C2: nobody receives a second bye, counting earlier byes of this
      tournament and full-point unplayed rounds on record. */
  function CheckC2(bye: Option<Player>, history: map<string, int>): (r: CriterionResult)
    ensures r.criterion == 2
    ensures r.status == NotApplicable <==> bye.None?
    ensures r.status == Violation <==>
              bye.Some? && (ByeCount(history, bye.value.id) > 0 || HasFullPointBye(bye.value))
    ensures r.kind.Some? <==> r.status == Violation
    ensures r.kind.Some? ==> r.kind.value == Absolute
  {
    match bye
    case None => Skipped(2)
    case Some(p) =>
      if ByeCount(history, p.id) > 0 || HasFullPointBye(p) then Flagged(2, Absolute)
      else Passed(2)
  }

  /** The C3 conflict: two non-topscorers with the same absolute colour
      preference paired together. */
  predicate PreferenceConflict(pr: Pairing, currentRound: int, totalRounds: int) {
    !IsTopscorer(pr.0, currentRound, totalRounds) && !IsTopscorer(pr.1, currentRound, totalRounds)
    && AbsolutePref(pr.0.colorHistory) && AbsolutePref(pr.1.colorHistory)
    && Preference(pr.0.colorHistory).Some?
    && Preference(pr.0.colorHistory) == Preference(pr.1.colorHistory)
  }

  predicate HasConflict(ps: seq<Pairing>, currentRound: int, totalRounds: int) {
    exists i :: 0 <= i < |ps| && PreferenceConflict(ps[i], currentRound, totalRounds)
  }

  /** C3, checked in the final round only. */
  function CheckC3(ps: seq<Pairing>, currentRound: int, totalRounds: int): (r: CriterionResult)
    ensures r.criterion == 3
    ensures r.status == NotApplicable <==> currentRound != totalRounds
    ensures r.status == Violation <==>
              currentRound == totalRounds && HasConflict(ps, currentRound, totalRounds)
    ensures r.kind.Some? <==> r.status == Violation
    ensures r.kind.Some? ==> r.kind.value == Absolute
  {
    if currentRound != totalRounds then Skipped(3)
    else if Any(ps, (pr: Pairing) => PreferenceConflict(pr, currentRound, totalRounds)) then
      Flagged(3, Absolute)
    else Passed(3)
  }

  /** A C3 conflict cannot be resolved by any colour allocation: whichever
      colour the white player receives, one of the two plays against an
      absolute preference. */
  lemma ConflictDefeatsEveryAllocation(pr: Pairing, currentRound: int, totalRounds: int, c: Color)
    requires PreferenceConflict(pr, currentRound, totalRounds)
    ensures Preference(pr.0.colorHistory) != Some(c) || Preference(pr.1.colorHistory) != Some(Opposite(c))
  {
  }

  // ------------------------------------------------------ quality criteria

  /** An active player who is neither paired nor the bye player. */
  predicate Unpaired(p: Player, given: map<string, Option<Color>>) {
    p.isActive && p.id !in given
  }

  /** An active player other than `p` whom `p` has not met. */
  predicate FreshOpponent(p: Player, other: Player, previous: set<set<string>>) {
    other.id != p.id && other.isActive && Key(p, other) !in previous
  }

  /** A player with no fresh opponent left among `players`. */
  predicate Exhausted(p: Player, players: seq<Player>, previous: set<set<string>>) {
    forall j :: 0 <= j < |players| ==> !FreshOpponent(p, players[j], previous)
  }

  predicate SomeUnpaired(c: Context) {
    exists i :: 0 <= i < |c.players| && Unpaired(c.players[i], c.given)
  }

  /** Some unpaired player has met every other active player. */
  predicate SomeUnpairable(c: Context) {
    exists i :: 0 <= i < |c.players| && Unpaired(c.players[i], c.given)
                && Exhausted(c.players[i], c.players, c.previous)
  }

  /** Whether `p` has a fresh opponent among `players`. */
  function HasFreshOpponent(p: Player, players: seq<Player>, previous: set<set<string>>): (b: bool)
    ensures b <==> !Exhausted(p, players, previous)
  {
    Any(players, (o: Player) => FreshOpponent(p, o, previous))
  }

  /** C4: every active player is paired or receives the bye. Missing
      players are an absolute violation when one of them has met every
      other active player already (C1 cannot be met), a quality one
      otherwise. */
  function CheckC4(c: Context): (r: CriterionResult)
    ensures r.criterion == 4
    ensures r.status == NotApplicable <==> c.players == []
    ensures r.status == Violation <==> c.players != [] && SomeUnpaired(c)
    ensures r.kind.Some? <==> r.status == Violation
    ensures r.status == Violation ==> (r.kind == Some(Absolute) <==> SomeUnpairable(c))
  {
    if c.players == [] then Skipped(4)
    else
      var missing := Filter(c.players, (p: Player) => Unpaired(p, c.given));
      if missing == [] then Passed(4)
      else
        var stuck := Any(missing, (p: Player) => !HasFreshOpponent(p, c.players, c.previous));
        StuckMeaning(c.players, c.given, c.previous);
        assert missing != [] ==> missing[0] in c.players;
        Flagged(4, if stuck then Absolute else Quality)
  }

  lemma StuckMeaning(players: seq<Player>, given: map<string, Option<Color>>, previous: set<set<string>>)
    ensures var missing := Filter(players, (p: Player) => Unpaired(p, given));
            Any(missing, (p: Player) => !HasFreshOpponent(p, players, previous))
            <==> exists i :: 0 <= i < |players| && Unpaired(players[i], given)
                             && Exhausted(players[i], players, previous)
  {
    var missing := Filter(players, (p: Player) => Unpaired(p, given));
    if Any(missing, (p: Player) => !HasFreshOpponent(p, players, previous)) {
      StuckFromMissing(players, given, previous, missing);
    }
    if exists i :: 0 <= i < |players| && Unpaired(players[i], given) && Exhausted(players[i], players, previous) {
      var i :| 0 <= i < |players| && Unpaired(players[i], given) && Exhausted(players[i], players, previous);
      assert players[i] in missing;
      AnyOfMember(missing, (p: Player) => !HasFreshOpponent(p, players, previous), players[i]);
    }
  }

  lemma StuckFromMissing(players: seq<Player>, given: map<string, Option<Color>>, previous: set<set<string>>,
                         missing: seq<Player>)
    requires forall k :: 0 <= k < |missing| ==> Unpaired(missing[k], given) && missing[k] in players
    requires exists k :: 0 <= k < |missing| && !HasFreshOpponent(missing[k], players, previous)
    ensures exists i :: 0 <= i < |players| && Unpaired(players[i], given)
                        && Exhausted(players[i], players, previous)
  {
    var k :| 0 <= k < |missing| && !HasFreshOpponent(missing[k], players, previous);
    var i :| 0 <= i < |players| && players[i] == missing[k];
    assert Unpaired(players[i], given) && Exhausted(players[i], players, previous);
  }


  function Scores(ps: seq<Player>): (r: seq<real>)
    ensures |r| == |ps| && forall i :: 0 <= i < |ps| ==> r[i] == ps[i].score
  {
    seq(|ps|, i requires 0 <= i < |ps| => ps[i].score)
  }

  /** An eligible player scores less than the bye player. */
  predicate LowerEligible(c: Context) {
    c.bye.Some? && exists i :: 0 <= i < |c.eligible| && c.eligible[i].score < c.bye.value.score
  }

  /** C5: the bye goes to a lowest-scoring eligible player. */
  function CheckC5(c: Context): (r: CriterionResult)
    ensures r.criterion == 5
    ensures r.status == NotApplicable <==> c.bye.None? || c.eligible == []
    ensures r.status == Violation <==> LowerEligible(c)
    ensures r.kind.Some? <==> r.status == Violation
    ensures r.kind.Some? ==> r.kind.value == Quality
    ensures WellKinded(r)
  {
    if c.bye.None? || c.eligible == [] then Skipped(5)
    else if c.bye.value.score > Min(Scores(c.eligible)) then Flagged(5, Quality)
    else Passed(5)
  }

  /** C6: as many pairs as the active players allow. */
  function CheckC6(c: Context): (r: CriterionResult)
    ensures r.criterion == 6 && r.status != NotApplicable
    ensures r.status == Violation <==> 2 * |c.pairings| + 1 < |Filter(c.players, IsActive)|
    ensures r.kind.Some? <==> r.status == Violation
    ensures r.kind.Some? ==> r.kind.value == Quality
    ensures WellKinded(r)
  {
    if |c.pairings| < |Filter(c.players, IsActive)| / 2 then Flagged(6, Quality) else Passed(6)
  }

  function Ids(ps: seq<Player>): set<string> {
    set i | 0 <= i < |ps| :: ps[i].id
  }

  /** A downfloater scores more than an active player who stays. */
  predicate HigherDownfloater(c: Context) {
    AboveStayer(c.down, c.players)
  }

  predicate AboveStayer(down: seq<Player>, players: seq<Player>) {
    exists i, j :: 0 <= i < |down| && 0 <= j < |players|
                   && players[j].isActive && players[j].id !in Ids(down)
                   && down[i].score > players[j].score
  }

  predicate Stays(down: seq<Player>, p: Player) {
    p.isActive && p.id !in Ids(down)
  }

  /** C7 compares the best downfloater with the worst player who stays. */
  lemma AboveStayerByExtremes(down: seq<Player>, players: seq<Player>)
    requires down != []
    ensures var stay := Filter(players, (p: Player) => Stays(down, p));
            AboveStayer(down, players) <==> stay != [] && Max(Scores(down)) > Min(Scores(stay))
  {
    var stay := Filter(players, (p: Player) => Stays(down, p));
    if stay != [] && Max(Scores(down)) > Min(Scores(stay)) {
      ExtremesAboveStayer(down, players, stay);
    }
    if AboveStayer(down, players) {
      AboveStayerExtremes(down, players, stay);
    }
  }

  lemma ExtremesAboveStayer(down: seq<Player>, players: seq<Player>, stay: seq<Player>)
    requires down != [] && stay == Filter(players, (p: Player) => Stays(down, p))
    requires stay != [] && Max(Scores(down)) > Min(Scores(stay))
    ensures AboveStayer(down, players)
  {
    var i :| 0 <= i < |down| && Max(Scores(down)) == Scores(down)[i];
    var k :| 0 <= k < |stay| && Min(Scores(stay)) == Scores(stay)[k];
    var j :| 0 <= j < |players| && players[j] == stay[k];
    assert down[i].score > players[j].score;
  }

  lemma AboveStayerExtremes(down: seq<Player>, players: seq<Player>, stay: seq<Player>)
    requires down != [] && stay == Filter(players, (p: Player) => Stays(down, p))
    requires AboveStayer(down, players)
    ensures stay != [] && Max(Scores(down)) > Min(Scores(stay))
  {
    var i, j :| 0 <= i < |down| && 0 <= j < |players|
                && players[j].isActive && players[j].id !in Ids(down)
                && down[i].score > players[j].score;
    assert Stays(down, players[j]);
    assert players[j] in stay;
    var k :| 0 <= k < |stay| && stay[k] == players[j];
    assert Scores(down)[i] <= Max(Scores(down));
    assert Min(Scores(stay)) <= Scores(stay)[k];
  }

  /** C7: no downfloater scores more than an active player who stays. */
  function CheckC7(c: Context): (r: CriterionResult)
    ensures r.criterion == 7
    ensures r.status == NotApplicable <==> c.down == []
    ensures r.status == Violation <==> HigherDownfloater(c)
    ensures r.kind.Some? <==> r.status == Violation
    ensures r.kind.Some? ==> r.kind.value == Quality
    ensures WellKinded(r)
  {
    if c.down == [] then Skipped(7)
    else
      var stay := Filter(c.players, (p: Player) => Stays(c.down, p));
      AboveStayerByExtremes(c.down, c.players);
      if stay != [] && Max(Scores(c.down)) > Min(Scores(stay)) then Flagged(7, Quality)
      else Passed(7)
  }

  /** A player `d` could still meet in a lower bracket: someone else, not
      scoring more, not met before. */
  predicate LowerCandidate(d: Player, p: Player, previous: set<set<string>>) {
    p.id != d.id && p.score <= d.score && Key(p, d) !in previous
  }

  /** Some downfloater has no possible opponent left. */
  predicate StrandedDownfloater(c: Context) {
    exists i :: 0 <= i < |c.down|
                && forall j :: 0 <= j < |c.players| ==> !LowerCandidate(c.down[i], c.players[j], c.previous)
  }

  /** C8: every downfloater still has a possible opponent. */
  function CheckC8(c: Context): (r: CriterionResult)
    ensures r.criterion == 8
    ensures r.status == NotApplicable <==> c.down == []
    ensures r.status == Violation <==> StrandedDownfloater(c)
    ensures r.kind.Some? <==> r.status == Violation
    ensures r.kind.Some? ==> r.kind.value == Quality
    ensures WellKinded(r)
  {
    if c.down == [] then Skipped(8)
    else if Any(c.down, (d: Player) => !Any(c.players, (p: Player) => LowerCandidate(d, p, c.previous))) then
      Flagged(8, Quality)
    else Passed(8)
  }

  /** Rounds before the current one that the player did not play. */
  function Unplayed(p: Player, currentRound: int): int {
    currentRound - 1 - CountPlayedGames(p)
  }

  /** The entry for `id` of the dictionary built from `ps` (the last player
      with that id wins). */
  function LastWithId(ps: seq<Player>, id: string): (r: Option<Player>)
    ensures r.Some? ==> r.value in ps && r.value.id == id
    ensures r.None? <==> id !in Ids(ps)
  {
    if |ps| == 0 then None
    else if ps[|ps| - 1].id == id then Some(ps[|ps| - 1])
    else
      var r := LastWithId(ps[..|ps| - 1], id);
      assert Ids(ps) == Ids(ps[..|ps| - 1]) + {ps[|ps| - 1].id};
      r
  }

  /** The bye player's unplayed count as C9 reads it: zero when the bye
      player is not eligible. */
  function ByeUnplayed(c: Context): int
    requires c.bye.Some?
  {
    match LastWithId(c.eligible, c.bye.value.id)
    case None => 0
    case Some(e) => Unplayed(e, c.currentRound)
  }

  function UnplayedCounts(ps: seq<Player>, currentRound: int): (r: seq<int>)
    ensures |r| == |ps| && forall i :: 0 <= i < |ps| ==> r[i] == Unplayed(ps[i], currentRound)
  {
    seq(|ps|, i requires 0 <= i < |ps| => Unplayed(ps[i], currentRound))
  }

  /** An eligible player has fewer unplayed rounds than the bye player. */
  predicate FewerUnplayed(c: Context) {
    c.bye.Some? && exists i :: 0 <= i < |c.eligible| && Unplayed(c.eligible[i], c.currentRound) < ByeUnplayed(c)
  }

  /** C9: the bye goes to an eligible player with fewest unplayed rounds. */
  function CheckC9(c: Context): (r: CriterionResult)
    ensures r.criterion == 9
    ensures r.status == NotApplicable <==> c.bye.None? || c.eligible == []
    ensures r.status == Violation <==> FewerUnplayed(c)
    ensures r.kind.Some? <==> r.status == Violation
    ensures r.kind.Some? ==> r.kind.value == Quality
    ensures WellKinded(r)
  {
    if c.bye.None? || c.eligible == [] then Skipped(9)
    else if ByeUnplayed(c) > MinInt(UnplayedCounts(c.eligible, c.currentRound)) then Flagged(9, Quality)
    else Passed(9)
  }

  /** A pairing with a topscorer on either side. */
  predicate TopscorerPairing(pr: Pairing, currentRound: int, totalRounds: int) {
    IsTopscorer(pr.0, currentRound, totalRounds) || IsTopscorer(pr.1, currentRound, totalRounds)
  }

  /** A player in a topscorer pairing whose colour difference would exceed two. */
  predicate ExcessDifference(pr: Pairing) {
    Abs(ColorDifference(pr.0.colorHistory, Some(White))) > 2
    || Abs(ColorDifference(pr.1.colorHistory, Some(Black))) > 2
  }

  predicate TopscorerExcess(c: Context) {
    exists i :: 0 <= i < |c.pairings|
                && TopscorerPairing(c.pairings[i], c.currentRound, c.totalRounds) && ExcessDifference(c.pairings[i])
  }

  /** C10 (final round): topscorer pairings keep colour differences within two. */
  function CheckC10(c: Context): (r: CriterionResult)
    ensures r.criterion == 10 && r.status != NotApplicable
    ensures r.status == Violation <==> TopscorerExcess(c)
    ensures r.kind.Some? <==> r.status == Violation
    ensures r.kind.Some? ==> r.kind.value == Quality
    ensures WellKinded(r)
  {
    if Any(c.pairings, (pr: Pairing) => TopscorerPairing(pr, c.currentRound, c.totalRounds) && ExcessDifference(pr))
    then Flagged(10, Quality)
    else Passed(10)
  }

  /** White makes the difference exceed two exactly when the player already
      has two more whites than blacks, or four more blacks. */
  lemma ExcessDifferenceMeaning(h: History)
    ensures Abs(ColorDifference(h, Some(White))) > 2 <==> Diff(Played(h)) >= 2 || Diff(Played(h)) <= -4
    ensures Abs(ColorDifference(h, Some(Black))) > 2 <==> Diff(Played(h)) <= -2 || Diff(Played(h)) >= 4
  {
  }

  predicate ThirdInARow(pr: Pairing) {
    ThreeConsecutive(pr.0.colorHistory, Some(White)) || ThreeConsecutive(pr.1.colorHistory, Some(Black))
  }

  predicate TopscorerThird(c: Context) {
    exists i :: 0 <= i < |c.pairings|
                && TopscorerPairing(c.pairings[i], c.currentRound, c.totalRounds) && ThirdInARow(c.pairings[i])
  }

  /** C11 (final round): no topscorer pairing gives a colour three times running. */
  function CheckC11(c: Context): (r: CriterionResult)
    ensures r.criterion == 11 && r.status != NotApplicable
    ensures r.status == Violation <==> TopscorerThird(c)
    ensures r.kind.Some? <==> r.status == Violation
    ensures r.kind.Some? ==> r.kind.value == Quality
    ensures WellKinded(r)
  {
    if Any(c.pairings, (pr: Pairing) => TopscorerPairing(pr, c.currentRound, c.totalRounds) && ThirdInARow(pr))
    then Flagged(11, Quality)
    else Passed(11)
  }

  /** A colour is a third in a row exactly when the last two games were
      played with it. */
  lemma ThirdInARowMeaning(h: History, c: Color)
    ensures ThreeConsecutive(h, Some(c)) <==>
              (var s := Played(h); |s| >= 2 && s[|s| - 1] == c && s[|s| - 2] == c)
  {
    var s := Played(h);
    var t := WithAssigned(h, Some(c));
    assert t == s + [c];
    if |s| >= 2 {
      assert t[|t| - 2] == s[|s| - 1] && t[|t| - 3] == s[|s| - 2];
    }
  }

  /** A paired player given a colour other than the one they prefer. */
  predicate MissesPreference(p: Player, given: map<string, Option<Color>>) {
    p.id in given && given[p.id].Some?
    && Preference(p.colorHistory).Some? && given[p.id] != Preference(p.colorHistory)
  }

  predicate SomeMiss(c: Context) {
    exists i :: 0 <= i < |c.players| && MissesPreference(c.players[i], c.given)
  }

  predicate SomeStrongMiss(c: Context) {
    exists i :: 0 <= i < |c.players|
                && StrongPref(c.players[i].colorHistory) && MissesPreference(c.players[i], c.given)
  }

  /** C12: players get their colour preference. */
  function CheckC12(c: Context): (r: CriterionResult)
    ensures r.criterion == 12 && r.status != NotApplicable
    ensures r.status == Violation <==> SomeMiss(c)
    ensures r.kind.Some? <==> r.status == Violation
    ensures r.kind.Some? ==> r.kind.value == Quality
    ensures WellKinded(r)
  {
    if Any(c.players, (p: Player) => MissesPreference(p, c.given)) then Flagged(12, Quality)
    else Passed(12)
  }

  /** C13: players get their strong colour preference. */
  function CheckC13(c: Context): (r: CriterionResult)
    ensures r.criterion == 13 && r.status != NotApplicable
    ensures r.status == Violation <==> SomeStrongMiss(c)
    ensures r.kind.Some? <==> r.status == Violation
    ensures r.kind.Some? ==> r.kind.value == Quality
    ensures WellKinded(r)
  {
    if Any(c.players, (p: Player) => StrongPref(p.colorHistory) && MissesPreference(p, c.given)) then
      Flagged(13, Quality)
    else Passed(13)
  }

  /** Every strong-preference miss is a preference miss. */
  lemma StrongMissIsMiss(c: Context)
    ensures CheckC13(c).status == Violation ==> CheckC12(c).status == Violation
  {
  }

  predicate FloatedBefore(floaters: seq<Player>, roundsBack: int, currentRound: int, direction: FloatDir) {
    exists i :: 0 <= i < |floaters| && FloatType(floaters[i], roundsBack, currentRound) == direction
  }

  /** C14-C17: none of `floaters` floated in `direction` `roundsBack`
      rounds before (downfloaters checked for down, MDP opponents for up). */
  function CheckRepeatFloat(name: nat, floaters: seq<Player>, roundsBack: int, currentRound: int,
                            direction: FloatDir): (r: CriterionResult)
    ensures r.criterion == name && r.status != NotApplicable
    ensures r.status == Violation <==> FloatedBefore(floaters, roundsBack, currentRound, direction)
    ensures r.kind.Some? <==> r.status == Violation
    ensures r.kind.Some? ==> r.kind.value == Quality
    ensures WellKinded(r)
  {
    if Any(floaters, (p: Player) => FloatType(p, roundsBack, currentRound) == direction) then
      Flagged(name, Quality)
    else Passed(name)
  }

  /** The player of an unequal pairing C18-C21 look at: the higher one for
      a repeated downfloat, the lower one for a repeated upfloat. */
  function Floater(pr: Pairing, direction: FloatDir): Player {
    if direction == FloatDown then Higher(pr) else Lower(pr)
  }

  predicate PairFloatedBefore(ps: seq<Pairing>, roundsBack: int, currentRound: int, direction: FloatDir) {
    exists i :: 0 <= i < |ps| && Unequal(ps[i])
                && FloatType(Floater(ps[i], direction), roundsBack, currentRound) == direction
  }

  /** C18-C21: no unequal pairing floats a player in `direction` again. */
  function CheckFloatScores(name: nat, ps: seq<Pairing>, roundsBack: int, currentRound: int,
                            direction: FloatDir): (r: CriterionResult)
    requires direction != FloatNone
    ensures r.criterion == name && r.status != NotApplicable
    ensures r.status == Violation <==> PairFloatedBefore(ps, roundsBack, currentRound, direction)
    ensures r.kind.Some? <==> r.status == Violation
    ensures r.kind.Some? ==> r.kind.value == Quality
    ensures WellKinded(r)
  {
    if Any(ps, (pr: Pairing) => Unequal(pr) && FloatType(Floater(pr, direction), roundsBack, currentRound) == direction)
    then Flagged(name, Quality)
    else Passed(name)
  }

  /** A repeated-downfloat score difference is only found where a repeated
      downfloater is: a C18 violation implies a C14 one, and C20 implies C16. */
  lemma DownScoresImplyRepeat(ps: seq<Pairing>, bye: Option<Player>, roundsBack: int, currentRound: int)
    requires PairFloatedBefore(ps, roundsBack, currentRound, FloatDown)
    ensures FloatedBefore(Floaters(ps, bye).0, roundsBack, currentRound, FloatDown)
  {
    var i :| 0 <= i < |ps| && Unequal(ps[i])
             && FloatType(Floater(ps[i], FloatDown), roundsBack, currentRound) == FloatDown;
    UnequalPairingFloats(ps, bye, i);
    var down := Floaters(ps, bye).0;
    var k :| 0 <= k < |down| && down[k] == Higher(ps[i]);
    assert FloatType(down[k], roundsBack, currentRound) == FloatDown;
  }

  /** Likewise for upfloats: C19 implies C15, and C21 implies C17. */
  lemma UpScoresImplyRepeat(ps: seq<Pairing>, bye: Option<Player>, roundsBack: int, currentRound: int)
    requires PairFloatedBefore(ps, roundsBack, currentRound, FloatUp)
    ensures FloatedBefore(Floaters(ps, bye).2, roundsBack, currentRound, FloatUp)
  {
    var i :| 0 <= i < |ps| && Unequal(ps[i])
             && FloatType(Floater(ps[i], FloatUp), roundsBack, currentRound) == FloatUp;
    UnequalPairingFloats(ps, bye, i);
    var mdp := Floaters(ps, bye).2;
    var k :| 0 <= k < |mdp| && mdp[k] == Lower(ps[i]);
    assert FloatType(mdp[k], roundsBack, currentRound) == FloatUp;
  }

  /** The number of quality results of a round: C4-C9, C12 and C13 always,
      C10 and C11 in the final round, C14, C15, C18 and C19 from round two,
      C16, C17, C20 and C21 from round three. */
  function QualityCount(currentRound: int, totalRounds: int): int {
    8 + (if currentRound == totalRounds && totalRounds != 0 then 2 else 0)
    + (if currentRound >= 2 then 4 else 0) + (if currentRound >= 3 then 4 else 0)
  }

  /** A result whose kind is set exactly when it is a violation, and which
      is absolute only for C4. */
  predicate WellKinded(r: CriterionResult) {
    (r.kind.Some? <==> r.status == Violation) && (r.kind == Some(Absolute) ==> r.criterion == 4)
  }

  /** Every result of `r` is well kinded and named outside `names`. */
  predicate KindedOutside(r: seq<CriterionResult>, names: set<nat>) {
    forall i :: 0 <= i < |r| ==> WellKinded(r[i]) && r[i].criterion !in names
  }

  // The quality results are assembled from small groups so that each
  // group's facts are proved on their own.

  /** Some result of `r` is for criterion `n`. */
  predicate HasCriterion(r: seq<CriterionResult>, n: nat) {
    exists i :: 0 <= i < |r| && r[i].criterion == n
  }

  lemma HasCriterionAppend(a: seq<CriterionResult>, b: seq<CriterionResult>, n: nat)
    ensures HasCriterion(a + b, n) <==> HasCriterion(a, n) || HasCriterion(b, n)
  {
    if HasCriterion(a + b, n) {
      var i :| 0 <= i < |a + b| && (a + b)[i].criterion == n;
      if i >= |a| {
        assert b[i - |a|].criterion == n;
      }
    }
    if HasCriterion(a, n) {
      var i :| 0 <= i < |a| && a[i].criterion == n;
      assert (a + b)[i].criterion == n;
    }
    if HasCriterion(b, n) {
      var i :| 0 <= i < |b| && b[i].criterion == n;
      assert (a + b)[|a| + i].criterion == n;
    }
  }

  lemma KindedAppend(a: seq<CriterionResult>, b: seq<CriterionResult>, small: set<nat>,
                     na: set<nat>, nb: set<nat>)
    requires KindedOutside(a, na) && KindedOutside(b, nb) && small <= na && small <= nb
    ensures KindedOutside(a + b, small)
  {
    forall i | 0 <= i < |a + b|
      ensures WellKinded((a + b)[i]) && (a + b)[i].criterion !in small
    {
      if i >= |a| {
        assert (a + b)[i] == b[i - |a|];
      }
    }
  }

  /** A group that is either left out or leads with criterion `n`; no
      other group has `n`. */
  predicate Gated(g: seq<CriterionResult>, on: bool, n: nat) {
    (on ==> |g| > 0 && g[0].criterion == n) && (!on ==> !HasCriterion(g, n))
  }

  lemma GatedHas(g: seq<CriterionResult>, on: bool, n: nat)
    requires Gated(g, on, n)
    ensures HasCriterion(g, n) <==> on
  {
    if on {
      assert g[0].criterion == n;
    }
  }

  lemma KindedLacks(g: seq<CriterionResult>, names: set<nat>, n: nat)
    requires KindedOutside(g, names) && n in names
    ensures !HasCriterion(g, n)
  {
  }

  lemma KindedPair(a: CriterionResult, b: CriterionResult, names: set<nat>)
    requires WellKinded(a) && WellKinded(b) && a.criterion !in names && b.criterion !in names
    ensures KindedOutside([a, b], names)
  {
  }

  function BracketChecks(c: Context): (r: seq<CriterionResult>)
    ensures |r| == 2 && KindedOutside(r, {4, 10, 14, 16})
  {
    KindedPair(CheckC5(c), CheckC6(c), {4, 10, 14, 16});
    [CheckC5(c), CheckC6(c)]
  }

  function FloaterChecks(c: Context): (r: seq<CriterionResult>)
    ensures |r| == 2 && KindedOutside(r, {4, 10, 14, 16})
  {
    KindedPair(CheckC7(c), CheckC8(c), {4, 10, 14, 16});
    [CheckC7(c), CheckC8(c)]
  }

  function ByeChecks(c: Context): (r: seq<CriterionResult>)
    ensures |r| == 1 && KindedOutside(r, {4, 10, 14, 16})
  {
    [CheckC9(c)]
  }

  predicate IsFinalRound(c: Context) {
    c.currentRound == c.totalRounds && c.totalRounds != 0
  }

  /** C10 and C11, checked in the final round only. */
  function FinalRound(c: Context): (r: seq<CriterionResult>)
    ensures |r| == if IsFinalRound(c) then 2 else 0
    ensures Gated(r, IsFinalRound(c), 10) && KindedOutside(r, {4, 14, 16})
  {
    if IsFinalRound(c) then [CheckC10(c), CheckC11(c)] else []
  }

  function PreferenceChecks(c: Context): (r: seq<CriterionResult>)
    ensures |r| == 2 && KindedOutside(r, {4, 10, 14, 16})
  {
    [CheckC12(c), CheckC13(c)]
  }

  /** C14 and C15, checked from round two. */
  function RepeatFloats(c: Context): (r: seq<CriterionResult>)
    ensures |r| == if c.currentRound >= 2 then 2 else 0
    ensures Gated(r, c.currentRound >= 2, 14) && KindedOutside(r, {4, 10, 16})
  {
    if c.currentRound < 2 then []
    else
      [CheckRepeatFloat(14, c.down, 1, c.currentRound, FloatDown),
       CheckRepeatFloat(15, c.mdp, 1, c.currentRound, FloatUp)]
  }

  /** C16 and C17, checked from round three. */
  function EarlierFloats(c: Context): (r: seq<CriterionResult>)
    ensures |r| == if c.currentRound >= 3 then 2 else 0
    ensures Gated(r, c.currentRound >= 3, 16) && KindedOutside(r, {4, 10, 14})
  {
    if c.currentRound < 3 then []
    else
      [CheckRepeatFloat(16, c.down, 2, c.currentRound, FloatDown),
       CheckRepeatFloat(17, c.mdp, 2, c.currentRound, FloatUp)]
  }

  /** C18 and C19, checked from round two. */
  function RepeatFloatScores(c: Context): (r: seq<CriterionResult>)
    ensures |r| == if c.currentRound >= 2 then 2 else 0
    ensures KindedOutside(r, {4, 10, 14, 16})
  {
    if c.currentRound < 2 then []
    else
      [CheckFloatScores(18, c.pairings, 1, c.currentRound, FloatDown),
       CheckFloatScores(19, c.pairings, 1, c.currentRound, FloatUp)]
  }

  /** C20 and C21, checked from round three. */
  function EarlierFloatScores(c: Context): (r: seq<CriterionResult>)
    ensures |r| == if c.currentRound >= 3 then 2 else 0
    ensures KindedOutside(r, {4, 10, 14, 16})
  {
    if c.currentRound < 3 then []
    else
      [CheckFloatScores(20, c.pairings, 2, c.currentRound, FloatDown),
       CheckFloatScores(21, c.pairings, 2, c.currentRound, FloatUp)]
  }

  /** The results after C4: C5-C9, then C10-C11 in the final round, then
      C12-C13, then C14-C15 and C16-C17, then C18-C19 and C20-C21. */
  function QualityTail(c: Context): seq<CriterionResult> {
    BracketChecks(c) + FloaterChecks(c) + ByeChecks(c) + FinalRound(c) + PreferenceChecks(c)
    + RepeatFloats(c) + EarlierFloats(c) + RepeatFloatScores(c) + EarlierFloatScores(c)
  }

  /** The facts of the assembled list, stated over the groups so that the
      checks themselves are not unfolded. */
  lemma {:induction false} AssembleFacts(
    head: CriterionResult, g1: seq<CriterionResult>, g2: seq<CriterionResult>,
    g3: seq<CriterionResult>, fin: seq<CriterionResult>, g4: seq<CriterionResult>,
    rep: seq<CriterionResult>, early: seq<CriterionResult>, g5: seq<CriterionResult>,
    g6: seq<CriterionResult>, isFinal: bool, two: bool, three: bool)
    requires KindedOutside(g1, {4, 10, 14, 16}) && KindedOutside(g2, {4, 10, 14, 16})
    requires KindedOutside(g3, {4, 10, 14, 16}) && KindedOutside(g4, {4, 10, 14, 16})
    requires KindedOutside(g5, {4, 10, 14, 16}) && KindedOutside(g6, {4, 10, 14, 16})
    requires KindedOutside(fin, {4, 14, 16}) && Gated(fin, isFinal, 10)
    requires KindedOutside(rep, {4, 10, 16}) && Gated(rep, two, 14)
    requires KindedOutside(early, {4, 10, 14}) && Gated(early, three, 16)
    ensures var tail := g1 + g2 + g3 + fin + g4 + rep + early + g5 + g6;
            KindedOutside(tail, {4})
            && (HasCriterion([head] + tail, 10) <==> head.criterion == 10 || isFinal)
            && (HasCriterion([head] + tail, 14) <==> head.criterion == 14 || two)
            && (HasCriterion([head] + tail, 16) <==> head.criterion == 16 || three)
  {
    var t1 := g1 + g2 + g3;
    KindedAppend(g1, g2, {4, 10, 14, 16}, {4, 10, 14, 16}, {4, 10, 14, 16});
    KindedAppend(g1 + g2, g3, {4, 10, 14, 16}, {4, 10, 14, 16}, {4, 10, 14, 16});
    var t2 := t1 + fin + g4;
    KindedAppend(t1, fin, {4}, {4, 10, 14, 16}, {4, 14, 16});
    KindedAppend(t1 + fin, g4, {4}, {4}, {4, 10, 14, 16});
    var t3 := t2 + rep + early;
    KindedAppend(t2, rep, {4}, {4}, {4, 10, 16});
    KindedAppend(t2 + rep, early, {4}, {4}, {4, 10, 14});
    var tail := t3 + g5 + g6;
    KindedAppend(t3, g5, {4}, {4}, {4, 10, 14, 16});
    KindedAppend(t3 + g5, g6, {4}, {4}, {4, 10, 14, 16});
    GatedHas(fin, isFinal, 10);
    GatedHas(rep, two, 14);
    GatedHas(early, three, 16);
    var parts := [g1, g2, g3, fin, g4, rep, early, g5, g6];
    forall n | n in {10, 14, 16}
      ensures HasCriterion([head] + tail, n) <==>
                head.criterion == n || HasCriterion(fin, n) || HasCriterion(rep, n) || HasCriterion(early, n)
    {
      KindedLacks(g1, {4, 10, 14, 16}, n);
      KindedLacks(g2, {4, 10, 14, 16}, n);
      KindedLacks(g3, {4, 10, 14, 16}, n);
      KindedLacks(g4, {4, 10, 14, 16}, n);
      KindedLacks(g5, {4, 10, 14, 16}, n);
      KindedLacks(g6, {4, 10, 14, 16}, n);
      HasCriterionAppend(g1, g2, n);
      HasCriterionAppend(g1 + g2, g3, n);
      HasCriterionAppend(t1, fin, n);
      HasCriterionAppend(t1 + fin, g4, n);
      HasCriterionAppend(t2, rep, n);
      HasCriterionAppend(t2 + rep, early, n);
      HasCriterionAppend(t3, g5, n);
      HasCriterionAppend(t3 + g5, g6, n);
      HasCriterionAppend([head], tail, n);
      assert HasCriterion([head], n) <==> head.criterion == n by {
        assert [head][0] == head;
      }
    }
    if !isFinal {
      KindedLacks(rep, {4, 10, 16}, 10);
      KindedLacks(early, {4, 10, 14}, 10);
    }
    KindedLacks(fin, {4, 14, 16}, 14);
    KindedLacks(early, {4, 10, 14}, 14);
    KindedLacks(fin, {4, 14, 16}, 16);
    KindedLacks(rep, {4, 10, 16}, 16);
    KindedLacks(rep, {4, 10, 16}, 10);
    KindedLacks(early, {4, 10, 14}, 10);
  }

  /** `check_all_quality_criteria`: C4 first, then the tail. */
  function CheckAllQuality(ps: seq<Pairing>, bye: Option<Player>, players: seq<Player>,
                           currentRound: int, totalRounds: int, previous: set<set<string>>)
    : (r: seq<CriterionResult>)
    ensures |r| == QualityCount(currentRound, totalRounds)
    ensures r[0] == CheckC4(BuildContext(ps, bye, players, currentRound, totalRounds, previous))
    ensures WellKinded(r[0]) && KindedOutside(r[1..], {4})
    ensures HasCriterion(r, 10) <==> currentRound == totalRounds && totalRounds != 0
    ensures HasCriterion(r, 14) <==> currentRound >= 2
    ensures HasCriterion(r, 16) <==> currentRound >= 3
  {
    var c := BuildContext(ps, bye, players, currentRound, totalRounds, previous);
    var head := CheckC4(c);
    var tail := QualityTail(c);
    QualityTailFacts(c, head);
    assert ([head] + tail)[1..] == tail;
    [head] + tail
  }

  lemma QualityTailFacts(c: Context, head: CriterionResult)
    requires head.criterion == 4
    ensures var tail := QualityTail(c);
            |tail| == QualityCount(c.currentRound, c.totalRounds) - 1
            && KindedOutside(tail, {4})
            && (HasCriterion([head] + tail, 10) <==> IsFinalRound(c))
            && (HasCriterion([head] + tail, 14) <==> c.currentRound >= 2)
            && (HasCriterion([head] + tail, 16) <==> c.currentRound >= 3)
  {
    AssembleFacts(head, BracketChecks(c), FloaterChecks(c), ByeChecks(c), FinalRound(c), PreferenceChecks(c),
                  RepeatFloats(c), EarlierFloats(c), RepeatFloatScores(c), EarlierFloatScores(c),
                  IsFinalRound(c), c.currentRound >= 2, c.currentRound >= 3);
  }

  // ---------------------------------------------------------- the report

  /** A `ValidationReport`; the summary text is left out. */
  datatype Report = Report(
    total: int, compliant: int, violations: seq<CriterionResult>, warnings: seq<CriterionResult>,
    overall: Status, results: seq<CriterionResult>)

  predicate IsCompliant(r: CriterionResult) {
    r.status == Compliant
  }

  predicate IsAbsoluteViolation(r: CriterionResult) {
    r.status == Violation && r.kind == Some(Absolute)
  }

  predicate IsQualityWarning(r: CriterionResult) {
    r.status == Violation && r.kind == Some(Quality)
  }

  /** `compliance_percentage`. */
  function CompliancePercentage(rep: Report): (r: real)
    ensures rep.total == 0 ==> r == 100.0
    ensures 0 <= rep.compliant <= rep.total ==> 0.0 <= r <= 100.0
    ensures 0 < rep.total == rep.compliant ==> r == 100.0
    ensures 0 < rep.total && rep.compliant == 0 ==> r == 0.0
  {
    if rep.total == 0 then 100.0 else (rep.compliant as real / rep.total as real) * 100.0
  }

  /** The players a round report checks: the ones supplied, or when none
      are, everyone in the pairings and the bye player. */
  function RoundPlayers(ps: seq<Pairing>, bye: Option<Player>, players: seq<Player>): (r: seq<Player>)
    ensures players != [] ==> r == players
    ensures players == [] ==> |r| == 2 * |ps| + |ByeIds(bye)|
  {
    if players != [] then players
    else
      (seq(2 * |ps|, i requires 0 <= i < 2 * |ps| => if i % 2 == 0 then ps[i / 2].0 else ps[i / 2].1))
      + (if bye.Some? then [bye.value] else [])
  }

  /** The report over a list of results: every result counts towards the
      total, absolute violations fail the round, quality violations are
      warnings. */
  function ReportOf(all: seq<CriterionResult>): (rep: Report)
    ensures rep.total == |rep.results| && rep.results == all
    ensures 0 <= rep.compliant <= rep.total
    ensures rep.compliant == |Filter(all, IsCompliant)|
    ensures forall v :: v in rep.violations <==> v in all && IsAbsoluteViolation(v)
    ensures forall w :: w in rep.warnings <==> w in all && IsQualityWarning(w)
    ensures rep.overall != NotApplicable
    ensures rep.overall == Violation <==> rep.violations != []
  {
    var violations := Filter(all, IsAbsoluteViolation);
    Report(|all|, |Filter(all, IsCompliant)|, violations, Filter(all, IsQualityWarning),
           if violations != [] then Violation else Compliant, all)
  }

  /** When C1-C3 can only fail absolutely and nothing after C4 is absolute,
      the round fails exactly when one of the first four does. */
  lemma AbsoluteOnlyInFirstFour(all: seq<CriterionResult>)
    requires |all| >= 4
    requires forall i :: 0 <= i < 3 ==> (all[i].status == Violation ==> IsAbsoluteViolation(all[i]))
    requires KindedOutside(all[4..], {4})
    ensures Filter(all, IsAbsoluteViolation) != [] <==>
              all[0].status == Violation || all[1].status == Violation
              || all[2].status == Violation || IsAbsoluteViolation(all[3])
  {
    var violations := Filter(all, IsAbsoluteViolation);
    forall j | 4 <= j < |all|
      ensures !IsAbsoluteViolation(all[j])
    {
      assert all[j] == all[4..][j - 4];
    }
    if exists i :: 0 <= i < 4 && IsAbsoluteViolation(all[i]) {
      var i :| 0 <= i < 4 && IsAbsoluteViolation(all[i]);
      assert all[i] in violations;
    }
  }

  /** The results a report over C1-C3 and the quality results may be
      combined from: quality results past C4 are never absolute, and C1-C3
      fail only absolutely. */
  predicate Combinable(c1: CriterionResult, c2: CriterionResult, c3: CriterionResult, quality: seq<CriterionResult>) {
    && |quality| > 0 && KindedOutside(quality[1..], {4})
    && (c1.status == Violation ==> IsAbsoluteViolation(c1))
    && (c2.status == Violation ==> IsAbsoluteViolation(c2))
    && (c3.status == Violation ==> IsAbsoluteViolation(c3))
  }

  /** A round report: it summarises its results, which are C1-C3 followed
      by `count` quality results, and only C1-C3 and an unavoidable C4 fail
      the round. */
  predicate SummarisesRound(rep: Report, c1: CriterionResult, c2: CriterionResult, c3: CriterionResult, count: int) {
    && rep == ReportOf(rep.results)
    && count > 0 && |rep.results| == 3 + count
    && rep.results[..3] == [c1, c2, c3]
    && (rep.overall == Violation <==>
          c1.status == Violation || c2.status == Violation || c3.status == Violation
          || IsAbsoluteViolation(rep.results[3]))
  }

  /** The report over C1-C3 followed by the quality results. */
  function CombineResults(c1: CriterionResult, c2: CriterionResult, c3: CriterionResult,
                          quality: seq<CriterionResult>): (rep: Report)
    requires Combinable(c1, c2, c3, quality)
    ensures rep.results == [c1, c2, c3] + quality
    ensures SummarisesRound(rep, c1, c2, c3, |quality|)
  {
    var all := [c1, c2, c3] + quality;
    assert all[..3] == [c1, c2, c3];
    assert all[4..] == quality[1..];
    AbsoluteOnlyInFirstFour(all);
    ReportOf(all)
  }

  /** `validate_round_pairings`. */
  function ValidateRoundPairings(ps: seq<Pairing>, bye: Option<Player>, currentRound: int, totalRounds: int,
                                 previous: set<set<string>>, byeHistory: map<string, int>,
                                 players: seq<Player>): (rep: Report)
    ensures SummarisesRound(rep, CheckC1(ps, previous), CheckC2(bye, byeHistory),
                            CheckC3(ps, currentRound, totalRounds), QualityCount(currentRound, totalRounds))
  {
    var quality := CheckAllQuality(ps, bye, RoundPlayers(ps, bye, players), currentRound, totalRounds, previous);
    CombineResults(CheckC1(ps, previous), CheckC2(bye, byeHistory), CheckC3(ps, currentRound, totalRounds), quality)
  }

  // -------------------------------------------------------- feasibility

  /** `check_tournament_feasibility`: when the rounds need more pairings
      than there are distinct pairs of players, the C1 violation and the
      least number of repeat pairings; otherwise none. */
  function Feasibility(numPlayers: int, numRounds: int): (r: Option<(CriterionResult, int)>)
    ensures numPlayers < 2 || numRounds < 1 ==> r.None?
    ensures r.Some? <==>
              numPlayers >= 2 && numRounds >= 1
              && numRounds * (numPlayers / 2) > numPlayers * (numPlayers - 1) / 2
    ensures r.Some? ==>
              r.value.1 == numRounds * (numPlayers / 2) - numPlayers * (numPlayers - 1) / 2 > 0
              && r.value.0.criterion == 1 && IsAbsoluteViolation(r.value.0)
  {
    if numPlayers < 2 || numRounds < 1 then None
    else
      var maxUnique := numPlayers * (numPlayers - 1) / 2;
      var needed := numRounds * (numPlayers / 2);
      if needed > maxUnique then Some((Flagged(1, Absolute), needed - maxUnique)) else None
  }

  lemma MulLeCancel(a: int, b: int, m: int)
    requires m > 0
    ensures a * m <= b * m <==> a <= b
  {
    if a <= b {
      assert b * m - a * m == (b - a) * m;
    } else {
      assert a * m - b * m == (a - b) * m;
    }
  }

  /** A configuration is feasible exactly when it has no more rounds than a
      round robin: n - 1 rounds for an even number n of players, n rounds
      for an odd number. */
  lemma FeasibleIffRoundRobinBound(numPlayers: int, numRounds: int)
    requires numPlayers >= 2 && numRounds >= 1
    ensures Feasibility(numPlayers, numRounds).None? <==>
              numRounds <= (if numPlayers % 2 == 0 then numPlayers - 1 else numPlayers)
  {
    var n := numPlayers;
    var m := n / 2;
    if n % 2 == 0 {
      assert n == 2 * m;
      assert n * (n - 1) == 2 * (m * (n - 1));
      assert n * (n - 1) / 2 == (n - 1) * m;
      MulLeCancel(numRounds, n - 1, m);
    } else {
      assert n == 2 * m + 1;
      assert n * (n - 1) == 2 * (n * m);
      assert n * (n - 1) / 2 == n * m;
      MulLeCancel(numRounds, n, m);
    }
  }
}
