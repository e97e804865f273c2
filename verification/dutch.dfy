/** The pure pieces of the Dutch-system engine, pairing/dutch_swiss.py:
    topscorers (Article 1.7), PSD lists (Article 1.8), round-one pairing,
    colour allocation (Article 5.2), greedy bracket pairing, MDP sets
    (Article 4.4) and the choice of the best bracket configuration by the
    quality criteria C6-C21. The engine attaches a pairing number and a
    bracket sequence number to each player; an `Entrant` carries both. */
module Dutch {
  import opened Wrappers
  import opened Colors
  import opened Players
  import opened Seqs
  import opened Sorting
  import opened Matching
  import Fpc

  datatype Entrant = Entrant(player: Player, pairingNumber: int, bsn: Option<int>)

  function Score(e: Entrant): real { e.player.score }

  function History(e: Entrant): History { e.player.colorHistory }

  // ------------------------------------------------------------ topscorers

  /** `_is_topscorer`: only when pairing the final round, and then a score
      above half of the points played so far. */
  function IsTopscorer(p: Player, currentRound: int, totalRounds: int): (b: bool)
    ensures b <==> Fpc.IsTopscorer(p, currentRound, totalRounds)
    ensures b ==> currentRound == totalRounds
  {
    if currentRound != totalRounds || totalRounds <= 0 then false
    else p.score > (currentRound - 1) as real * 0.5
  }

  // -------------------------------------------------------------- PSD lists

  /** `_compute_psd_list` before sorting: the score gap of each pair, then
      each downfloater's margin over the artificial score one below the
      bracket. */
  function PairGaps(pairings: seq<(Entrant, Entrant)>): (r: seq<real>)
    ensures |r| == |pairings|
    ensures forall i :: 0 <= i < |r| ==> r[i] >= 0.0
  {
    if pairings == [] then []
    else
      var d := Score(pairings[0].0) - Score(pairings[0].1);
      [if d < 0.0 then -d else d] + PairGaps(pairings[1..])
  }

  function FloatMargins(downfloaters: seq<Entrant>, bracketScore: real): (r: seq<real>)
    ensures |r| == |downfloaters|
    ensures forall i :: 0 <= i < |r| ==> r[i] == Score(downfloaters[i]) - (bracketScore - 1.0)
  {
    if downfloaters == [] then []
    else [Score(downfloaters[0]) - (bracketScore - 1.0)] + FloatMargins(downfloaters[1..], bracketScore)
  }

  /** The key that sorts numbers from highest to lowest. */
  function Descending(x: real): seq<real> { [-x] }

  /** `sorted(xs, reverse=True)` on numbers. */
  function SortDescending(xs: seq<real>): (r: seq<real>)
    ensures multiset(r) == multiset(xs) && |r| == |xs|
    ensures forall i, j :: 0 <= i < j < |r| ==> r[j] <= r[i]
  {
    var r := SortBy(xs, Descending);
    forall i, j | 0 <= i < j < |r| ensures r[j] <= r[i] {
      LexHead(Descending(r[i]), Descending(r[j]));
    }
    r
  }

  /** `_compute_psd_list`: one entry per pair and per downfloater, highest
      first; the pairs' entries are never negative. */
  function ComputePsdList(pairings: seq<(Entrant, Entrant)>, downfloaters: seq<Entrant>,
                          bracketScore: real): (r: seq<real>)
    ensures |r| == |pairings| + |downfloaters|
    ensures multiset(r) == multiset(PairGaps(pairings) + FloatMargins(downfloaters, bracketScore))
    ensures forall i, j :: 0 <= i < j < |r| ==> r[j] <= r[i]
  {
    SortDescending(PairGaps(pairings) + FloatMargins(downfloaters, bracketScore))
  }

  /** The tolerance `_compare_psd_lists` allows between two entries. */
  const Eps: real := 0.000000001

  /** `_compare_psd_lists`: lexicographic, entries within `Eps` count as
      equal, and a list that runs out first is smaller. */
  function ComparePsd(a: seq<real>, b: seq<real>): (r: int)
    ensures -1 <= r <= 1
  {
    if |a| == 0 || |b| == 0 then
      if |a| < |b| then -1 else if |a| > |b| then 1 else 0
    else if a[0] - b[0] < -Eps then -1
    else if a[0] - b[0] > Eps then 1
    else ComparePsd(a[1..], b[1..])
  }

  /** Equal PSD lists compare equal. */
  lemma {:induction false} PsdEqual(a: seq<real>)
    ensures ComparePsd(a, a) == 0
  {
    if |a| > 0 {
      PsdEqual(a[1..]);
    }
  }

  /** Swapping the arguments negates the comparison. */
  lemma {:induction false} PsdAntisymmetric(a: seq<real>, b: seq<real>)
    ensures ComparePsd(b, a) == -ComparePsd(a, b)
  {
    if |a| > 0 && |b| > 0 && -Eps <= a[0] - b[0] <= Eps {
      PsdAntisymmetric(a[1..], b[1..]);
    }
  }

  /** A strict prefix compares smaller. */
  lemma {:induction false} PsdPrefixSmaller(a: seq<real>, b: seq<real>)
    requires |a| < |b| && a == b[..|a|]
    ensures ComparePsd(a, b) == -1
  {
    if |a| > 0 {
      assert a[1..] == b[1..][..|a| - 1];
      PsdPrefixSmaller(a[1..], b[1..]);
    }
  }

  /** Where any two entries are equal or further apart than the tolerance
      (scores are multiples of a half), the PSD comparison is the plain
      lexicographic one. */
  lemma {:induction false} PsdIsLex(a: seq<real>, b: seq<real>)
    requires forall i :: 0 <= i < |a| && i < |b| ==> a[i] == b[i] || a[i] - b[i] > Eps || b[i] - a[i] > Eps
    ensures ComparePsd(a, b) == CompareLex(a, b)
  {
    if |a| > 0 && |b| > 0 && a[0] == b[0] {
      PsdIsLex(a[1..], b[1..]);
    }
  }

  // ---------------------------------------------------------- round one

  /** Round one orders by rating, highest first, then by pairing number. */
  function RatingKey(e: Entrant): seq<real> {
    [-(e.player.rating as real), e.pairingNumber as real]
  }

  /** Article 5.2.5: the higher-ranked player takes the initial colour when
      its pairing number is odd, the other colour when it is even. Python's
      `%` and Dafny's agree for the divisor 2. */
  function ByParity(higher: Entrant, lower: Entrant, initialColor: Color): (r: (Entrant, Entrant))
    ensures (higher.pairingNumber % 2 == 1) == (initialColor == White) ==> r == (higher, lower)
    ensures (higher.pairingNumber % 2 == 1) != (initialColor == White) ==> r == (lower, higher)
    ensures r == (higher, lower) || r == (lower, higher)
  {
    if higher.pairingNumber % 2 == 1 then
      if initialColor == White then (higher, lower) else (lower, higher)
    else
      if initialColor == White then (lower, higher) else (higher, lower)
  }

  /** The i-th of `top` against the i-th of `bottom`, colours by parity. */
  function PairHalves(top: seq<Entrant>, bottom: seq<Entrant>, initialColor: Color): (r: seq<(Entrant, Entrant)>)
    requires |top| == |bottom|
    ensures |r| == |top|
    ensures forall i :: 0 <= i < |r| ==> r[i] == ByParity(top[i], bottom[i], initialColor)
    ensures forall i :: 0 <= i < |r| ==> r[i] == (top[i], bottom[i]) || r[i] == (bottom[i], top[i])
  {
    if top == [] then []
    else [ByParity(top[0], bottom[0], initialColor)] + PairHalves(top[1..], bottom[1..], initialColor)
  }

  /** `_pair_round_one`: after ordering by rating, rank i of the top half
      meets rank i of the bottom half (the lowest-rated player is left over
      when the count is odd), colours by Article 5.2.5. The bye player it
      also returns is passed through, and its list of id pairs is read off
      the pairings. */
  function PairRoundOne(players: seq<Entrant>, initialColor: Color): (r: seq<(Entrant, Entrant)>)
    ensures |r| == |players| / 2
  {
    var s := SortBy(players, RatingKey);
    var h := |players| / 2;
    PairHalves(s[..h], s[h..2 * h], initialColor)
  }

  /** Rank i of the rating order meets rank i + n/2, the colours set by the
      higher-rated player's pairing number. */
  lemma RoundOneOpponents(players: seq<Entrant>, initialColor: Color)
    ensures var r := PairRoundOne(players, initialColor);
            var s := SortBy(players, RatingKey);
            forall i :: 0 <= i < |r| ==> r[i] == ByParity(s[i], s[i + |r|], initialColor)
  {
    Halves(SortBy(players, RatingKey), |players| / 2);
  }

  /** Everyone but the lowest-rated player of an odd field is paired, once. */
  lemma RoundOneMembers(players: seq<Entrant>, initialColor: Color)
    ensures var r := PairRoundOne(players, initialColor);
            && multiset(Members(r)) == multiset(SortBy(players, RatingKey)[..2 * (|players| / 2)])
            && (|players| % 2 == 0 ==> multiset(Members(r)) == multiset(players))
  {
    HalvesZip(PairRoundOne(players, initialColor), SortBy(players, RatingKey), |players| / 2);
  }

  /** `(p1, p2) if pref == WHITE else (p2, p1)`: the first player takes the
      colour `pref` names, Black when it names none. */
  function ByPreference(p1: Entrant, p2: Entrant, pref: Option<Color>): (r: (Entrant, Entrant))
    ensures pref == Some(White) ==> r == (p1, p2)
    ensures pref != Some(White) ==> r == (p2, p1)
  {
    if pref == Some(White) then (p1, p2) else (p2, p1)
  }

  /** `p1` plays colour `c` in the allocation `r`. */
  predicate FirstGets(r: (Entrant, Entrant), p1: Entrant, p2: Entrant, c: Color) {
    if c == White then r == (p1, p2) else r == (p2, p1)
  }

  /** `_find_most_recent_alternating_colors`: the last index at which the
      two players' played colours differ. */
  function MostRecentAlternating(h1: History, h2: History): (r: Option<nat>)
    ensures r.Some? ==> r.value < |Played(h1)| && r.value < |Played(h2)|
                        && Played(h1)[r.value] != Played(h2)[r.value]
    ensures forall i :: (if r.Some? then r.value + 1 else 0) <= i < |Played(h1)| && i < |Played(h2)| ==>
              Played(h1)[i] == Played(h2)[i]
  {
    var c1 := Played(h1);
    var c2 := Played(h2);
    LastDifference(c1, c2, if |c1| < |c2| then |c1| else |c2|)
  }

  function LastDifference(c1: seq<Color>, c2: seq<Color>, k: nat): (r: Option<nat>)
    requires k <= |c1| && k <= |c2|
    ensures r.Some? ==> r.value < k && c1[r.value] != c2[r.value]
    ensures forall i :: (if r.Some? then r.value + 1 else 0) <= i < k ==> c1[i] == c2[i]
  {
    if k == 0 then None
    else if c1[k - 1] != c2[k - 1] then Some(k - 1)
    else LastDifference(c1, c2, k - 1)
  }

  /** Ranking for Article 5.2.4: higher score first, then lower pairing number. */
  function RankKey(e: Entrant): seq<real> {
    [-Score(e), e.pairingNumber as real]
  }

  function HigherRanked(p1: Entrant, p2: Entrant): Entrant {
    if CompareLex(RankKey(p1), RankKey(p2)) < 0 then p1 else p2
  }

  function LowerRanked(p1: Entrant, p2: Entrant): Entrant {
    if CompareLex(RankKey(p1), RankKey(p2)) < 0 then p2 else p1
  }

  /** Article 5.2.2 as the engine applies it: the stronger preference wins,
      absolute over strong over mild; None falls through to 5.2.3. */
  function StrongerPreference(p1: Entrant, p2: Entrant): Option<(Entrant, Entrant)> {
    var h1 := History(p1);
    var h2 := History(p2);
    var pref1 := Preference(h1);
    var pref2 := Preference(h2);
    if AbsolutePref(h1) && AbsolutePref(h2) then
      var b1 := Abs(Diff(Played(h1)));
      var b2 := Abs(Diff(Played(h2)));
      if b1 > b2 then Some(ByPreference(p1, p2, pref1))
      else if b2 > b1 then Some(ByPreference(p2, p1, pref2))
      else None
    else if AbsolutePref(h1) then Some(ByPreference(p1, p2, pref1))
    else if AbsolutePref(h2) then Some(ByPreference(p2, p1, pref2))
    else if StrongPref(h1) && StrongPref(h2) then
      if pref1.Some? && pref2.Some? && pref1 != pref2 then Some(ByPreference(p1, p2, pref1)) else None
    else if StrongPref(h1) && !StrongPref(h2) then Some(ByPreference(p1, p2, pref1))
    else if StrongPref(h2) && !StrongPref(h1) then Some(ByPreference(p2, p1, pref2))
    else None
  }

  /** What Articles 5.2.1, 5.2.2 and 5.2.5 decide of a pair's colours. */
  predicate FideColorRules(r: (Entrant, Entrant), p1: Entrant, p2: Entrant, initialColor: Color) {
    var pref1 := Preference(History(p1));
    var pref2 := Preference(History(p2));
    // 5.2.1: two different preferences are both granted
    && (pref1.Some? && pref2.Some? && pref1 != pref2 ==>
          FirstGets(r, p1, p2, pref1.value) && FirstGets(r, p1, p2, Opposite(pref2.value)))
    // 5.2.2: an absolute preference beats a weaker one
    && (AbsolutePref(History(p1)) && !AbsolutePref(History(p2)) ==>
          FirstGets(r, p1, p2, pref1.value))
    && (AbsolutePref(History(p2)) && !AbsolutePref(History(p1)) ==>
          FirstGets(r, p1, p2, Opposite(pref2.value)))
    // 5.2.2: a strong preference beats a mild one
    && (!AbsolutePref(History(p1)) && !AbsolutePref(History(p2))
        && StrongPref(History(p1)) && !StrongPref(History(p2)) ==>
          FirstGets(r, p1, p2, pref1.value))
    // 5.2.5: with no games played the ranking and the pairing number decide
    && (|Played(History(p1))| == 0 && |Played(History(p2))| == 0 ==>
          r == ByParity(HigherRanked(p1, p2), LowerRanked(p1, p2), initialColor))
  }

  /** `_assign_colors_fide` (the round number it takes is unused): Articles
      5.2.1 to 5.2.5 in order; the result is (white, black). */
  function AssignColors(p1: Entrant, p2: Entrant, initialColor: Color): (r: (Entrant, Entrant))
    ensures r == (p1, p2) || r == (p2, p1)
    ensures FideColorRules(r, p1, p2, initialColor)
  {
    var h1 := History(p1);
    var h2 := History(p2);
    var pref1 := Preference(h1);
    var pref2 := Preference(h2);
    if pref1.Some? && pref2.Some? && pref1 != pref2 then ByPreference(p1, p2, pref1)
    else if StrongerPreference(p1, p2).Some? then StrongerPreference(p1, p2).value
    else
      match MostRecentAlternating(h1, h2)
      case Some(k) => if Played(h1)[k] == White then (p2, p1) else (p1, p2)
      case None =>
        var higher := HigherRanked(p1, p2);
        var lower := LowerRanked(p1, p2);
        var hp := Preference(History(higher));
        if hp.Some? then ByPreference(higher, lower, hp)
        else ByParity(higher, lower, initialColor)
  }

  // ---------------------------------------------------- greedy bracket

  /** `_are_players_compatible`: they have not met, and they do not both
      have an absolute preference for the same colour. */
  predicate Compatible(p1: Entrant, p2: Entrant, previous: set<set<string>>) {
    Fpc.Key(p1.player, p2.player) !in previous
    && !(AbsolutePref(History(p1)) && AbsolutePref(History(p2))
         && Preference(History(p1)) == Preference(History(p2)))
  }

  lemma CompatibleSymmetric(p1: Entrant, p2: Entrant, previous: set<set<string>>)
    ensures Compatible(p1, p2, previous) <==> Compatible(p2, p1, previous)
  {
    assert Fpc.Key(p1.player, p2.player) == Fpc.Key(p2.player, p1.player);
  }

  /** The allowed pairings as a function, for the generic greedy pass. */
  function Allowed(previous: set<set<string>>): (ok: (Entrant, Entrant) -> bool)
    ensures forall a, b :: ok(a, b) == Compatible(a, b, previous)
  {
    (a, b) => Compatible(a, b, previous)
  }

  /** Colour allocation as a function, for the generic greedy pass. */
  function Allocate(initialColor: Color): (assign: (Entrant, Entrant) -> (Entrant, Entrant))
    ensures forall a, b :: assign(a, b) == AssignColors(a, b, initialColor)
  {
    (a, b) => AssignColors(a, b, initialColor)
  }

  /** `_greedy_pair_bracket`'s result: the first player takes the first
      compatible player after it, or is dropped when there is none, until
      fewer than two players remain; each pair gets its colours by Article
      5.2. */
  function Greedy(bracket: seq<Entrant>, previous: set<set<string>>, initialColor: Color)
    : (r: (seq<(Entrant, Entrant)>, seq<Entrant>))
    ensures 2 * |r.0| <= |bracket|
  {
    var g := GreedyBy(bracket, Allowed(previous));
    (Oriented(g.0, Allocate(initialColor)), g.1)
  }

  /** What the greedy pass guarantees: at most one player is left over, every
      pairing it makes is allowed and coloured by Article 5.2, and nobody is
      paired twice or invented. */
  lemma GreedyProperties(bracket: seq<Entrant>, previous: set<set<string>>, initialColor: Color)
    ensures var r := Greedy(bracket, previous, initialColor);
            && |r.1| <= 1
            && (forall k :: 0 <= k < |r.0| ==> Compatible(r.0[k].0, r.0[k].1, previous))
            && (forall k :: 0 <= k < |r.0| ==> r.0[k] == AssignColors(r.0[k].0, r.0[k].1, initialColor)
                                               || r.0[k] == AssignColors(r.0[k].1, r.0[k].0, initialColor))
            && multiset(Members(r.0)) + multiset(r.1) <= multiset(bracket)
  {
    var g := GreedyBy(bracket, Allowed(previous));
    var r := Oriented(g.0, Allocate(initialColor));
    GreedyByProperties(bracket, Allowed(previous));
    forall k | 0 <= k < |r| ensures
      && (r[k] == g.0[k] || r[k] == (g.0[k].1, g.0[k].0))
      && Compatible(r[k].0, r[k].1, previous)
      && r[k] == AssignColors(g.0[k].0, g.0[k].1, initialColor)
    {
      assert r[k] == AssignColors(g.0[k].0, g.0[k].1, initialColor);
      assert Compatible(g.0[k].0, g.0[k].1, previous);
      CompatibleSymmetric(g.0[k].0, g.0[k].1, previous);
    }
    SwapMembers(r, g.0);
  }

  /** `_greedy_pair_bracket`: pairs in the order found, and the players left
      over. */
  method GreedyPairBracket(bracket: seq<Entrant>, previous: set<set<string>>, initialColor: Color)
    returns (pairings: seq<(Entrant, Entrant)>, remaining: seq<Entrant>)
    ensures (pairings, remaining) == Greedy(bracket, previous, initialColor)
  {
    pairings, remaining := GreedyPass(bracket, Allowed(previous), Allocate(initialColor));
  }

  /** A player who is compatible with nobody after it is in neither output. */
  lemma StuckPlayerDropped(bracket: seq<Entrant>, previous: set<set<string>>, initialColor: Color)
    requires |bracket| >= 2 && bracket[0] !in bracket[1..]
    requires forall j :: 1 <= j < |bracket| ==> !Compatible(bracket[0], bracket[j], previous)
    ensures var r := Greedy(bracket, previous, initialColor);
            bracket[0] !in Members(r.0) && bracket[0] !in r.1
  {
    var g := GreedyBy(bracket, Allowed(previous));
    var r := Oriented(g.0, Allocate(initialColor));
    StuckDropped(bracket, Allowed(previous));
    forall k | 0 <= k < |r| ensures r[k] == g.0[k] || r[k] == (g.0[k].1, g.0[k].0) {
      assert r[k] == AssignColors(g.0[k].0, g.0[k].1, initialColor);
    }
    SwapMembers(r, g.0);
    assert multiset(Members(r))[bracket[0]] == multiset(Members(g.0))[bracket[0]] == 0;
  }
}
