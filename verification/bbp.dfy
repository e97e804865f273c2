/** The exchange layer with the bbpPairings engine, compatibility/bbp.py:
    the TRF text handed to the engine to pair the next round (an `XXC`
    colour record, an optional `XXR` round count and one `001` line per
    player carrying its score, rank and match history), the reading of the
    engine's pairing output, and the TRF import with its rating
    normalisation. Running the engine and reading or writing files are left
    to the caller: the model works on the text. */
module Bbp {
  import opened Wrappers
  import Text
  import Format
  import Sorting
  import Colors
  import Constants

  /** The attributes of a player the exchange reads. `pairingNumber` may
      be unset; a round of `results` may hold no result. */
  datatype Seat = Seat(
    id: string, pairingNumber: Option<int>, rating: int,
    results: seq<Option<real>>, opponents: seq<Option<string>>,
    colors: Colors.History)

  /** `player.pairing_number or fallback`: an unset or zero number gives
      the fallback. */
  function NumberOr(s: Seat, fallback: int): (n: int)
    ensures n == fallback <== s.pairingNumber.None? || s.pairingNumber == Some(0)
    ensures n != fallback ==> s.pairingNumber == Some(n)
  {
    if s.pairingNumber.Some? && s.pairingNumber.value != 0 then s.pairingNumber.value else fallback
  }

  /** Round `i` of a per-round list, None past its end. */
  function OptAt<T>(s: seq<Option<T>>, i: nat): Option<T> {
    if i < |s| then s[i] else None
  }

  // ------------------------------------------------------------- scores

  /** The sum of the rounds that have a result. */
  function Known(rs: seq<Option<real>>): (r: real)
    ensures (forall i :: 0 <= i < |rs| ==> rs[i].None?) ==> r == 0.0
    ensures (forall i :: 0 <= i < |rs| && rs[i].Some? ==> 0.0 <= rs[i].value <= 1.0)
            ==> 0.0 <= r <= |rs| as real
  {
    if rs == [] then 0.0 else Known(rs[..|rs| - 1]) + rs[|rs| - 1].GetOr(0.0)
  }

  /** `_compute_score`: the results of the first `rounds` rounds that are
      known; a game result lies in [0, 1], so the score is at most `rounds`. */
  function ComputeScore(s: Seat, rounds: nat): (r: real)
    ensures (forall i :: 0 <= i < |s.results| && s.results[i].Some? ==> 0.0 <= s.results[i].value <= 1.0)
            ==> 0.0 <= r <= rounds as real
  {
    var n := if rounds < |s.results| then rounds else |s.results|;
    var rs := s.results[..n];
    assert forall i :: 0 <= i < |rs| ==> rs[i] == s.results[i];
    Known(rs)
  }

  /** One more round adds that round's result, or nothing when it has none
      or lies past the recorded results. */
  lemma {:induction false} ScoreStep(s: Seat, rounds: nat)
    ensures ComputeScore(s, rounds + 1)
            == ComputeScore(s, rounds) + OptAt(s.results, rounds).GetOr(0.0)
  {
    if rounds < |s.results| {
      assert s.results[..rounds + 1][..rounds] == s.results[..rounds];
    }
  }

  /** Results recorded after round `rounds` do not count. */
  lemma {:induction false} ScoreIgnoresLater(s: Seat, later: seq<Option<real>>, rounds: nat)
    requires rounds <= |s.results|
    ensures ComputeScore(s.(results := s.results + later), rounds) == ComputeScore(s, rounds)
  {
    assert (s.results + later)[..rounds] == s.results[..rounds];
  }

  // -------------------------------------------------------------- ranks

  /** What `_compute_ranks` orders a player by: its score, then its
      pairing number. */
  datatype Standing = Standing(id: string, score: real, number: int)

  /** The sort key `(-score, pairing_number)`. */
  function RankKey(s: Standing): seq<real> {
    [-s.score, s.number as real]
  }

  function StandingOf(s: Seat, scores: map<string, real>): Standing {
    Standing(s.id, if s.id in scores then scores[s.id] else 0.0, s.pairingNumber.GetOr(0))
  }

  function Standings(seats: seq<Seat>, scores: map<string, real>): (ss: seq<Standing>)
    ensures |ss| == |seats|
    ensures forall i :: 0 <= i < |seats| ==> ss[i] == StandingOf(seats[i], scores)
  {
    seq(|seats|, i requires 0 <= i < |seats| => StandingOf(seats[i], scores))
  }

  predicate DistinctIds(ss: seq<Standing>) {
    forall i, j :: 0 <= i < j < |ss| ==> ss[i].id != ss[j].id
  }

  predicate DistinctSeats(seats: seq<Seat>) {
    forall i, j :: 0 <= i < j < |seats| ==> seats[i].id != seats[j].id
  }

  /** `{o.id: i + 1 for i, o in enumerate(ordered)}`: every id gets the
      position of its last entry. */
  function RankMap(ordered: seq<Standing>): (m: map<string, int>)
    ensures forall i :: 0 <= i < |ordered| ==> ordered[i].id in m
  {
    RankedUpTo(ordered, |ordered|)
  }

  /** The ranks the first `n` entries give. */
  function RankedUpTo(ordered: seq<Standing>, n: nat): (m: map<string, int>)
    requires n <= |ordered|
    ensures forall i :: 0 <= i < n ==> ordered[i].id in m
  {
    if n == 0 then map[] else RankedUpTo(ordered, n - 1)[ordered[n - 1].id := n]
  }

  /** Every rank in `m` lies in 1..n and points back at an entry with the ranked id. */
  predicate PointsBack(ordered: seq<Standing>, n: nat, m: map<string, int>)
    requires n <= |ordered|
  {
    forall id :: id in m ==> 1 <= m[id] <= n && ordered[m[id] - 1].id == id
  }

  /** Every rank points back at an entry with the ranked id. */
  lemma {:induction false} RankedEntries(ordered: seq<Standing>, n: nat)
    requires n <= |ordered|
    ensures PointsBack(ordered, n, RankedUpTo(ordered, n))
  {
    if n > 0 {
      var prev := RankedUpTo(ordered, n - 1);
      var m := RankedUpTo(ordered, n);
      RankedEntries(ordered, n - 1);
      assert m == prev[ordered[n - 1].id := n];
      forall id | id in m
        ensures 1 <= m[id] <= n && ordered[m[id] - 1].id == id
      {
        if id != ordered[n - 1].id {
          assert id in prev && m[id] == prev[id];
        }
      }
      assert PointsBack(ordered, n, m);
    } else {
      assert RankedUpTo(ordered, n) == map[];
    }
  }

  /** With distinct ids every entry is ranked by its own position. */
  lemma {:induction false} RankedOfDistinct(ordered: seq<Standing>, n: nat)
    requires DistinctIds(ordered) && n <= |ordered|
    ensures forall i :: 0 <= i < n ==> RankedUpTo(ordered, n)[ordered[i].id] == i + 1
  {
    if n > 0 {
      RankedOfDistinct(ordered, n - 1);
      forall i | 0 <= i < n ensures RankedUpTo(ordered, n)[ordered[i].id] == i + 1 {
        if i < n - 1 {
          assert ordered[i].id != ordered[n - 1].id;
        }
      }
    }
  }

  lemma {:induction false} RankMapEntries(ordered: seq<Standing>)
    ensures PointsBack(ordered, |ordered|, RankMap(ordered))
  {
    RankedEntries(ordered, |ordered|);
  }

  lemma {:induction false} RankMapOfDistinct(ordered: seq<Standing>)
    requires DistinctIds(ordered)
    ensures forall i :: 0 <= i < |ordered| ==> RankMap(ordered)[ordered[i].id] == i + 1
  {
    RankedOfDistinct(ordered, |ordered|);
  }

  /** `sorted(players, key=lambda p: (-score, pairing_number))`. */
  function Ordered(ss: seq<Standing>): (r: seq<Standing>)
    ensures multiset(r) == multiset(ss) && |r| == |ss|
  {
    Sorting.SortBy(ss, RankKey)
  }

  lemma {:induction false} OrderedSorted(ss: seq<Standing>)
    ensures Sorting.SortedBy(Ordered(ss), RankKey)
  {
  }

  function RanksOf(ss: seq<Standing>): (m: map<string, int>)
    ensures forall id :: id in m ==> 1 <= m[id] <= |ss|
  {
    RankMapEntries(Ordered(ss));
    RankMap(Ordered(ss))
  }

  /** The entry at a rank's place carries the ranked id. */
  lemma {:induction false} RankHolder(ss: seq<Standing>, id: string)
    requires id in RanksOf(ss)
    ensures Ordered(ss)[RanksOf(ss)[id] - 1].id == id
  {
    HolderOf(Ordered(ss), id);
  }

  lemma {:induction false} HolderOf(o: seq<Standing>, id: string)
    requires id in RankMap(o)
    ensures 1 <= RankMap(o)[id] <= |o| && o[RankMap(o)[id] - 1].id == id
  {
    RankMapEntries(o);
  }

  /** The ranks `_compute_ranks` hands out when its sort goes through:
      players ordered by score, highest first, then by pairing number, and
      numbered from 1 in that order. Among players of equal score either
      all numbers are set or none is, so an unset number may stand for 0. */
  function Ranking(seats: seq<Seat>, scores: map<string, real>): (m: map<string, int>)
    ensures forall id :: id in m ==> 1 <= m[id] <= |seats|
    ensures forall i :: 0 <= i < |seats| ==> seats[i].id in m
  {
    var ss := Standings(seats, scores);
    forall i | 0 <= i < |seats| ensures seats[i].id in RanksOf(ss) {
      StandingRanked(ss, i);
    }
    RanksOf(ss)
  }

  /** Two players of equal score, one without a pairing number and one
      with: their keys `(-score, None)` and `(-score, n)` cannot be
      compared, and a sort that must place them raises. */
  predicate MixedNumbers(seats: seq<Seat>, scores: map<string, real>) {
    exists i, j :: 0 <= i < |seats| && 0 <= j < |seats| && seats[i].pairingNumber.None?
      && seats[j].pairingNumber.Some? && StandingOf(seats[i], scores).score == StandingOf(seats[j], scores).score
  }

  /** `_compute_ranks`: fails exactly when two players of equal score have
      one an unset and one a set pairing number; otherwise every player is
      ranked between 1 and the number of players. */
  function ComputeRanks(seats: seq<Seat>, scores: map<string, real>): (r: Result<map<string, int>, BuildError>)
    ensures r.Failure? <==> MixedNumbers(seats, scores)
    ensures r.Failure? ==> r.error == UnorderableNumbers
    ensures r.Success? ==> forall id :: id in r.value ==> 1 <= r.value[id] <= |seats|
    ensures r.Success? ==> forall i :: 0 <= i < |seats| ==> seats[i].id in r.value
  {
    if MixedNumbers(seats, scores) then Failure(UnorderableNumbers) else Success(Ranking(seats, scores))
  }

  /** Every standing is ranked. */
  lemma {:induction false} StandingRanked(ss: seq<Standing>, a: nat)
    requires a < |ss|
    ensures ss[a].id in RanksOf(ss)
  {
    var ordered := Ordered(ss);
    assert ss[a] in multiset(ordered);
    var k :| 0 <= k < |ordered| && ordered[k] == ss[a];
  }

  /** With distinct ids a standing's rank is its place in the sorted list. */
  lemma {:induction false} StandingPosition(ss: seq<Standing>, a: nat)
    requires DistinctIds(ss) && a < |ss|
    ensures ss[a].id in RanksOf(ss) && Ordered(ss)[RanksOf(ss)[ss[a].id] - 1] == ss[a]
  {
    PositionIn(ss, Ordered(ss), a);
  }

  lemma {:induction false} PositionIn(ss: seq<Standing>, o: seq<Standing>, a: nat)
    requires DistinctIds(ss) && a < |ss| && multiset(o) == multiset(ss)
    ensures ss[a].id in RankMap(o) && 1 <= RankMap(o)[ss[a].id] <= |o|
    ensures o[RankMap(o)[ss[a].id] - 1] == ss[a]
  {
    DistinctPermutation(ss, o);
    assert ss[a] in multiset(o);
    var k :| 0 <= k < |o| && o[k] == ss[a];
    PlaceOfDistinct(o, k);
  }

  lemma {:induction false} PlaceOfDistinct(o: seq<Standing>, k: nat)
    requires DistinctIds(o) && k < |o|
    ensures o[k].id in RankMap(o) && RankMap(o)[o[k].id] == k + 1
  {
    RankMapOfDistinct(o);
  }

  /** A higher score ranks first; on equal scores the lower number does. */
  lemma {:induction false} StandingsOrdered(ss: seq<Standing>, a: nat, b: nat)
    requires DistinctIds(ss) && a < |ss| && b < |ss|
    requires ss[a].score > ss[b].score || (ss[a].score == ss[b].score && ss[a].number < ss[b].number)
    ensures ss[a].id in RanksOf(ss) && ss[b].id in RanksOf(ss)
    ensures RanksOf(ss)[ss[a].id] < RanksOf(ss)[ss[b].id]
  {
    OrderedSorted(ss);
    PlacesOrdered(ss, Ordered(ss), a, b);
    assert RanksOf(ss) == RankMap(Ordered(ss));
  }

  lemma {:induction false} PlacesOrdered(ss: seq<Standing>, o: seq<Standing>, a: nat, b: nat)
    requires DistinctIds(ss) && a < |ss| && b < |ss|
    requires multiset(o) == multiset(ss) && Sorting.SortedBy(o, RankKey)
    requires ss[a].score > ss[b].score || (ss[a].score == ss[b].score && ss[a].number < ss[b].number)
    ensures ss[a].id in RankMap(o) && ss[b].id in RankMap(o)
    ensures RankMap(o)[ss[a].id] < RankMap(o)[ss[b].id]
  {
    PositionIn(ss, o, a);
    PositionIn(ss, o, b);
    KeyBefore(ss[a], ss[b]);
    Sorting.SortedBefore(o, RankKey, RankMap(o)[ss[a].id] - 1, RankMap(o)[ss[b].id] - 1);
  }

  /** The sort key puts the higher score, then the lower number, first. */
  lemma {:induction false} KeyBefore(x: Standing, y: Standing)
    requires x.score > y.score || (x.score == y.score && x.number < y.number)
    ensures Sorting.CompareLex(RankKey(x), RankKey(y)) == -1
  {
    var kx, ky := RankKey(x), RankKey(y);
    assert kx[1..] == [x.number as real] && ky[1..] == [y.number as real];
  }

  /** A permutation of a list with distinct ids has distinct ids. */
  lemma {:induction false} DistinctPermutation(s: seq<Standing>, r: seq<Standing>)
    requires multiset(r) == multiset(s) && DistinctIds(s)
    ensures DistinctIds(r)
  {
    forall i, j | 0 <= i < j < |r| ensures r[i].id != r[j].id {
      if r[i].id == r[j].id {
        assert r[i] in multiset(s) && r[j] in multiset(s);
        var p :| 0 <= p < |s| && s[p] == r[i];
        var q :| 0 <= q < |s| && s[q] == r[j];
        assert p == q;
        CountTwice(r, i, j);
        CountOnce(s, p);
        assert false;
      }
    }
  }

  /** An element that occurs at two positions occurs twice. */
  lemma {:induction false} CountTwice<T>(r: seq<T>, i: nat, j: nat)
    requires i < j < |r| && r[i] == r[j]
    ensures multiset(r)[r[i]] >= 2
  {
    assert r == r[..j] + [r[j]] + r[j + 1..];
    assert r[i] in multiset(r[..j]) by {
      assert r[..j][i] == r[i];
    }
  }

  /** In a list with distinct ids each element occurs once. */
  lemma {:induction false} CountOnce(s: seq<Standing>, p: nat)
    requires DistinctIds(s) && p < |s|
    ensures multiset(s)[s[p]] == 1
  {
    var x := s[p];
    var init := s[..|s| - 1];
    assert s == init + [s[|s| - 1]];
    assert DistinctIds(init) by {
      forall i, j | 0 <= i < j < |init| ensures init[i].id != init[j].id {
        assert init[i] == s[i] && init[j] == s[j];
      }
    }
    if p == |s| - 1 {
      assert forall k :: 0 <= k < |init| ==> init[k] == s[k];
      assert x !in multiset(init);
    } else {
      assert init[p] == x;
      CountOnce(init, p);
      assert s[|s| - 1].id != x.id;
    }
  }

  /** With distinct ids no two players share a rank: the n ranks, each in
      1..n, are a permutation of 1..n. */
  lemma {:induction false} RanksArePermutation(seats: seq<Seat>, scores: map<string, real>)
    requires DistinctSeats(seats) && ComputeRanks(seats, scores).Success?
    ensures forall i, j :: 0 <= i < j < |seats| ==>
              ComputeRanks(seats, scores).value[seats[i].id] != ComputeRanks(seats, scores).value[seats[j].id]
  {
    var ss := Standings(seats, scores);
    forall i, j | 0 <= i < j < |seats|
      ensures Ranking(seats, scores)[seats[i].id] != Ranking(seats, scores)[seats[j].id]
    {
      assert ss[i].id == seats[i].id && ss[j].id == seats[j].id;
      StandingRanked(ss, i);
      StandingRanked(ss, j);
      RankHolder(ss, ss[i].id);
      RankHolder(ss, ss[j].id);
    }
  }

  /** A player with a higher score ranks first; on equal scores the one
      with the lower pairing number does. */
  lemma {:induction false} RanksOrdered(seats: seq<Seat>, scores: map<string, real>, a: nat, b: nat)
    requires DistinctSeats(seats) && a < |seats| && b < |seats| && ComputeRanks(seats, scores).Success?
    requires var sa, sb := StandingOf(seats[a], scores), StandingOf(seats[b], scores);
             sa.score > sb.score || (sa.score == sb.score && sa.number < sb.number)
    ensures ComputeRanks(seats, scores).value[seats[a].id] < ComputeRanks(seats, scores).value[seats[b].id]
  {
    var ss := Standings(seats, scores);
    assert DistinctIds(ss) by {
      forall i, j | 0 <= i < j < |ss| ensures ss[i].id != ss[j].id {
        assert ss[i].id == seats[i].id && ss[j].id == seats[j].id;
      }
    }
    StandingsOrdered(ss, a, b);
  }

  // ------------------------------------------------------ match history

  /** The result letter of a round without an opponent: a full-point bye,
      a half-point bye, or nothing. */
  function ByeCode(result: Option<real>): char {
    if result == Some(Constants.ByeScore) then 'U'
    else if result == Some(Constants.DrawScore) then 'H'
    else 'Z'
  }

  /** The result letter of a game: a win, a draw, or anything else. */
  function GameCode(result: Option<real>): char {
    match result
    case None => '0'
    case Some(x) => if x >= Constants.WinScore then '1' else if x == Constants.DrawScore then '=' else '0'
  }

  function ColorCode(c: Option<Colors.Color>): char {
    match c
    case Some(White) => 'w'
    case Some(Black) => 'b'
    case None => '-'
  }

  /** `id_to_number.get(opponent_id, 0)`. */
  function NumberOf(id: string, numbers: map<string, int>): int {
    if id in numbers then numbers[id] else 0
  }

  /** `_format_match`: one round of a TRF history, `"  NNNN c r"`, the
      opponent's number, the colour played and the result. */
  function FormatMatch(opponent: Option<string>, result: Option<real>, color: Option<Colors.Color>,
                       numbers: map<string, int>): (r: string)
    ensures |r| >= 10 && r[..2] == "  " && r[|r| - 4] == ' ' && r[|r| - 2] == ' '
  {
    MatchHead(opponent, numbers) + MatchTail(opponent, result, color)
  }

  /** What the letters of a segment say: the last one is U, H or Z for a
      full-point bye, a half-point bye or any other round without opponent,
      and 1, = or 0 for a won, drawn or other game; the one before it is
      the colour played, `-` without opponent or colour. */
  lemma {:induction false} MatchCodes(opponent: Option<string>, result: Option<real>, color: Option<Colors.Color>,
                   numbers: map<string, int>)
    ensures var r := FormatMatch(opponent, result, color, numbers);
            var code, c := r[|r| - 1], r[|r| - 3];
            (code == 'U' <==> opponent.None? && result == Some(Constants.ByeScore))
            && (code == 'H' <==> opponent.None? && result == Some(Constants.DrawScore))
            && (code == 'Z' <==> opponent.None? && result != Some(Constants.ByeScore) && result != Some(Constants.DrawScore))
            && (code == '1' <==> opponent.Some? && result.Some? && result.value >= Constants.WinScore)
            && (code == '=' <==> opponent.Some? && result == Some(Constants.DrawScore))
            && (code == '0' <==> opponent.Some? && (result.None? || (result.value < Constants.WinScore && result.value != Constants.DrawScore)))
            && (c == 'w' <==> opponent.Some? && color == Some(Colors.White))
            && (c == 'b' <==> opponent.Some? && color == Some(Colors.Black))
            && (c == '-' <==> opponent.None? || color.None?)
  {
    var r := FormatMatch(opponent, result, color, numbers);
    var t := MatchTail(opponent, result, color);
    assert r[|r| - 1] == t[3] && r[|r| - 3] == t[1];
  }

  /** `"  0000"` without an opponent, else two spaces and `f"{number:04d}"`. */
  function MatchHead(opponent: Option<string>, numbers: map<string, int>): (r: string)
    ensures |r| >= 6 && r[..2] == "  "
  {
    "  " + Format.ZeroPad(if opponent.None? then 0 else NumberOf(opponent.value, numbers), 4)
  }

  /** `" - U"`, `" - H"` or `" - Z"` without an opponent, else the colour
      and result letters. */
  function MatchTail(opponent: Option<string>, result: Option<real>, color: Option<Colors.Color>): (r: string)
    ensures |r| == 4 && r[0] == ' ' && r[2] == ' '
  {
    if opponent.None? then " - " + [ByeCode(result)]
    else " " + [ColorCode(color)] + " " + [GameCode(result)]
  }

  /** The opponent field of a segment reads back as the opponent's number,
      0 for a round without opponent. */
  lemma {:induction false} MatchReadsBack(opponent: Option<string>, result: Option<real>, color: Option<Colors.Color>,
                       numbers: map<string, int>)
    ensures var r := FormatMatch(opponent, result, color, numbers);
            Text.ParseInt(r[..|r| - 4]) == Some(if opponent.None? then 0 else NumberOf(opponent.value, numbers))
  {
    var r := FormatMatch(opponent, result, color, numbers);
    assert r[..|r| - 4] == MatchHead(opponent, numbers);
    HeadReadsBack(if opponent.None? then 0 else NumberOf(opponent.value, numbers));
  }

  lemma {:induction false} HeadReadsBack(n: int)
    ensures Text.ParseInt("  " + Format.ZeroPad(n, 4)) == Some(n)
  {
    var z := Format.ZeroPad(n, 4);
    TrimmedZeroPad(n, 4);
    assert Text.IsDigit(z[|z| - 1]);
    StripPadded("  ", z);
  }

  /** `int()` only sees the stripped text. */
  lemma {:induction false} ParseAfterStrip(a: string, b: string)
    requires Text.Strip(a) == Text.Strip(b)
    ensures Text.ParseInt(a) == Text.ParseInt(b)
  {
  }

  /** `int(f"{n:0{w}d}") == n`. */
  lemma {:induction false} ParseZeroPad(n: int, w: nat)
    ensures Text.ParseInt(Format.ZeroPad(n, w)) == Some(n)
  {
    var z := Format.ZeroPad(n, w);
    assert |z| > 0 && !Text.IsSpace(z[0]) && !Text.IsSpace(z[|z| - 1]) by {
      assert Text.IsDigit(z[|z| - 1]);
    }
    Text.ParseOfTrimmed(z);
    TrimmedZeroPad(n, w);
  }

  lemma {:induction false} TrimmedZeroPad(n: int, w: nat)
    ensures Text.ParseTrimmed(Format.ZeroPad(n, w)) == Some(n)
  {
    var z := Format.ZeroPad(n, w);
    Format.ZeroPadValue(n, w);
    var body := z[if n < 0 then 1 else 0..];
    assert |body| > 0 by {
      assert |z| >= |Text.IntToString(n)|;
      if n < 0 { assert |Text.IntToString(n)| >= 2; }
    }
    if n < 0 {
      assert z == "-" + body;
      Text.ParseSigned(body);
    } else {
      assert z == body;
      Text.ParseDigits(body);
    }
  }

  /** Spaces in front of a trimmed text are all that stripping removes. */
  lemma {:induction false} StripPadded(p: string, t: string)
    requires forall k :: 0 <= k < |p| ==> p[k] == ' '
    requires |t| > 0 && !Text.IsSpace(t[0]) && !Text.IsSpace(t[|t| - 1])
    ensures Text.Strip(p + t) == t
  {
    LeadOfSpaces(p, t);
    var s := p + t;
    assert s[|p|..] == t;
    assert Text.Trail(t) == 0;
  }

  lemma {:induction false} LeadOfSpaces(p: string, t: string)
    requires forall k :: 0 <= k < |p| ==> p[k] == ' '
    requires |t| > 0 && !Text.IsSpace(t[0])
    ensures Text.Lead(p + t) == |p|
  {
    if |p| > 0 {
      assert (p + t)[1..] == p[1..] + t;
      LeadOfSpaces(p[1..], t);
    } else {
      assert p + t == t;
    }
  }

  /** `|str(n)| <= k` exactly when n < 10^k. */
  lemma {:induction false} NatToStringLength(n: nat, k: nat)
    requires k >= 1
    ensures |Text.NatToString(n)| <= k <==> n < Text.Pow10(k)
  {
    if n >= 10 {
      if k == 1 {
        assert |Text.NatToString(n)| == |Text.NatToString(n / 10)| + 1;
      } else {
        NatToStringLength(n / 10, k - 1);
      }
    } else {
      assert Text.Pow10(k) >= 10 by {
        if k > 1 { assert Text.Pow10(k - 1) >= 1; }
      }
    }
  }

  /** A segment is ten characters exactly when the opponent's number fits
      in four characters. */
  lemma {:induction false} MatchWidth(opponent: Option<string>, result: Option<real>, color: Option<Colors.Color>,
                   numbers: map<string, int>)
    ensures |FormatMatch(opponent, result, color, numbers)| == 10
            <==> opponent.None? || -999 <= NumberOf(opponent.value, numbers) <= 9999
  {
    if opponent.Some? {
      var n := NumberOf(opponent.value, numbers);
      var m: nat := if n < 0 then -n else n;
      NatToStringLength(m, 4);
      NatToStringLength(m, 3);
      assert Text.Pow10(3) == 1000 && Text.Pow10(4) == 10000;
    }
  }

  /** The `i`-th ten-character segment of a history. */
  function Segment(h: string, i: nat): string
    requires 10 * i + 10 <= |h|
  {
    h[10 * i..10 * i + 10]
  }

  /** Appending a ten-character segment keeps the earlier segments. */
  lemma {:induction false} SegmentAppend(prev: string, last: string, k: nat)
    requires |prev| == 10 * k && |last| == 10
    ensures forall i :: 0 <= i < k ==> Segment(prev + last, i) == Segment(prev, i)
    ensures Segment(prev + last, k) == last
  {
  }

  function MatchOf(s: Seat, numbers: map<string, int>, i: nat): string {
    FormatMatch(OptAt(s.opponents, i), OptAt(s.results, i), OptAt(s.colors, i), numbers)
  }

  /** The segments written one after another. */
  function Join(ms: seq<string>): string {
    if |ms| == 0 then "" else Join(ms[..|ms| - 1]) + ms[|ms| - 1]
  }

  /** The segment of every round to include, a round past the end of the
      player's lists being one without opponent and result. */
  function RoundMatches(s: Seat, numbers: map<string, int>, rounds: nat): (ms: seq<string>)
    ensures |ms| == rounds && forall i :: 0 <= i < rounds ==> ms[i] == MatchOf(s, numbers, i)
  {
    seq(rounds, i requires 0 <= i < rounds => MatchOf(s, numbers, i))
  }

  /** `_format_match_history`. */
  function MatchHistory(s: Seat, numbers: map<string, int>, rounds: nat): (h: string)
    ensures |h| >= 10 * rounds
  {
    var ms := RoundMatches(s, numbers, rounds);
    JoinAtLeast(ms);
    Join(ms)
  }

  /** Segments of at least ten characters join to at least ten per segment. */
  lemma {:induction false} JoinAtLeast(ms: seq<string>)
    requires forall i :: 0 <= i < |ms| ==> |ms[i]| >= 10
    ensures |Join(ms)| >= 10 * |ms|
  {
    if |ms| > 0 {
      JoinAtLeast(ms[..|ms| - 1]);
    }
  }

  /** Ten-character segments join to a text whose `i`-th segment is the
      `i`-th one joined. */
  lemma {:induction false} JoinSegments(ms: seq<string>)
    requires forall i :: 0 <= i < |ms| ==> |ms[i]| == 10
    ensures |Join(ms)| == 10 * |ms|
    ensures forall i :: 0 <= i < |ms| ==> Segment(Join(ms), i) == ms[i]
  {
    if |ms| > 0 {
      var init := ms[..|ms| - 1];
      JoinSegments(init);
      SegmentAppend(Join(init), ms[|ms| - 1], |init|);
      forall i | 0 <= i < |ms| ensures Segment(Join(ms), i) == ms[i] {
        if i < |init| {
          assert Segment(Join(init), i) == init[i];
        }
      }
    }
  }

  /** Plain segments that each end in a non-space join to plain text ending
      in a non-space. */
  lemma {:induction false} JoinPlain(ms: seq<string>)
    requires forall i :: 0 <= i < |ms| ==> Plain(ms[i]) && |ms[i]| > 0 && !Text.IsSpace(ms[i][|ms[i]| - 1])
    ensures Plain(Join(ms))
    ensures |ms| > 0 ==> |Join(ms)| > 0 && !Text.IsSpace(Join(ms)[|Join(ms)| - 1])
  {
    if |ms| > 0 {
      JoinPlain(ms[..|ms| - 1]);
      PlainConcat(Join(ms[..|ms| - 1]), ms[|ms| - 1]);
    }
  }

  /** Every number a history may print fits in four characters. */
  predicate FourCharacters(numbers: map<string, int>) {
    forall id :: id in numbers ==> -999 <= numbers[id] <= 9999
  }

  /** With four-character numbers the history is exactly ten characters
      per round, segment `i` describing round `i`. */
  lemma {:induction false} HistorySegments(s: Seat, numbers: map<string, int>, rounds: nat)
    requires FourCharacters(numbers)
    ensures |MatchHistory(s, numbers, rounds)| == 10 * rounds
    ensures forall i :: 0 <= i < rounds ==> Segment(MatchHistory(s, numbers, rounds), i) == MatchOf(s, numbers, i)
  {
    var ms := RoundMatches(s, numbers, rounds);
    forall i | 0 <= i < rounds ensures |ms[i]| == 10 {
      RoundWidth(s, numbers, i);
    }
    JoinSegments(ms);
  }

  /** With four-character numbers every round's segment is ten characters. */
  lemma {:induction false} RoundWidth(s: Seat, numbers: map<string, int>, k: nat)
    requires FourCharacters(numbers)
    ensures |MatchOf(s, numbers, k)| == 10
  {
    var opponent := OptAt(s.opponents, k);
    MatchWidth(opponent, OptAt(s.results, k), OptAt(s.colors, k), numbers);
    if opponent.Some? {
      var n := NumberOf(opponent.value, numbers);
      assert -999 <= n <= 9999;
    }
  }

  // -------------------------------------------------------- player line

  /** `_format_player_line`, the columns written right to left: the
      record code, the number in columns 5-8, a filler name, the rating
      ending in column 52, the score in columns 81-84, the rank in columns
      85-89 and the match history from column 90 on. */
  function PlayerLine(number: int, rating: int, score: real, rank: int, matches: string): string {
    "001 " + PlayerFields(number, rating, score, rank, matches)
  }

  /** Everything after the record code and its space. */
  function PlayerFields(number: int, rating: int, score: real, rank: int, matches: string): string {
    IdColumns(number) + RatingColumns(rating, score, rank, matches)
  }

  /** Columns 5-33: the number, a filler name and the number again. */
  function IdColumns(number: int): string {
    var n := Text.IntToString(number);
    Format.RightAlign(n, 4) + (Format.RightAlign("Test", 10) + (Format.ZeroFill(number, 4)
      + (" Player" + Format.RightAlign(n, 4))))
  }

  /** Columns 34 on: the rating, the score, the rank and the history. */
  function RatingColumns(rating: int, score: real, rank: int, matches: string): string {
    Format.RightAlign(Text.IntToString(rating), 19) + (Format.Repeat(' ', 28)
      + (Format.RightAlign(Format.Fixed1(score), 4) + (Format.RightAlign(Text.IntToString(rank), 5) + matches)))
  }

  /** The values for which every column keeps its width. */
  predicate Columns(number: int, rating: int, score: real, rank: int) {
    0 <= number < 10000 && 0 <= rating < 10000 && 0.0 <= score <= 99.0 && 0 <= rank < 100000
  }

  /** `int()` of a right-aligned number is the number. */
  lemma {:induction false} ParseRightAligned(n: int, w: nat)
    ensures Text.ParseInt(Format.RightAlign(Text.IntToString(n), w)) == Some(n)
  {
    var t := Text.IntToString(n);
    var r := Format.RightAlign(t, w);
    assert r == Format.Repeat(' ', |r| - |t|) + t;
    if n < 0 {
      assert t == "-" + Text.NatToString(-n);
    }
    StripPadded(Format.Repeat(' ', |r| - |t|), t);
    Text.StripOfTrimmed(t);
    ParseAfterStrip(r, t);
    Text.ParseIntOfIntToString(n);
  }

  lemma {:induction false} NumberWidth(n: int, w: nat)
    requires w >= 1 && 0 <= n < Text.Pow10(w)
    ensures |Format.RightAlign(Text.IntToString(n), w)| == w
  {
    NatToStringLength(n, w);
  }

  lemma {:induction false} ScoreWidth(score: real)
    requires 0.0 <= score <= 99.0
    ensures |Format.RightAlign(Format.Fixed1(score), 4)| == 4
  {
    var t := Format.Tenths(score);
    assert t <= 990;
    NatToStringLength(t / 10, 2);
    assert Text.Pow10(2) == 100;
  }

  /** Fixed-width pieces joined right to left sit at fixed columns. */
  lemma {:induction false} ColumnOffsets(c: string, a: string, b: string, z: string, p: string, a': string,
                      g: string, sp: string, sc: string, rk: string, m: string)
    requires |c| == 4 && |a| == 4 && |b| == 10 && |z| == 4 && |p| == 7 && |a'| == 4
    requires |g| == 19 && |sp| == 28 && |sc| == 4 && |rk| == 5
    ensures var l := c + ((a + (b + (z + (p + a')))) + (g + (sp + (sc + (rk + m)))));
            |l| == 89 + |m| && l[4..8] == a && l[33..52] == g && l[80..84] == sc
            && l[84..89] == rk && l[89..] == m
  {
    var r7 := sc + (rk + m);
    var r5 := g + (sp + r7);
    var ids := a + (b + (z + (p + a')));
    var l := c + (ids + r5);
    assert l[4..8] == ids[..4] == a;
    assert l[33..] == r5;
    assert l[80..] == r7;
  }

  /** Within the column widths every field reads back from its columns. */
  lemma {:induction false} PlayerLineColumns(number: int, rating: int, score: real, rank: int, matches: string)
    requires Columns(number, rating, score, rank)
    ensures var l := PlayerLine(number, rating, score, rank, matches);
            |l| == 89 + |matches| && l[89..] == matches
            && Text.ParseInt(l[4..8]) == Some(number)
            && Text.ParseInt(l[33..52]) == Some(rating)
            && Text.Strip(l[80..84]) == Format.Fixed1(score)
            && Text.ParseInt(l[84..89]) == Some(rank)
  {
    var n := Text.IntToString(number);
    assert Text.Pow10(4) == 10000 && Text.Pow10(5) == 100000;
    NumberWidth(number, 4);
    NumberWidth(rating, 4);
    NumberWidth(rank, 5);
    ScoreWidth(score);
    ColumnOffsets("001 ", Format.RightAlign(n, 4), Format.RightAlign("Test", 10), Format.ZeroFill(number, 4),
                  " Player", Format.RightAlign(n, 4), Format.RightAlign(Text.IntToString(rating), 19),
                  Format.Repeat(' ', 28), Format.RightAlign(Format.Fixed1(score), 4),
                  Format.RightAlign(Text.IntToString(rank), 5), matches);
    ParseRightAligned(number, 4);
    ParseRightAligned(rating, 19);
    ParseRightAligned(rank, 5);
    StripScore(score);
  }

  /** Digits, the point and the sign are not white space. */
  lemma {:induction false} NotSpace(c: char)
    requires Text.IsDigit(c) || c == '.' || c == '-'
    ensures !Text.IsSpace(c)
  {
  }

  lemma {:induction false} StripScore(score: real)
    ensures Text.Strip(Format.RightAlign(Format.Fixed1(score), 4)) == Format.Fixed1(score)
  {
    var f := Format.Fixed1(score);
    var sc := Format.RightAlign(f, 4);
    var p := Format.Repeat(' ', |sc| - |f|);
    assert Text.IsDigit(f[0]) || f[0] == '.' || f[0] == '-';
    NotSpace(f[0]);
    NotSpace(f[|f| - 1]);
    StripPadded(p, f);
    assert sc == p + f;
  }

  // ------------------------------------------------------ the TRF text

  datatype BuildError = RoundBeforeFirst | UnknownInitialColor | UnorderableNumbers

  /** `min(max(rating or 0, 0), 9999)`. */
  function ClampRating(rating: int): (r: int)
    ensures 0 <= r <= 9999
    ensures 0 <= rating <= 9999 ==> r == rating
    ensures rating < 0 ==> r == 0
    ensures rating > 9999 ==> r == 9999
  {
    if rating < 0 then 0 else if rating > 9999 then 9999 else rating
  }

  /** `{p.id: int(p.pairing_number or idx) for idx, p in enumerate(players, 1)}`. */
  function NumbersOf(seats: seq<Seat>): map<string, int> {
    if seats == [] then map[]
    else NumbersOf(seats[..|seats| - 1])[seats[|seats| - 1].id := NumberOr(seats[|seats| - 1], |seats|)]
  }

  /** Every player's id is numbered, and an id's number is that of one of
      the players carrying it: a later player overwrites an earlier one. */
  lemma {:induction false} NumbersOfEntries(seats: seq<Seat>)
    ensures forall i :: 0 <= i < |seats| ==> seats[i].id in NumbersOf(seats)
    ensures forall id :: id in NumbersOf(seats) ==>
              exists i :: 0 <= i < |seats| && seats[i].id == id && NumbersOf(seats)[id] == NumberOr(seats[i], i + 1)
  {
    if seats != [] {
      var init := seats[..|seats| - 1];
      NumbersOfEntries(init);
      assert forall i :: 0 <= i < |init| ==> init[i] == seats[i];
    }
  }

  /** `{p.id: f(p) for p in players}`. */
  function MapOf<V>(seats: seq<Seat>, f: Seat -> V): map<string, V> {
    if seats == [] then map[]
    else MapOf(seats[..|seats| - 1], f)[seats[|seats| - 1].id := f(seats[|seats| - 1])]
  }

  /** Every player's id is a key, and an id's value is that of one of the
      players carrying it: a later player overwrites an earlier one. */
  lemma {:induction false} MapOfEntries<V>(seats: seq<Seat>, f: Seat -> V)
    ensures forall i :: 0 <= i < |seats| ==> seats[i].id in MapOf(seats, f)
    ensures forall id :: id in MapOf(seats, f) ==>
              exists i :: 0 <= i < |seats| && seats[i].id == id && MapOf(seats, f)[id] == f(seats[i])
  {
    if seats != [] {
      var init := seats[..|seats| - 1];
      MapOfEntries(init, f);
      assert forall i :: 0 <= i < |init| ==> init[i] == seats[i];
    }
  }

  /** `{p.id: _compute_score(p, rounds) for p in players}`. */
  function ScoresOf(seats: seq<Seat>, rounds: nat): map<string, real> {
    MapOf(seats, s => ComputeScore(s, rounds))
  }

  /** The sort key `pairing_number or 0`. */
  function NumberKey(s: Seat): seq<real> {
    [NumberOr(s, 0) as real]
  }

  /** The players in pairing-number order, a player without a number first. */
  function ByNumber(seats: seq<Seat>): (r: seq<Seat>)
    ensures multiset(r) == multiset(seats) && |r| == |seats|
  {
    Sorting.SortBy(seats, NumberKey)
  }

  /** The `001` line of the player at place `place` (from 1) of the sorted
      list. */
  function SeatLine(s: Seat, place: nat, numbers: map<string, int>, scores: map<string, real>,
                    ranks: map<string, int>, rounds: nat): string
  {
    var number := NumberOr(s, place);
    PlayerLine(number, ClampRating(s.rating), if s.id in scores then scores[s.id] else 0.0,
               if s.id in ranks then ranks[s.id] else number, MatchHistory(s, numbers, rounds))
  }

  /** `XXC <colour>`, then `XXR <rounds>` unless the round count is 0. */
  function Header(color: string, totalRounds: int): (h: seq<string>)
    ensures |h| == (if totalRounds != 0 then 2 else 1)
  {
    ["XXC " + color] + (if totalRounds != 0 then ["XXR " + Text.IntToString(totalRounds)] else [])
  }

  /** The `001` lines, one per player of `ordered`. */
  function SeatLines(ordered: seq<Seat>, numbers: map<string, int>, scores: map<string, real>,
                     ranks: map<string, int>, rounds: nat): seq<string>
  {
    seq(|ordered|, i requires 0 <= i < |ordered| => SeatLine(ordered[i], i + 1, numbers, scores, ranks, rounds))
  }

  /** The lines of `build_bbp_pairing_trf` for `rounds` played rounds. */
  function TrfLines(seats: seq<Seat>, totalRounds: int, rounds: nat, color: string): seq<string> {
    Header(color, totalRounds)
    + SeatLines(ByNumber(seats), NumbersOf(seats), ScoresOf(seats, rounds),
                Ranking(seats, ScoresOf(seats, rounds)), rounds)
  }

  /** `build_bbp_pairing_trf`: rejects a round before the first and an
      initial colour other than `white1` and `black1`, in that order, and
      then fails where the ranking sort does; the text ends with a newline. */
  function BuildPairingTrf(seats: seq<Seat>, totalRounds: int, currentRound: int, color: string)
    : (r: Result<string, BuildError>)
    ensures r == Failure(RoundBeforeFirst) <==> currentRound < 1
    ensures r == Failure(UnknownInitialColor) <==> currentRound >= 1 && color != "white1" && color != "black1"
    ensures r == Failure(UnorderableNumbers) <==>
              currentRound >= 1 && (color == "white1" || color == "black1")
              && ComputeRanks(seats, ScoresOf(seats, currentRound - 1)).Failure?
    ensures r.Success? ==> |r.value| > 0 && r.value[|r.value| - 1] == '\n'
  {
    if currentRound < 1 then Failure(RoundBeforeFirst)
    else if color != "white1" && color != "black1" then Failure(UnknownInitialColor)
    else if ComputeRanks(seats, ScoresOf(seats, currentRound - 1)).Failure? then Failure(UnorderableNumbers)
    else Success(Text.Join(TrfLines(seats, totalRounds, currentRound - 1, color), '\n') + "\n")
  }

  // ------------------------------------------------ reading the text back

  /** A character that does not break a line. */
  predicate Safe(c: char) {
    !Format.IsLineBreak(c)
  }

  /** Text without line breaks. */
  predicate Plain(s: string) {
    forall k :: 0 <= k < |s| ==> Safe(s[k])
  }

  lemma {:induction false} PlainConcat(a: string, b: string)
    requires Plain(a) && Plain(b)
    ensures Plain(a + b)
  {
    forall k | 0 <= k < |a + b| ensures Safe((a + b)[k]) {
      if k >= |a| { assert (a + b)[k] == b[k - |a|]; }
    }
  }

  lemma {:induction false} PlainNoBreak(s: string)
    requires Plain(s)
    ensures Format.NoBreak(s)
  {
    forall k | 0 <= k < |s| ensures !Format.IsLineBreak(s[k]) {
      assert Safe(s[k]);
    }
  }

  lemma {:induction false} IntPlain(n: int)
    ensures Plain(Text.IntToString(n))
    ensures !Text.IsSpace(Text.IntToString(n)[|Text.IntToString(n)| - 1])
  {
    var d := Text.NatToString(if n < 0 then -n else n);
    assert Plain(d) by {
      forall k | 0 <= k < |d| ensures Safe(d[k]) { assert Text.IsDigit(d[k]); }
    }
    NotSpace(d[|d| - 1]);
    if n < 0 {
      assert Plain("-");
      PlainConcat("-", d);
      assert Text.IntToString(n) == "-" + d;
    }
  }

  lemma {:induction false} AlignPlain(fill: char, t: string, w: nat)
    requires Safe(fill) && Plain(t)
    ensures Plain(Format.Repeat(fill, w) + t)
  {
    PlainConcat(Format.Repeat(fill, w), t);
  }

  /** A segment is plain text ending in its result letter. */
  lemma {:induction false} MatchPlain(opponent: Option<string>, result: Option<real>, color: Option<Colors.Color>,
                   numbers: map<string, int>)
    ensures Plain(FormatMatch(opponent, result, color, numbers))
    ensures var r := FormatMatch(opponent, result, color, numbers); !Text.IsSpace(r[|r| - 1])
  {
    var n := if opponent.None? then 0 else NumberOf(opponent.value, numbers);
    ZeroPadPlain(n, 4);
    TailPlain(opponent, result, color);
    SegmentPlain(Format.ZeroPad(n, 4), MatchTail(opponent, result, color));
  }

  lemma {:induction false} ZeroPadPlain(n: int, w: nat)
    ensures Plain(Format.ZeroPad(n, w))
  {
    var z := Format.ZeroPad(n, w);
    forall k | 0 <= k < |z| ensures Safe(z[k]) {}
  }

  /** The colour and result letters are plain text ending in a letter. */
  lemma {:induction false} TailPlain(opponent: Option<string>, result: Option<real>, color: Option<Colors.Color>)
    ensures var t := MatchTail(opponent, result, color); Plain(t) && !Text.IsSpace(t[3])
  {
  }

  /** Two spaces, a number and a tail ending in a non-space. */
  lemma {:induction false} SegmentPlain(z: string, t: string)
    requires Plain(z) && Plain(t) && |t| == 4 && !Text.IsSpace(t[3])
    ensures var r := ("  " + z) + t; Plain(r) && !Text.IsSpace(r[|r| - 1])
  {
    assert Plain("  ");
    PlainConcat("  ", z);
    PlainConcat("  " + z, t);
  }

  /** A history is plain text, empty without rounds and otherwise ending in
      a result letter. */
  lemma {:induction false} HistoryPlain(s: Seat, numbers: map<string, int>, rounds: nat)
    ensures Plain(MatchHistory(s, numbers, rounds))
    ensures rounds == 0 ==> MatchHistory(s, numbers, rounds) == ""
    ensures rounds > 0 ==> var h := MatchHistory(s, numbers, rounds); |h| > 0 && !Text.IsSpace(h[|h| - 1])
  {
    var ms := RoundMatches(s, numbers, rounds);
    forall i | 0 <= i < rounds ensures Plain(ms[i]) && |ms[i]| > 0 && !Text.IsSpace(ms[i][|ms[i]| - 1]) {
      RoundPlain(s, numbers, i);
    }
    JoinPlain(ms);
  }

  lemma {:induction false} RoundPlain(s: Seat, numbers: map<string, int>, k: nat)
    ensures var m := MatchOf(s, numbers, k); Plain(m) && |m| > 0 && !Text.IsSpace(m[|m| - 1])
  {
    MatchPlain(OptAt(s.opponents, k), OptAt(s.results, k), OptAt(s.colors, k), numbers);
  }

  /** The score, rank and history columns: plain text ending in a digit
      or a result letter. */
  lemma {:induction false} ScoreRankPlain(score: real, rank: int, matches: string)
    requires Plain(matches) && (matches == "" || !Text.IsSpace(matches[|matches| - 1]))
    ensures var t := Format.RightAlign(Format.Fixed1(score), 4) + (Format.RightAlign(Text.IntToString(rank), 5) + matches);
            Plain(t) && !Text.IsSpace(t[|t| - 1])
  {
    var f := Format.Fixed1(score);
    var rk := Text.IntToString(rank);
    IntPlain(rank);
    assert Plain(f) by {
      forall k | 0 <= k < |f| ensures Safe(f[k]) {}
    }
    var t9 := Format.RightAlign(rk, 5) + matches;
    AlignPlain(' ', rk, Format.Width(rk, 5) - |rk|);
    PlainConcat(Format.RightAlign(rk, 5), matches);
    assert !Text.IsSpace(t9[|t9| - 1]) by {
      if matches == "" { assert t9 == Format.RightAlign(rk, 5); }
    }
    AlignPlain(' ', f, Format.Width(f, 4) - |f|);
    PlainConcat(Format.RightAlign(f, 4), t9);
  }

  /** The fixed texts of a player line. */
  lemma {:induction false} FillerPlain()
    ensures Plain("001 ") && Plain("Test") && Plain(" Player")
  {
    assert Safe('0') && Safe('1') && Safe(' ');
    assert Safe('T') && Safe('e') && Safe('s') && Safe('t');
    assert Safe('P') && Safe('l') && Safe('a') && Safe('y') && Safe('r');
  }

  lemma {:induction false} ZeroFillPlain(number: int)
    ensures Plain(Format.ZeroFill(number, 4))
  {
    var n := Text.IntToString(number);
    IntPlain(number);
    AlignPlain('0', n, Format.Width(n, 4) - |n|);
  }

  /** The columns from the rating on. */
  lemma {:induction false} RatingTailPlain(rating: int, score: real, rank: int, matches: string)
    requires Plain(matches) && (matches == "" || !Text.IsSpace(matches[|matches| - 1]))
    ensures var t := RatingColumns(rating, score, rank, matches);
            Plain(t) && |t| > 0 && !Text.IsSpace(t[|t| - 1])
  {
    var ra := Text.IntToString(rating);
    var t8 := Format.RightAlign(Format.Fixed1(score), 4) + (Format.RightAlign(Text.IntToString(rank), 5) + matches);
    ScoreRankPlain(score, rank, matches);
    IntPlain(rating);
    var t7 := Format.Repeat(' ', 28) + t8;
    AlignPlain(' ', t8, 28);
    AlignPlain(' ', ra, Format.Width(ra, 19) - |ra|);
    PlainConcat(Format.RightAlign(ra, 19), t7);
    assert RatingColumns(rating, score, rank, matches) == Format.RightAlign(ra, 19) + t7;
  }

  /** The number and filler columns are plain text. */
  lemma {:induction false} IdColumnsPlain(number: int)
    ensures Plain(IdColumns(number))
  {
    var n := Text.IntToString(number);
    FillerPlain();
    IntPlain(number);
    AlignPlain(' ', n, Format.Width(n, 4) - |n|);
    var t4 := " Player" + Format.RightAlign(n, 4);
    PlainConcat(" Player", Format.RightAlign(n, 4));
    var t3 := Format.ZeroFill(number, 4) + t4;
    ZeroFillPlain(number);
    PlainConcat(Format.ZeroFill(number, 4), t4);
    var t2 := Format.RightAlign("Test", 10) + t3;
    AlignPlain(' ', "Test", 6);
    PlainConcat(Format.RightAlign("Test", 10), t3);
    PlainConcat(Format.RightAlign(n, 4), t2);
  }

  /** A player line is a TRF line: it starts with its record code, ends in
      a digit or a result letter and holds no line break. */
  lemma {:induction false} PlayerLineIsLine(number: int, rating: int, score: real, rank: int, matches: string)
    requires Plain(matches) && (matches == "" || !Text.IsSpace(matches[|matches| - 1]))
    ensures Format.Line(PlayerLine(number, rating, score, rank, matches))
  {
    var a, b := IdColumns(number), RatingColumns(rating, score, rank, matches);
    assert PlayerLine(number, rating, score, rank, matches) == "001 " + (a + b);
    IdColumnsPlain(number);
    RatingTailPlain(rating, score, rank, matches);
    CodedLine(a, b);
  }

  /** Plain text followed by plain text ending in a non-space makes a TRF
      line behind `001 `. */
  lemma {:induction false} CodedLine(a: string, b: string)
    requires Plain(a) && Plain(b) && |b| > 0 && !Text.IsSpace(b[|b| - 1])
    ensures Format.Line("001 " + (a + b))
  {
    FillerPlain();
    PlainConcat(a, b);
    PlainConcat("001 ", a + b);
    PlainNoBreak("001 " + (a + b));
  }

  /** Both header records are TRF lines. */
  lemma {:induction false} HeaderAreLines(color: string, totalRounds: int)
    requires color == "white1" || color == "black1"
    ensures forall i :: 0 <= i < |Header(color, totalRounds)| ==> Format.Line(Header(color, totalRounds)[i])
  {
    var c := "XXC " + color;
    assert Plain(c) by {
      assert Safe('X') && Safe('C') && Safe(' ') && Safe('w') && Safe('h') && Safe('i') && Safe('t');
      assert Safe('e') && Safe('1') && Safe('b') && Safe('l') && Safe('a') && Safe('c') && Safe('k');
    }
    PlainNoBreak(c);
    if totalRounds != 0 {
      var x := "XXR " + Text.IntToString(totalRounds);
      IntPlain(totalRounds);
      assert Plain("XXR ") by { assert Safe('X') && Safe('R') && Safe(' '); }
      PlainConcat("XXR ", Text.IntToString(totalRounds));
      PlainNoBreak(x);
      assert x[|x| - 1] == Text.IntToString(totalRounds)[|Text.IntToString(totalRounds)| - 1];
    }
  }

  /** A player record is a TRF line. */
  lemma {:induction false} SeatLineIsLine(s: Seat, place: nat, numbers: map<string, int>, scores: map<string, real>,
                       ranks: map<string, int>, rounds: nat)
    ensures Format.Line(SeatLine(s, place, numbers, scores, ranks, rounds))
  {
    var number := NumberOr(s, place);
    HistoryPlain(s, numbers, rounds);
    PlayerLineIsLine(number, ClampRating(s.rating), if s.id in scores then scores[s.id] else 0.0,
                     if s.id in ranks then ranks[s.id] else number, MatchHistory(s, numbers, rounds));
  }

  /** A player record starts with its code. */
  lemma {:induction false} SeatLineCode(s: Seat, place: nat, numbers: map<string, int>, scores: map<string, real>,
                     ranks: map<string, int>, rounds: nat)
    ensures RecordCode(SeatLine(s, place, numbers, scores, ranks, rounds)) == "001"
  {
    var number := NumberOr(s, place);
    PlayerLineCode(number, ClampRating(s.rating), if s.id in scores then scores[s.id] else 0.0,
                   if s.id in ranks then ranks[s.id] else number, MatchHistory(s, numbers, rounds));
  }

  lemma {:induction false} PlayerLineCode(number: int, rating: int, score: real, rank: int, matches: string)
    ensures RecordCode(PlayerLine(number, rating, score, rank, matches)) == "001"
  {
    PrefixCode(PlayerFields(number, rating, score, rank, matches));
  }

  lemma {:induction false} PrefixCode(t: string)
    ensures RecordCode("001 " + t) == "001"
  {
  }

  /** A TRF line that is a player record. */
  predicate PlayerRecord(l: string) {
    Format.Line(l) && RecordCode(l) == "001"
  }

  lemma {:induction false} SeatRecord(s: Seat, place: nat, numbers: map<string, int>, scores: map<string, real>,
                   ranks: map<string, int>, rounds: nat)
    ensures PlayerRecord(SeatLine(s, place, numbers, scores, ranks, rounds))
  {
    SeatLineIsLine(s, place, numbers, scores, ranks, rounds);
    SeatLineCode(s, place, numbers, scores, ranks, rounds);
  }

  /** Every `001` record is a TRF line starting with its code. */
  lemma {:induction false} SeatLinesAreLines(ordered: seq<Seat>, numbers: map<string, int>, scores: map<string, real>,
                          ranks: map<string, int>, rounds: nat)
    ensures forall i :: 0 <= i < |ordered| ==> PlayerRecord(SeatLines(ordered, numbers, scores, ranks, rounds)[i])
  {
    forall st: Seat, place: nat ensures PlayerRecord(SeatLine(st, place, numbers, scores, ranks, rounds)) {
      SeatRecord(st, place, numbers, scores, ranks, rounds);
    }
  }

  /** The header records: none is a player record, and one is a round-count
      record exactly when the round count is not 0. */
  lemma {:induction false} HeaderCodes(color: string, totalRounds: int)
    ensures forall i :: 0 <= i < |Header(color, totalRounds)| ==> RecordCode(Header(color, totalRounds)[i]) != "001"
    ensures (exists i :: 0 <= i < |Header(color, totalRounds)| && RecordCode(Header(color, totalRounds)[i]) == "XXR")
            <==> totalRounds != 0
  {
    var h := Header(color, totalRounds);
    assert RecordCode(h[0]) == "XXC";
    if totalRounds != 0 {
      assert RecordCode(h[1]) == "XXR";
    }
  }

  /** The lines of two runs of lines. */
  lemma {:induction false} LinesConcat(h: seq<string>, p: seq<string>)
    requires forall i :: 0 <= i < |h| ==> Format.Line(h[i])
    requires forall i :: 0 <= i < |p| ==> Format.Line(p[i])
    ensures forall i :: 0 <= i < |h + p| ==> Format.Line((h + p)[i])
  {
    forall i | 0 <= i < |h + p| ensures Format.Line((h + p)[i]) {
      if i >= |h| { assert (h + p)[i] == p[i - |h|]; }
    }
  }

  lemma {:induction false} TrfLinesAreLines(seats: seq<Seat>, totalRounds: int, rounds: nat, color: string)
    requires color == "white1" || color == "black1"
    ensures forall i :: 0 <= i < |TrfLines(seats, totalRounds, rounds, color)| ==> Format.Line(TrfLines(seats, totalRounds, rounds, color)[i])
  {
    var scores := ScoresOf(seats, rounds);
    var ranks := Ranking(seats, scores);
    HeaderAreLines(color, totalRounds);
    SeatLinesAreLines(ByNumber(seats), NumbersOf(seats), scores, ranks, rounds);
    LinesConcat(Header(color, totalRounds), SeatLines(ByNumber(seats), NumbersOf(seats), scores, ranks, rounds));
  }

  /** Splitting the text of `build_bbp_pairing_trf` into stripped,
      non-empty lines gives back exactly the records it wrote. */
  lemma {:induction false} BuildReadsBack(seats: seq<Seat>, totalRounds: int, currentRound: int, color: string)
    requires BuildPairingTrf(seats, totalRounds, currentRound, color).Success?
    ensures Format.Lines(BuildPairingTrf(seats, totalRounds, currentRound, color).value)
            == TrfLines(seats, totalRounds, currentRound - 1, color)
  {
    TrfLinesAreLines(seats, totalRounds, currentRound - 1, color);
    Format.LinesOfTerminated(TrfLines(seats, totalRounds, currentRound - 1, color));
  }

  /** The record code of a line: its first three characters. */
  function RecordCode(l: string): string {
    if |l| >= 3 then l[..3] else l
  }

  /** The record layout of a TRF text for `players` players: the colour
      record first, a round-count record exactly when the round count is
      not 0, then the player records and nothing else. */
  predicate Layout(ls: seq<string>, color: string, totalRounds: int, players: nat) {
    && |ls| == players + (if totalRounds != 0 then 2 else 1)
    && ls[0] == "XXC " + color
    && ((exists k :: 0 <= k < |ls| && RecordCode(ls[k]) == "XXR") <==> totalRounds != 0)
    && forall k :: 0 <= k < |ls| ==> (RecordCode(ls[k]) == "001" <==> k >= |ls| - players)
  }

  /** Header records followed by player records. */
  lemma {:induction false} CodesConcat(color: string, totalRounds: int, p: seq<string>)
    requires forall i :: 0 <= i < |p| ==> RecordCode(p[i]) == "001"
    ensures Layout(Header(color, totalRounds) + p, color, totalRounds, |p|)
  {
    var h := Header(color, totalRounds);
    HeaderCodes(color, totalRounds);
    assert (h + p)[0] == h[0];
    forall k | 0 <= k < |h + p| ensures RecordCode((h + p)[k]) == "001" <==> k >= |h| {
      if k >= |h| { assert (h + p)[k] == p[k - |h|]; }
    }
    if k :| 0 <= k < |h + p| && RecordCode((h + p)[k]) == "XXR" {
      assert k < |h| && (h + p)[k] == h[k];
    }
    if k :| 0 <= k < |h| && RecordCode(h[k]) == "XXR" {
      assert (h + p)[k] == h[k];
    }
  }

  /** `build_bbp_pairing_trf` writes the colour record first, a round-count
      record exactly when the round count is not 0, and then one player
      record per player. */
  lemma {:induction false} TrfLayout(seats: seq<Seat>, totalRounds: int, rounds: nat, color: string)
    ensures Layout(TrfLines(seats, totalRounds, rounds, color), color, totalRounds, |seats|)
  {
    var scores := ScoresOf(seats, rounds);
    var p := SeatLines(ByNumber(seats), NumbersOf(seats), scores, Ranking(seats, scores), rounds);
    SeatLinesAreLines(ByNumber(seats), NumbersOf(seats), scores, Ranking(seats, scores), rounds);
    CodesConcat(color, totalRounds, p);
  }

  /** The player records go by pairing number, a player without one
      first, and hold every player once. */
  lemma {:induction false} ByNumberOrdered(seats: seq<Seat>)
    ensures multiset(ByNumber(seats)) == multiset(seats)
    ensures forall i, j :: 0 <= i < j < |ByNumber(seats)| ==>
              NumberOr(ByNumber(seats)[i], 0) <= NumberOr(ByNumber(seats)[j], 0)
  {
    var r := ByNumber(seats);
    assert Sorting.SortedBy(r, NumberKey);
    forall i, j | 0 <= i < j < |r| ensures NumberOr(r[i], 0) <= NumberOr(r[j], 0) {
      Sorting.LexHead(NumberKey(r[i]), NumberKey(r[j]));
    }
  }

  /** When every player has a pairing number and the ids are distinct, the
      number a history prints for an opponent is the opponent's own
      pairing number, and so is the number in its player record. */
  lemma {:induction false} NumbersAgree(seats: seq<Seat>, i: nat)
    requires DistinctSeats(seats)
    requires forall k :: 0 <= k < |seats| ==> seats[k].pairingNumber.Some? && seats[k].pairingNumber.value != 0
    requires i < |seats|
    ensures seats[i].id in NumbersOf(seats) && NumbersOf(seats)[seats[i].id] == seats[i].pairingNumber.value
    ensures forall place :: NumberOr(seats[i], place) == seats[i].pairingNumber.value
  {
    var m := NumbersOf(seats);
    NumbersOfEntries(seats);
    var j :| 0 <= j < |seats| && seats[j].id == seats[i].id && m[seats[i].id] == NumberOr(seats[j], j + 1);
  }

  // ---------------------------------------------------- engine's output

  /** The pairs read from the engine's output and the player given the bye. */
  datatype Parsed = Parsed(pairs: seq<(Seat, Seat)>, bye: Option<Seat>)

  datatype OutputError = EmptyOutput

  /** What a line after the first says: nothing usable (fewer than two
      words, or a word that is not an integer), a bye for the first number
      (the second is 0 or repeats it), or a pair, white first. */
  datatype Entry = Ignored | ByeTo(player: int) | PairOf(white: int, black: int)

  /** `{p.pairing_number: p for p in players}.get(n)`: the last player with
      that pairing number. */
  function Lookup(seats: seq<Seat>, n: int): (r: Option<Seat>)
    ensures r.Some? ==> r.value in seats && r.value.pairingNumber == Some(n)
    ensures r.None? <==> forall i :: 0 <= i < |seats| ==> seats[i].pairingNumber != Some(n)
  {
    if seats == [] then None
    else if seats[|seats| - 1].pairingNumber == Some(n) then Some(seats[|seats| - 1])
    else
      var init := seats[..|seats| - 1];
      assert forall i :: 0 <= i < |init| ==> init[i] == seats[i];
      Lookup(init, n)
  }

  function Classify(line: string): (e: Entry)
    ensures e.PairOf? ==> e.black != 0 && e.black != e.white
  {
    var parts := Format.Words(line);
    if |parts| < 2 then Ignored
    else match (Text.ParseInt(parts[0]), Text.ParseInt(parts[1]))
      case (Some(w), Some(b)) => if b == 0 || b == w then ByeTo(w) else PairOf(w, b)
      case _ => Ignored
  }

  /** One line's effect: an unknown white player skips the line; a bye goes
      to a known player, overriding an earlier one; a pair of two known
      players is added after the earlier ones. */
  function Apply(seats: seq<Seat>, acc: Parsed, e: Entry): (r: Parsed)
    ensures r.pairs == acc.pairs || (|r.pairs| == |acc.pairs| + 1 && r.pairs[..|acc.pairs|] == acc.pairs)
    ensures r.bye == acc.bye || (r.bye.Some? && r.pairs == acc.pairs)
  {
    match e
    case Ignored => acc
    case ByeTo(n) => if Lookup(seats, n).Some? then acc.(bye := Lookup(seats, n)) else acc
    case PairOf(w, b) =>
      if Lookup(seats, w).Some? && Lookup(seats, b).Some?
      then acc.(pairs := acc.pairs + [(Lookup(seats, w).value, Lookup(seats, b).value)])
      else acc
  }

  function Entries(lines: seq<string>): (es: seq<Entry>)
    ensures |es| == |lines|
  {
    if lines == [] then [] else [Classify(lines[0])] + Entries(lines[1..])
  }

  /** The entries in order. */
  function Fold(seats: seq<Seat>, acc: Parsed, es: seq<Entry>): Parsed
    decreases |es|
  {
    if es == [] then acc else Fold(seats, Apply(seats, acc, es[0]), es[1..])
  }

  /** `parse_bbp_pairing_output`: the first non-blank line (the engine's
      pair count) is skipped; an output without any non-blank line is an
      error. */
  function ParseOutput(text: string, seats: seq<Seat>): (r: Result<Parsed, OutputError>)
    ensures r.Failure? <==> Format.Lines(text) == []
  {
    var ls := Format.Lines(text);
    if ls == [] then Failure(EmptyOutput) else Success(Fold(seats, Parsed([], None), Entries(ls[1..])))
  }

  /** Every pair read joins two players of the list with different
      pairing numbers, and the bye goes to a player of the list. */
  predicate FromList(seats: seq<Seat>, p: Parsed) {
    && (forall k :: 0 <= k < |p.pairs| ==>
          p.pairs[k].0 in seats && p.pairs[k].1 in seats && p.pairs[k].0.pairingNumber != p.pairs[k].1.pairingNumber)
    && (p.bye.Some? ==> p.bye.value in seats)
  }

  /** Entries that name a pair name two different numbers. */
  predicate Distinct(es: seq<Entry>) {
    forall k :: 0 <= k < |es| && es[k].PairOf? ==> es[k].white != es[k].black
  }

  lemma {:induction false} EntriesDistinct(lines: seq<string>)
    ensures Distinct(Entries(lines))
  {
    if lines != [] {
      EntriesDistinct(lines[1..]);
      forall k | 0 < k < |lines| ensures Entries(lines)[k] == Entries(lines[1..])[k - 1] {}
    }
  }

  lemma {:induction false} FoldFromList(seats: seq<Seat>, acc: Parsed, es: seq<Entry>)
    requires FromList(seats, acc) && Distinct(es)
    ensures FromList(seats, Fold(seats, acc, es))
    decreases |es|
  {
    if es != [] {
      var next := Apply(seats, acc, es[0]);
      assert FromList(seats, next);
      assert Distinct(es[1..]) by {
        forall k | 0 <= k < |es[1..]| && es[1..][k].PairOf? ensures es[1..][k].white != es[1..][k].black {
          assert es[1..][k] == es[k + 1];
        }
      }
      FoldFromList(seats, next, es[1..]);
    }
  }

  /** What a successful reading holds: pairs of two listed players with
      different numbers, and a listed player for the bye. */
  lemma {:induction false} ParsedFromList(text: string, seats: seq<Seat>)
    requires ParseOutput(text, seats).Success?
    ensures FromList(seats, ParseOutput(text, seats).value)
  {
    EntriesDistinct(Format.Lines(text)[1..]);
    FoldFromList(seats, Parsed([], None), Entries(Format.Lines(text)[1..]));
  }

  /** Reading two runs of entries is reading the first, then the second. */
  lemma {:induction false} FoldAppend(seats: seq<Seat>, acc: Parsed, a: seq<Entry>, b: seq<Entry>)
    ensures Fold(seats, acc, a + b) == Fold(seats, Fold(seats, acc, a), b)
    decreases |a|
  {
    if a == [] {
      assert a + b == b;
    } else {
      assert (a + b)[0] == a[0] && (a + b)[1..] == a[1..] + b;
      FoldAppend(seats, Apply(seats, acc, a[0]), a[1..], b);
    }
  }

  lemma {:induction false} EntriesAppend(a: seq<string>, b: seq<string>)
    ensures Entries(a + b) == Entries(a) + Entries(b)
    decreases |a|
  {
    if a == [] {
      assert a + b == b;
    } else {
      assert (a + b)[0] == a[0] && (a + b)[1..] == a[1..] + b;
      EntriesAppend(a[1..], b);
    }
  }

  /** The last bye line for a listed player decides the bye, whatever the
      lines before it said. */
  lemma {:induction false} LastByeWins(seats: seq<Seat>, acc: Parsed, es: seq<Entry>, n: int)
    requires Lookup(seats, n).Some?
    ensures Fold(seats, acc, es + [ByeTo(n)]).bye == Lookup(seats, n)
  {
    FoldAppend(seats, acc, es, [ByeTo(n)]);
  }

  // ------------------------------------------------ output round trip

  /** An output line: two numbers separated by a space. */
  function PairLine(w: int, b: int): string {
    Text.IntToString(w) + " " + Text.IntToString(b)
  }

  function PairLines(pairs: seq<(int, int)>): (ls: seq<string>)
    ensures |ls| == |pairs|
  {
    if pairs == [] then [] else [PairLine(pairs[0].0, pairs[0].1)] + PairLines(pairs[1..])
  }

  function ByeLines(bye: Option<int>): seq<string> {
    if bye.Some? then [PairLine(bye.value, 0)] else []
  }

  /** The engine's output for the given pairs and bye: the pair count, a
      line per pair, and `n 0` for the player with the bye. */
  function RenderOutput(pairs: seq<(int, int)>, bye: Option<int>): string {
    Text.Join([Text.IntToString(|pairs|)] + PairLines(pairs) + ByeLines(bye), '\n') + "\n"
  }

  /** `n` is the pairing number of a listed player. */
  predicate Listed(seats: seq<Seat>, n: int) {
    Lookup(seats, n).Some?
  }

  /** Pairs of listed, different players. */
  predicate ProperPairs(seats: seq<Seat>, pairs: seq<(int, int)>) {
    forall i :: 0 <= i < |pairs| ==>
      Listed(seats, pairs[i].0) && Listed(seats, pairs[i].1) && pairs[i].0 != pairs[i].1 && pairs[i].1 != 0
  }

  /** The players the numbers of the pairs stand for. */
  function Resolved(seats: seq<Seat>, pairs: seq<(int, int)>): seq<(Seat, Seat)>
    requires ProperPairs(seats, pairs)
  {
    if pairs == [] then []
    else [(Lookup(seats, pairs[0].0).value, Lookup(seats, pairs[0].1).value)] + Resolved(seats, pairs[1..])
  }

  function PairEntries(pairs: seq<(int, int)>): seq<Entry> {
    if pairs == [] then [] else [PairOf(pairs[0].0, pairs[0].1)] + PairEntries(pairs[1..])
  }

  lemma {:induction false} IntWord(n: int)
    ensures Format.Word(Text.IntToString(n))
  {
    var d := Text.NatToString(if n < 0 then -n else n);
    forall k | 0 <= k < |d| ensures !Text.IsSpace(d[k]) {
      NotSpace(d[k]);
    }
    if n < 0 {
      assert Text.IntToString(n) == "-" + d;
      assert forall k :: 0 < k < |Text.IntToString(n)| ==> Text.IntToString(n)[k] == d[k - 1];
    }
  }

  lemma {:induction false} WordsOfPairLine(w: int, b: int)
    ensures Format.Words(PairLine(w, b)) == [Text.IntToString(w), Text.IntToString(b)]
  {
    IntWord(w);
    IntWord(b);
    var ws := [Text.IntToString(w), Text.IntToString(b)];
    assert Text.Join(ws, ' ') == PairLine(w, b) by {
      assert ws[1..] == [Text.IntToString(b)];
    }
    Format.WordsOfJoin(ws);
  }

  lemma {:induction false} PairLineIsLine(w: int, b: int)
    ensures Format.Line(PairLine(w, b))
  {
    var l := PairLine(w, b);
    IntWord(w);
    IntWord(b);
    IntPlain(w);
    IntPlain(b);
    assert Plain(" ") by { assert Safe(' '); }
    PlainConcat(Text.IntToString(w), " ");
    PlainConcat(Text.IntToString(w) + " ", Text.IntToString(b));
    PlainNoBreak(l);
    assert l[0] == Text.IntToString(w)[0];
    assert l[|l| - 1] == Text.IntToString(b)[|Text.IntToString(b)| - 1];
  }

  /** A line `w b` reads as a pair when the numbers differ and `b` is not
      0, and as a bye for `w` otherwise. */
  lemma {:induction false} ClassifyPairLine(w: int, b: int)
    ensures Classify(PairLine(w, b)) == if b == 0 || b == w then ByeTo(w) else PairOf(w, b)
  {
    WordsOfPairLine(w, b);
    Text.ParseIntOfIntToString(w);
    Text.ParseIntOfIntToString(b);
  }

  lemma {:induction false} EntriesOfPairLines(pairs: seq<(int, int)>)
    requires forall i :: 0 <= i < |pairs| ==> pairs[i].0 != pairs[i].1 && pairs[i].1 != 0
    ensures Entries(PairLines(pairs)) == PairEntries(pairs)
  {
    if pairs != [] {
      ClassifyPairLine(pairs[0].0, pairs[0].1);
      EntriesOfPairLines(pairs[1..]);
    }
  }

  lemma {:induction false} FoldPairs(seats: seq<Seat>, acc: Parsed, pairs: seq<(int, int)>)
    requires ProperPairs(seats, pairs)
    ensures Fold(seats, acc, PairEntries(pairs)) == acc.(pairs := acc.pairs + Resolved(seats, pairs))
    decreases |pairs|
  {
    if pairs == [] {
      assert acc.pairs + [] == acc.pairs;
    } else {
      var x := (Lookup(seats, pairs[0].0).value, Lookup(seats, pairs[0].1).value);
      var next := acc.(pairs := acc.pairs + [x]);
      assert ProperPairs(seats, pairs[1..]) by {
        forall i | 0 <= i < |pairs[1..]| ensures pairs[1..][i] == pairs[i + 1] {}
      }
      FoldPairs(seats, next, pairs[1..]);
      Associative(acc.pairs, [x], Resolved(seats, pairs[1..]));
    }
  }

  lemma {:induction false} Associative<T>(a: seq<T>, b: seq<T>, c: seq<T>)
    ensures (a + b) + c == a + (b + c)
  {
  }

  /** Every line of a rendered output is a TRF-style line. */
  lemma {:induction false} PairLinesAreLines(pairs: seq<(int, int)>)
    ensures forall i :: 0 <= i < |pairs| ==> Format.Line(PairLines(pairs)[i])
  {
    if pairs != [] {
      PairLinesAreLines(pairs[1..]);
      PairLineIsLine(pairs[0].0, pairs[0].1);
      forall i | 0 < i < |pairs| ensures Format.Line(PairLines(pairs)[i]) {
        assert PairLines(pairs)[i] == PairLines(pairs[1..])[i - 1];
      }
    }
  }

  lemma {:induction false} RenderedAreLines(pairs: seq<(int, int)>, bye: Option<int>)
    ensures forall i :: 0 <= i < |[Text.IntToString(|pairs|)] + PairLines(pairs) + ByeLines(bye)| ==>
              Format.Line(([Text.IntToString(|pairs|)] + PairLines(pairs) + ByeLines(bye))[i])
  {
    var ls := [Text.IntToString(|pairs|)] + PairLines(pairs) + ByeLines(bye);
    PairLinesAreLines(pairs);
    forall i | 0 <= i < |ls| ensures Format.Line(ls[i]) {
      if i == 0 {
        var c := Text.IntToString(|pairs|);
        IntWord(|pairs|);
        IntPlain(|pairs|);
        PlainNoBreak(c);
      } else if i <= |pairs| {
        assert ls[i] == PairLines(pairs)[i - 1];
      } else {
        assert ls[i] == PairLine(bye.value, 0);
        PairLineIsLine(bye.value, 0);
      }
    }
  }

  lemma {:induction false} RenderedLines(pairs: seq<(int, int)>, bye: Option<int>)
    ensures Format.Lines(RenderOutput(pairs, bye)) == [Text.IntToString(|pairs|)] + PairLines(pairs) + ByeLines(bye)
  {
    RenderedAreLines(pairs, bye);
    Format.LinesOfTerminated([Text.IntToString(|pairs|)] + PairLines(pairs) + ByeLines(bye));
  }

  /** Reading the engine's output gives back the pairs of listed players it
      names, in order, and the listed player it gives the bye; the pair
      count on the first line is not read. */
  lemma {:induction false} OutputRoundTrip(seats: seq<Seat>, pairs: seq<(int, int)>, bye: Option<int>)
    requires ProperPairs(seats, pairs)
    requires bye.Some? ==> Listed(seats, bye.value)
    ensures ParseOutput(RenderOutput(pairs, bye), seats)
            == Success(Parsed(Resolved(seats, pairs), if bye.Some? then Lookup(seats, bye.value) else None))
  {
    RenderedLines(pairs, bye);
    OutputEntries(pairs, bye);
    FoldOutput(seats, pairs, bye);
  }

  /** The lines after the first read as the pair entries, then the bye's. */
  lemma {:induction false} OutputEntries(pairs: seq<(int, int)>, bye: Option<int>)
    requires forall i :: 0 <= i < |pairs| ==> pairs[i].0 != pairs[i].1 && pairs[i].1 != 0
    ensures Entries(([Text.IntToString(|pairs|)] + PairLines(pairs) + ByeLines(bye))[1..])
            == PairEntries(pairs) + Entries(ByeLines(bye))
  {
    DropFirst(Text.IntToString(|pairs|), PairLines(pairs), ByeLines(bye));
    EntriesAppend(PairLines(pairs), ByeLines(bye));
    EntriesOfPairLines(pairs);
  }

  /** Applying the entries gives the resolved pairs and the bye. */
  lemma {:induction false} FoldOutput(seats: seq<Seat>, pairs: seq<(int, int)>, bye: Option<int>)
    requires ProperPairs(seats, pairs)
    requires bye.Some? ==> Listed(seats, bye.value)
    ensures Fold(seats, Parsed([], None), PairEntries(pairs) + Entries(ByeLines(bye)))
            == Parsed(Resolved(seats, pairs), if bye.Some? then Lookup(seats, bye.value) else None)
  {
    var empty := Parsed([], None);
    FoldAppend(seats, empty, PairEntries(pairs), Entries(ByeLines(bye)));
    FoldPairs(seats, empty, pairs);
    var mid := Parsed(Resolved(seats, pairs), None);
    assert Fold(seats, empty, PairEntries(pairs)) == mid;
    if bye.Some? {
      ClassifyPairLine(bye.value, 0);
      assert Entries(ByeLines(bye)) == [ByeTo(bye.value)];
      assert Fold(seats, mid, [ByeTo(bye.value)]) == mid.(bye := Lookup(seats, bye.value));
    } else {
      assert Fold(seats, mid, Entries(ByeLines(bye))) == mid;
    }
  }

  lemma {:induction false} DropFirst<T>(x: T, a: seq<T>, b: seq<T>)
    ensures ([x] + a + b)[1..] == a + b
  {
  }
}
