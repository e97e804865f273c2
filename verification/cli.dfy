/** The comparison command line, comparison/cli.py: the size and rounds
    arguments, the per-tournament seed, and the per-round snapshot of a
    generated tournament that both engines are compared on. */
module Cli {
  import opened Wrappers
  import opened Colors
  import Text
  import Seqs
  import Sorting
  import Players
  import Metrics
  import Constants

  type Player = Players.Player

  // ------------------------------------------------------- range arguments

  /** The largest size or number of rounds accepted. */
  const Limit: int := 10000

  /** The smallest tournament size and the smallest number of rounds. */
  const SizeFloor: int := 4
  const RoundsFloor: int := 1

  datatype RangeError = NotTwoParts | NotIntegers | NotIncreasing | BelowFloor | AboveLimit | NotAnInteger

  /** `_parse_range_value`: any value holding '-' is read as MIN-MAX, any
      other as a single integer. */
  function ParseRange(value: string, floor: int): (r: Result<seq<int>, RangeError>)
    ensures r.Success? ==> forall i :: 0 <= i < |r.value| ==> floor <= r.value[i] <= Limit
    ensures r.Success? && '-' in Text.Strip(value) ==> |r.value| == 2 && r.value[0] < r.value[1]
    ensures r.Success? && '-' !in Text.Strip(value) ==> |r.value| == 1
  {
    var v := Text.Strip(value);
    if '-' in v then ParsePair(Text.Split(v, '-'), floor) else ParseSingle(v, floor)
  }

  /** The MIN-MAX branch: exactly two integer parts, increasing, within the
      floor and the limit. */
  function ParsePair(parts: seq<string>, floor: int): (r: Result<seq<int>, RangeError>)
    ensures r.Success? ==> |r.value| == 2 && floor <= r.value[0] < r.value[1] <= Limit
    ensures r.Success? ==> forall i :: 0 <= i < |r.value| ==> floor <= r.value[i] <= Limit
    ensures r.Success? <==> |parts| == 2 && Text.ParseInt(parts[0]).Some? && Text.ParseInt(parts[1]).Some?
                            && floor <= Text.ParseInt(parts[0]).value < Text.ParseInt(parts[1]).value <= Limit
  {
    if |parts| != 2 then Failure(NotTwoParts)
    else
      var lo, hi := Text.ParseInt(parts[0]), Text.ParseInt(parts[1]);
      if lo.None? || hi.None? then Failure(NotIntegers)
      else if lo.value >= hi.value then Failure(NotIncreasing)
      else if lo.value < floor then Failure(BelowFloor)
      else if hi.value > Limit then Failure(AboveLimit)
      else Success([lo.value, hi.value])
  }

  /** The single-value branch: an integer within the floor and the limit. */
  function ParseSingle(v: string, floor: int): (r: Result<seq<int>, RangeError>)
    ensures r.Success? ==> |r.value| == 1 && floor <= r.value[0] <= Limit
    ensures r.Success? ==> forall i :: 0 <= i < |r.value| ==> floor <= r.value[i] <= Limit
    ensures r.Success? <==> Text.ParseInt(v).Some? && floor <= Text.ParseInt(v).value <= Limit
  {
    match Text.ParseInt(v)
    case None => Failure(NotAnInteger)
    case Some(n) =>
      if n < floor then Failure(BelowFloor)
      else if n > Limit then Failure(AboveLimit)
      else Success([n])
  }

  function ParseSizeRange(value: string): Result<seq<int>, RangeError> {
    ParseRange(value, SizeFloor)
  }

  function ParseRoundsRange(value: string): Result<seq<int>, RangeError> {
    ParseRange(value, RoundsFloor)
  }

  lemma NoDash(n: nat)
    ensures '-' !in Text.IntToString(n)
  {
  }

  /** A number's text has no surrounding whitespace. */
  lemma StripNumber(n: nat, rest: string)
    requires |rest| > 0 ==> Text.IsDigit(rest[|rest| - 1])
    ensures Text.Strip(Text.IntToString(n) + rest) == Text.IntToString(n) + rest
  {
    var v := Text.IntToString(n) + rest;
    assert v[0] == Text.IntToString(n)[0];
    Text.StripOfTrimmed(v);
  }

  /** The text of a range of natural numbers is its own strip and splits
      into the two numbers' texts. */
  lemma RangeText(lo: nat, hi: nat)
    ensures var v := Text.IntToString(lo) + "-" + Text.IntToString(hi);
            Text.Strip(v) == v && '-' in v && Text.Split(v, '-') == [Text.IntToString(lo), Text.IntToString(hi)]
  {
    var a, b := Text.IntToString(lo), Text.IntToString(hi);
    var v := a + "-" + b;
    assert v == a + ("-" + b);
    StripNumber(lo, "-" + b);
    NoDash(lo);
    NoDash(hi);
    assert v == a + ['-'] + b;
    assert v[|a|] == '-';
    Text.SplitOnce(a, b, '-');
  }

  /** Every range the parser accepts is read back from its own text. */
  lemma RangeRoundTrip(lo: int, hi: int, floor: int)
    requires 0 <= lo && floor <= lo < hi <= Limit
    ensures ParseRange(Text.IntToString(lo) + "-" + Text.IntToString(hi), floor) == Success([lo, hi])
  {
    var a, b := Text.IntToString(lo), Text.IntToString(hi);
    RangeText(lo, hi);
    Text.ParseIntOfIntToString(lo);
    Text.ParseIntOfIntToString(hi);
    assert ParsePair([a, b], floor) == Success([lo, hi]);
  }

  /** Every single value the parser accepts is read back from its own text. */
  lemma SingleRoundTrip(n: int, floor: int)
    requires 0 <= n && floor <= n <= Limit
    ensures ParseRange(Text.IntToString(n), floor) == Success([n])
  {
    var s := Text.IntToString(n);
    StripNumber(n, "");
    assert s + "" == s;
    NoDash(n);
    Text.ParseIntOfIntToString(n);
  }

  /** A leading minus makes a range with an empty first part: "-5" is
      rejected rather than read as a negative single value. */
  lemma NegativeRejected()
    ensures ParseSizeRange("-5") == Failure(NotIntegers)
    ensures ParseRoundsRange("-5") == Failure(NotIntegers)
  {
    var v := "-5";
    Text.StripOfTrimmed(v);
    assert v == [] + ['-'] + "5";
    Text.SplitOnce([], "5", '-');
  }

  lemma ExampleTexts()
    ensures Text.IntToString(24) == "24" && Text.IntToString(16) == "16" && Text.IntToString(64) == "64"
    ensures Text.IntToString(7) == "7" && Text.IntToString(5) == "5" && Text.IntToString(9) == "9"
    ensures "16" + "-" + "64" == "16-64" && "5" + "-" + "9" == "5-9"
  {
    assert Text.NatToString(2) == ['2'] && Text.DigitChar(4) == '4';
    assert Text.NatToString(1) == ['1'] && Text.DigitChar(6) == '6';
    assert Text.NatToString(6) == ['6'];
    var r := "16" + "-" + "64";
    assert r[0] == '1' && r[1] == '6' && r[2] == '-' && r[3] == '6' && r[4] == '4';
    var q := "5" + "-" + "9";
    assert q[0] == '5' && q[1] == '-' && q[2] == '9';
  }

  /** The documented size examples, "24" and "16-64". */
  lemma SizeExamples()
    ensures ParseSizeRange("24") == Success([24])
    ensures ParseSizeRange("16-64") == Success([16, 64])
  {
    ExampleTexts();
    SingleRoundTrip(24, SizeFloor);
    RangeRoundTrip(16, 64, SizeFloor);
  }

  /** The documented rounds examples, "7" and "5-9". */
  lemma RoundsExamples()
    ensures ParseRoundsRange("7") == Success([7])
    ensures ParseRoundsRange("5-9") == Success([5, 9])
  {
    ExampleTexts();
    SingleRoundTrip(7, RoundsFloor);
    RangeRoundTrip(5, 9, RoundsFloor);
  }

  // ------------------------------------------------------------------ seed

  /** `args.seed + i if args.seed else None`: a seed of 0, like no seed,
      leaves every tournament unseeded. */
  function TournamentSeed(base: Option<int>, i: nat): (r: Option<int>)
    ensures r.Some? <==> base.Some? && base.value != 0
    ensures r.Some? ==> r.value - i == base.value
  {
    if base.Some? && base.value != 0 then Some(base.value + i) else None
  }

  /** Seeded tournaments of one run get different seeds. */
  lemma SeedsDistinct(base: Option<int>, i: nat, j: nat)
    requires i != j && TournamentSeed(base, i).Some?
    ensures TournamentSeed(base, i) != TournamentSeed(base, j)
  {
  }

  // --------------------------------------------------------- remapping

  /** The id a pairing entry refers to: a player's id, or the id itself. */
  function RefId(r: Metrics.Ref): string {
    match r
    case Obj(p) => p.id
    case Id(id) => id
  }

  predicate Known(p: (Metrics.Ref, Metrics.Ref), snapshot: map<string, Player>) {
    RefId(p.0) in snapshot && RefId(p.1) in snapshot
  }

  /** `_remap_pairings`: each pairing whose two ids are in the snapshot,
      in order, as the snapshot's players. */
  function RemapPairings(raw: seq<(Metrics.Ref, Metrics.Ref)>, snapshot: map<string, Player>)
    : (r: seq<(Player, Player)>)
    ensures |r| <= |raw|
    ensures forall i :: 0 <= i < |r| ==> r[i].0 in snapshot.Values && r[i].1 in snapshot.Values
    ensures (forall i :: 0 <= i < |raw| ==> Known(raw[i], snapshot)) ==> |r| == |raw|
    ensures (forall i :: 0 <= i < |raw| ==> !Known(raw[i], snapshot)) ==> r == []
  {
    if raw == [] then []
    else
      var rest := RemapPairings(raw[1..], snapshot);
      assert forall i :: 1 <= i < |raw| ==> raw[i] == raw[1..][i - 1];
      if Known(raw[0], snapshot) then [(snapshot[RefId(raw[0].0)], snapshot[RefId(raw[0].1)])] + rest
      else rest
  }

  /** Remapping keeps the order: two lists remap to the two remapped lists
      one after the other. */
  lemma {:induction false} RemapAppend(a: seq<(Metrics.Ref, Metrics.Ref)>, b: seq<(Metrics.Ref, Metrics.Ref)>,
                                       snapshot: map<string, Player>)
    ensures RemapPairings(a + b, snapshot) == RemapPairings(a, snapshot) + RemapPairings(b, snapshot)
  {
    if a != [] {
      assert (a + b)[0] == a[0] && (a + b)[1..] == a[1..] + b;
      RemapAppend(a[1..], b, snapshot);
    } else {
      assert a + b == b;
    }
  }

  /** A pairing both of whose ids are known maps to the snapshot's players
      under those ids. */
  lemma RemapOne(p: (Metrics.Ref, Metrics.Ref), snapshot: map<string, Player>)
    requires Known(p, snapshot)
    ensures RemapPairings([p], snapshot) == [(snapshot[RefId(p.0)], snapshot[RefId(p.1)])]
  {
  }

  // ------------------------------------------------------------- snapshot

  /** A stored result row. Dictionary rows and tuple rows differ only in
      how a missing black score is filled in; an empty id stands for a
      missing one. */
  datatype RawResult = RawResult(fromDict: bool, whiteId: string, blackId: string,
                                 whiteScore: Option<real>, blackScore: Option<real>, forfeit: bool)

  /** A stored round. `number` is the round number, 0 when absent. */
  datatype RoundData = RoundData(number: int, pairings: seq<(string, string)>, results: seq<RawResult>,
                                 byePlayerId: string, byePlayer: string,
                                 halfPoint: seq<string>, zeroPoint: seq<string>)

  type Scores = map<(string, string), (real, real)>

  /** The two scores a row records, if it records one: a tuple row of a
      forfeit lost by White gives Black nothing, any other row without a
      black score gives Black the complement of White's. */
  function RowScores(r: RawResult): (s: Option<(real, real)>)
    ensures s.Some? <==> r.whiteId != "" && r.blackId != "" && r.whiteScore.Some?
    ensures s.Some? ==> s.value.0 == r.whiteScore.value
    ensures s.Some? && r.blackScore.Some? ==> s.value.1 == r.blackScore.value
    ensures s.Some? && r.blackScore.None? && !(r.forfeit && !r.fromDict && r.whiteScore.value == 0.0)
            ==> s.value.1 == 1.0 - r.whiteScore.value
  {
    if r.whiteId != "" && r.blackId != "" && r.whiteScore.Some? then
      var w := r.whiteScore.value;
      var b := if r.blackScore.Some? then r.blackScore.value
               else if !r.fromDict && r.forfeit && w == Constants.LossScore then Constants.LossScore
               else Constants.WinScore - w;
      Some((w, b))
    else None
  }

  /** The round's result map: each recorded pair with its scores, a later
      row for the same pair replacing an earlier one. */
  function ResultsMap(rows: seq<RawResult>): (m: Scores)
    ensures forall w, b :: (w, b) in m <==>
              exists i :: 0 <= i < |rows| && rows[i].whiteId == w && rows[i].blackId == b && RowScores(rows[i]).Some?
  {
    if rows == [] then map[]
    else
      var m := ResultsMap(rows[..|rows| - 1]);
      var last := rows[|rows| - 1];
      assert forall i :: 0 <= i < |rows| - 1 ==> rows[..|rows| - 1][i] == rows[i];
      match RowScores(last)
      case Some(sc) => m[(last.whiteId, last.blackId) := sc]
      case None => m
  }

  /** A round's bye: `bye_player_id`, or `bye_player` when that is empty. */
  function ByeId(r: RoundData): string {
    if r.byePlayerId != "" then r.byePlayerId else r.byePlayer
  }

  /** `_create_fresh_player`: the player's identity and standing data with
      an empty history. */
  function Fresh(p: Player): (f: Player)
    ensures f.id == p.id && f.name == p.name && f.rating == p.rating && f.isActive == p.isActive
    ensures Players.Consistent(f) && |f.results| == 0 && |f.matchHistory| == 0 && f.score == 0.0
  {
    Players.NewPlayer(p.id, p.name, Some(p.rating), None, None, p.club, p.gender, None, p.federation)
      .(isActive := p.isActive)
  }

  /** The snapshot's players by id, with their ids in the order they were
      first seen; a later player with the same id replaces the earlier. */
  function Register(ps: seq<Player>): (r: (map<string, Player>, seq<string>))
    ensures Registered(ps, r)
  {
    if ps == [] then (map[], [])
    else
      var prev := Register(ps[..|ps| - 1]);
      RegisterStep(ps, prev);
      Enter(prev, Fresh(ps[|ps| - 1]))
  }

  /** `r` holds one fresh entry per id of `ps`, and lists each id once. */
  ghost predicate Registered(ps: seq<Player>, r: (map<string, Player>, seq<string>)) {
    && (forall id :: id in r.0 <==> exists i :: 0 <= i < |ps| && ps[i].id == id)
    && (forall id :: id in r.0 <==> id in r.1)
    && (forall i, j :: 0 <= i < j < |r.1| ==> r.1[i] != r.1[j])
    && (forall id :: id in r.0 ==> r.0[id].id == id && Players.Consistent(r.0[id]) && |r.0[id].results| == 0)
  }

  /** Stores `p` under its id; a new id goes to the end of the order. */
  function Enter(prev: (map<string, Player>, seq<string>), p: Player): (map<string, Player>, seq<string>) {
    if p.id in prev.0 then (prev.0[p.id := p], prev.1) else (prev.0[p.id := p], prev.1 + [p.id])
  }

  lemma RegisterStep(ps: seq<Player>, prev: (map<string, Player>, seq<string>))
    requires |ps| > 0 && Registered(ps[..|ps| - 1], prev)
    ensures Registered(ps, Enter(prev, Fresh(ps[|ps| - 1])))
  {
    var init, p := ps[..|ps| - 1], Fresh(ps[|ps| - 1]);
    var r := Enter(prev, p);
    forall id ensures id in r.0 <==> exists i :: 0 <= i < |ps| && ps[i].id == id {
      if id in prev.0 {
        var i :| 0 <= i < |init| && init[i].id == id;
        assert ps[i].id == id;
      }
      if exists i :: 0 <= i < |ps| && ps[i].id == id {
        var i :| 0 <= i < |ps| && ps[i].id == id;
        if i < |ps| - 1 {
          assert init[i].id == id;
        }
      }
    }
    forall i, j | 0 <= i < j < |r.1| ensures r.1[i] != r.1[j] {
      if p.id !in prev.0 && j == |r.1| - 1 {
        assert r.1[i] == prev.1[i];
      }
    }
  }

  /** `m` holds, under each of its ids, the fresh copy of the last input
      player with that id. */
  ghost predicate LastFresh(ps: seq<Player>, m: map<string, Player>) {
    forall id :: id in m ==>
      exists i :: 0 <= i < |ps| && ps[i].id == id && m[id] == Fresh(ps[i]) && forall j :: i < j < |ps| ==> ps[j].id != id
  }

  /** Some player with id `a` shows up before any player with id `b`. */
  ghost predicate ShowsBefore(ps: seq<Player>, a: string, b: string) {
    exists i :: 0 <= i < |ps| && ps[i].id == a && forall j :: 0 <= j <= i ==> ps[j].id != b
  }

  /** `order` lists ids in the order the input first shows them: an id
      comes before another only when it shows up before the other's first
      appearance. */
  ghost predicate FirstSeenOrder(ps: seq<Player>, order: seq<string>) {
    forall k1, k2 :: 0 <= k1 < k2 < |order| ==> ShowsBefore(ps, order[k1], order[k2])
  }

  /** Each registered player is the fresh copy of the last input player
      with that id. */
  lemma RegisterLast(ps: seq<Player>)
    ensures LastFresh(ps, Register(ps).0)
  {
    RegisterIsFiling(ps);
    FilingLast(IdList(ps), FreshList(ps));
    LastOfAll(ps, Register(ps).0);
  }

  /** The registered ids follow the input's first-seen order. */
  lemma RegisterOrder(ps: seq<Player>)
    ensures FirstSeenOrder(ps, Register(ps).1)
  {
    RegisterIsFiling(ps);
    FilingOrder(IdList(ps), FreshList(ps));
    FirstSeenAll(ps, Register(ps).1);
  }

  function IdList(ps: seq<Player>): (ids: seq<string>)
    ensures |ids| == |ps| && forall i :: 0 <= i < |ps| ==> ids[i] == ps[i].id
  {
    seq(|ps|, i requires 0 <= i < |ps| => ps[i].id)
  }

  function FreshList(ps: seq<Player>): (fs: seq<Player>)
    ensures |fs| == |ps| && forall i :: 0 <= i < |ps| ==> fs[i] == Fresh(ps[i])
  {
    seq(|ps|, i requires 0 <= i < |ps| => Fresh(ps[i]))
  }

  /** The registration loop over plain keys and values: each value filed
      under its key, a later one replacing an earlier, a new key going to
      the end of the order. */
  function Filing<V>(keys: seq<string>, vals: seq<V>): (r: (map<string, V>, seq<string>))
    requires |keys| == |vals|
    ensures forall k :: k in r.0 <==> k in r.1
    decreases |keys|
  {
    if keys == [] then (map[], [])
    else
      var n := |keys| - 1;
      var prev := Filing(keys[..n], vals[..n]);
      (prev.0[keys[n] := vals[n]], if keys[n] in prev.0 then prev.1 else prev.1 + [keys[n]])
  }

  lemma {:induction false} RegisterIsFiling(ps: seq<Player>)
    ensures Register(ps) == Filing(IdList(ps), FreshList(ps))
    decreases |ps|
  {
    if ps != [] {
      var init, last := ps[..|ps| - 1], Fresh(ps[|ps| - 1]);
      RegisterIsFiling(init);
      ListsSnoc(ps);
      EnterIsFiling(Register(init), IdList(init), FreshList(init), last);
    }
  }

  lemma ListsSnoc(ps: seq<Player>)
    requires |ps| > 0
    ensures IdList(ps) == IdList(ps[..|ps| - 1]) + [ps[|ps| - 1].id]
    ensures FreshList(ps) == FreshList(ps[..|ps| - 1]) + [Fresh(ps[|ps| - 1])]
  {
  }

  lemma EnterIsFiling(prev: (map<string, Player>, seq<string>), keys: seq<string>, vals: seq<Player>, p: Player)
    requires |keys| == |vals| && prev == Filing(keys, vals)
    ensures Enter(prev, p) == Filing(keys + [p.id], vals + [p])
  {
    assert (keys + [p.id])[..|keys|] == keys && (vals + [p])[..|vals|] == vals;
  }

  /** `m` holds, under each of its keys, the value paired with the last
      occurrence of that key. */
  ghost predicate LastOf<V>(keys: seq<string>, vals: seq<V>, m: map<string, V>)
    requires |keys| == |vals|
  {
    forall id :: id in m ==>
      exists i :: 0 <= i < |keys| && keys[i] == id && m[id] == vals[i] && forall j :: i < j < |keys| ==> keys[j] != id
  }

  lemma {:induction false} FilingLast<V>(keys: seq<string>, vals: seq<V>)
    requires |keys| == |vals|
    ensures LastOf(keys, vals, Filing(keys, vals).0)
    decreases |keys|
  {
    if keys != [] {
      var n := |keys| - 1;
      FilingLast(keys[..n], vals[..n]);
      LastOfStep(keys, vals, Filing(keys[..n], vals[..n]).0);
    }
  }

  lemma LastOfStep<V>(keys: seq<string>, vals: seq<V>, m: map<string, V>)
    requires |keys| == |vals| > 0 && LastOf(keys[..|keys| - 1], vals[..|vals| - 1], m)
    ensures LastOf(keys, vals, m[keys[|keys| - 1] := vals[|vals| - 1]])
  {
    var n := |keys| - 1;
    var m' := m[keys[n] := vals[n]];
    forall id | id in m'
      ensures exists i :: 0 <= i < |keys| && keys[i] == id && m'[id] == vals[i] && forall j :: i < j < |keys| ==> keys[j] != id
    {
      if id == keys[n] {
        assert keys[n] == id && m'[id] == vals[n];
      } else {
        var i :| 0 <= i < n && keys[..n][i] == id && m[id] == vals[..n][i] && forall j :: i < j < n ==> keys[..n][j] != id;
        assert m'[id] == m[id] == vals[i];
        forall j | i < j < |keys| ensures keys[j] != id {
          if j < n { assert keys[..n][j] == keys[j]; }
        }
      }
    }
  }

  lemma LastOfAll(ps: seq<Player>, m: map<string, Player>)
    requires LastOf(IdList(ps), FreshList(ps), m)
    ensures LastFresh(ps, m)
  {
    forall id | id in m
      ensures exists i :: 0 <= i < |ps| && ps[i].id == id && m[id] == Fresh(ps[i]) && forall j :: i < j < |ps| ==> ps[j].id != id
    {
      var i :| 0 <= i < |ps| && IdList(ps)[i] == id && m[id] == FreshList(ps)[i]
               && forall j :: i < j < |ps| ==> IdList(ps)[j] != id;
      forall j | i < j < |ps| ensures ps[j].id != id {
        assert IdList(ps)[j] != id;
      }
    }
  }

  /** The same order over plain keys. */
  ghost predicate SeenBefore(keys: seq<string>, a: string, b: string) {
    exists i :: 0 <= i < |keys| && keys[i] == a && forall j :: 0 <= j <= i ==> keys[j] != b
  }

  ghost predicate FirstSeen(keys: seq<string>, order: seq<string>) {
    forall k1, k2 :: 0 <= k1 < k2 < |order| ==> SeenBefore(keys, order[k1], order[k2])
  }

  lemma {:induction false} FilingOrder<V>(keys: seq<string>, vals: seq<V>)
    requires |keys| == |vals|
    ensures FirstSeen(keys, Filing(keys, vals).1)
    ensures forall k :: k in Filing(keys, vals).1 <==> k in keys
    decreases |keys|
  {
    if keys != [] {
      var n := |keys| - 1;
      FilingOrder(keys[..n], vals[..n]);
      assert keys == keys[..n] + [keys[n]];
      FirstSeenStep(keys, Filing(keys[..n], vals[..n]).1);
    }
  }

  lemma FirstSeenStep(keys: seq<string>, order: seq<string>)
    requires |keys| > 0 && FirstSeen(keys[..|keys| - 1], order)
    requires forall id :: id in order <==> id in keys[..|keys| - 1]
    ensures FirstSeen(keys, if keys[|keys| - 1] in order then order else order + [keys[|keys| - 1]])
  {
    var n := |keys| - 1;
    var order' := if keys[n] in order then order else order + [keys[n]];
    forall k1, k2 | 0 <= k1 < k2 < |order'|
      ensures SeenBefore(keys, order'[k1], order'[k2])
    {
      assert order'[k1] == order[k1] && order[k1] in order;
      var i :| 0 <= i < n && keys[..n][i] == order[k1];
      if k2 < |order| {
        assert order'[k2] == order[k2];
        assert SeenBefore(keys[..n], order[k1], order[k2]);
        i :| 0 <= i < n && keys[..n][i] == order[k1] && forall j :: 0 <= j <= i ==> keys[..n][j] != order[k2];
        forall j | 0 <= j <= i ensures keys[j] != order'[k2] {
          assert keys[..n][j] == keys[j];
        }
      } else {
        assert keys[n] !in order && order'[k2] == keys[n];
        forall j | 0 <= j <= i ensures keys[j] != order'[k2] {
          assert keys[..n][j] == keys[j] && keys[j] in keys[..n];
        }
      }
      assert keys[i] == order'[k1];
    }
  }

  lemma FirstSeenAll(ps: seq<Player>, order: seq<string>)
    requires FirstSeen(IdList(ps), order)
    ensures FirstSeenOrder(ps, order)
  {
    forall k1, k2 | 0 <= k1 < k2 < |order|
      ensures ShowsBefore(ps, order[k1], order[k2])
    {
      var keys := IdList(ps);
      assert SeenBefore(keys, order[k1], order[k2]);
      var i :| 0 <= i < |keys| && keys[i] == order[k1] && forall j :: 0 <= j <= i ==> keys[j] != order[k2];
      forall j | 0 <= j <= i ensures ps[j].id != order[k2] {
        assert keys[j] != order[k2];
      }
    }
  }

  /** The replay's running state. */
  datatype State = State(players: map<string, Player>, previous: set<set<string>>, byes: map<string, int>)

  /** A played game: White records it, then Black; each also gains the
      other's mirrored match entry. */
  function PlayGame(pm: map<string, Player>, w: string, b: string, ws: real, bs: real): (r: map<string, Player>)
    requires w in pm && b in pm
    ensures r.Keys == pm.Keys
  {
    var x := Players.AddRoundResult(pm[w], Some(pm[b]), ws, Some(White));
    var pm1 := pm[w := x.0][b := x.1.value];
    var y := Players.AddRoundResult(pm1[b], Some(pm1[w]), bs, Some(Black));
    pm1[b := y.0][w := y.1.value]
  }

  /** The pairs of a round that are replayed: both players known and a
      result recorded. */
  predicate Replayed(p: (string, string), known: set<string>, scores: Scores) {
    p.0 in known && p.1 in known && p in scores
  }

  function PlayGames(pm: map<string, Player>, previous: set<set<string>>, pairs: seq<(string, string)>,
                     scores: Scores): (r: (map<string, Player>, set<set<string>>))
    ensures r.0.Keys == pm.Keys
    decreases |pairs|
  {
    if pairs == [] then (pm, previous)
    else if Replayed(pairs[0], pm.Keys, scores) then
      var (w, b) := pairs[0];
      var sc := scores[(w, b)];
      PlayGames(PlayGame(pm, w, b, sc.0, sc.1), previous + {{w, b}}, pairs[1..], scores)
    else PlayGames(pm, previous, pairs[1..], scores)
  }

  /** A bye or scheduled bye: the player records a round without opponent. */
  function AddBye(pm: map<string, Player>, id: string, score: real): (r: map<string, Player>)
    ensures r.Keys == pm.Keys
  {
    if id in pm then pm[id := Players.AddRoundResult(pm[id], None, score, None).0] else pm
  }

  function AddByes(pm: map<string, Player>, ids: seq<string>, score: real): (r: map<string, Player>)
    ensures r.Keys == pm.Keys
  {
    if ids == [] then pm else AddByes(AddBye(pm, ids[0], score), ids[1..], score)
  }

  function Get(m: map<string, int>, k: string): int {
    if k in m then m[k] else 0
  }

  /** One earlier round replayed: its games, its bye, its scheduled byes. */
  function Step(st: State, r: RoundData): (t: State)
    ensures t.players.Keys == st.players.Keys
  {
    var g := PlayGames(st.players, st.previous, r.pairings, ResultsMap(r.results));
    var bye := ByeId(r);
    var byeTaken := bye != "" && bye in g.0;
    var pm := if byeTaken then AddBye(g.0, bye, Constants.ByeScore) else g.0;
    var byes := if byeTaken then st.byes[bye := Get(st.byes, bye) + 1] else st.byes;
    var pm2 := AddByes(AddByes(pm, r.halfPoint, Constants.DrawScore), r.zeroPoint, Constants.LossScore);
    State(pm2, g.1, byes)
  }

  /** The rounds in replay order, as `sorted(key=round_number)` orders
      them. */
  function RoundOrder(r: RoundData): seq<real> {
    [r.number as real]
  }

  /** The replay loop: rounds in order until the first one at or after the
      target. */
  function Replay(st: State, rs: seq<RoundData>, target: int): (t: State)
    ensures t.players.Keys == st.players.Keys
    decreases |rs|
  {
    if rs == [] || rs[0].number >= target then st else Replay(Step(st, rs[0]), rs[1..], target)
  }

  /** The players the target round's scheduled byes exclude, read from the
      first round with that number. */
  function Excluded(rs: seq<RoundData>, target: int): set<string> {
    if rs == [] then {}
    else if rs[0].number == target then (set id | id in rs[0].halfPoint) + (set id | id in rs[0].zeroPoint)
    else Excluded(rs[1..], target)
  }

  function PlayersOf(pm: map<string, Player>, order: seq<string>): (r: seq<Player>)
    requires forall id :: id in order ==> id in pm
    ensures |r| == |order| && forall i :: 0 <= i < |order| ==> r[i] == pm[order[i]]
  {
    if order == [] then [] else [pm[order[0]]] + PlayersOf(pm, order[1..])
  }

  function Without(order: seq<string>, excluded: set<string>): (r: seq<string>)
    ensures forall id :: id in r <==> id in order && id !in excluded
  {
    if order == [] then []
    else if order[0] in excluded then Without(order[1..], excluded)
    else [order[0]] + Without(order[1..], excluded)
  }

  datatype Snapshot = Snapshot(all: seq<Player>, active: seq<Player>,
                               previous: set<set<string>>, byes: map<string, int>)

  /** `_build_round_snapshot`. */
  function BuildSnapshot(players: seq<Player>, rounds: seq<RoundData>, target: int): (s: Snapshot)
    ensures |s.all| == |Register(players).1|
  {
    var reg := Register(players);
    var sorted := Sorting.SortBy(rounds, RoundOrder);
    var st := Replay(State(reg.0, {}, map[]), sorted, target);
    var excluded := Excluded(sorted, target);
    Snapshot(PlayersOf(st.players, reg.1), PlayersOf(st.players, Without(reg.1, excluded)), st.previous, st.byes)
  }

  // ------------------------------------------------- what the replay keeps

  /** Every player is filed under their own id and keeps consistent
      bookkeeping. */
  predicate WellFormed(pm: map<string, Player>) {
    Filed(pm) && forall id :: id in pm ==> Players.Consistent(pm[id])
  }

  predicate Filed(pm: map<string, Player>) {
    forall id :: id in pm ==> pm[id].id == id
  }

  lemma AddRoundResultKeeps(p: Player, opponent: Option<Player>, result: real, color: Option<Color>)
    requires Players.Consistent(p) && (opponent.Some? ==> Players.Consistent(opponent.value))
    ensures var r := Players.AddRoundResult(p, opponent, result, color);
            Players.Consistent(r.0) && r.0.id == p.id
            && (opponent.Some? ==> Players.Consistent(r.1.value) && r.1.value.id == opponent.value.id)
  {
    Players.AddRoundResultConsistent(p, opponent, result, color);
  }

  lemma PlayGameWellFormed(pm: map<string, Player>, w: string, b: string, ws: real, bs: real)
    requires w in pm && b in pm && WellFormed(pm)
    ensures WellFormed(PlayGame(pm, w, b, ws, bs))
  {
    AddRoundResultKeeps(pm[w], Some(pm[b]), ws, Some(White));
    var x := Players.AddRoundResult(pm[w], Some(pm[b]), ws, Some(White));
    FileUpdate(pm, w, x.0);
    FileUpdate(pm[w := x.0], b, x.1.value);
    var pm1 := pm[w := x.0][b := x.1.value];
    AddRoundResultKeeps(pm1[b], Some(pm1[w]), bs, Some(Black));
    var y := Players.AddRoundResult(pm1[b], Some(pm1[w]), bs, Some(Black));
    FileUpdate(pm1, b, y.0);
    FileUpdate(pm1[b := y.0], w, y.1.value);
  }

  lemma FileUpdate(pm: map<string, Player>, id: string, p: Player)
    requires WellFormed(pm) && p.id == id && Players.Consistent(p)
    ensures WellFormed(pm[id := p])
  {
  }

  lemma {:induction false} PlayGamesWellFormed(pm: map<string, Player>, previous: set<set<string>>,
                                               pairs: seq<(string, string)>, scores: Scores)
    requires WellFormed(pm)
    ensures WellFormed(PlayGames(pm, previous, pairs, scores).0)
    decreases |pairs|
  {
    if pairs != [] {
      if Replayed(pairs[0], pm.Keys, scores) {
        var (w, b) := pairs[0];
        var sc := scores[(w, b)];
        PlayGameWellFormed(pm, w, b, sc.0, sc.1);
        PlayGamesWellFormed(PlayGame(pm, w, b, sc.0, sc.1), previous + {{w, b}}, pairs[1..], scores);
      } else {
        PlayGamesWellFormed(pm, previous, pairs[1..], scores);
      }
    }
  }

  lemma AddByeWellFormed(pm: map<string, Player>, id: string, score: real)
    requires WellFormed(pm)
    ensures WellFormed(AddBye(pm, id, score))
  {
    if id in pm {
      AddRoundResultKeeps(pm[id], None, score, None);
    }
  }

  lemma {:induction false} AddByesWellFormed(pm: map<string, Player>, ids: seq<string>, score: real)
    requires WellFormed(pm)
    ensures WellFormed(AddByes(pm, ids, score))
  {
    if ids != [] {
      AddByeWellFormed(pm, ids[0], score);
      AddByesWellFormed(AddBye(pm, ids[0], score), ids[1..], score);
    }
  }

  lemma StepWellFormed(st: State, r: RoundData)
    requires WellFormed(st.players)
    ensures WellFormed(Step(st, r).players)
  {
    var g := PlayGames(st.players, st.previous, r.pairings, ResultsMap(r.results));
    PlayGamesWellFormed(st.players, st.previous, r.pairings, ResultsMap(r.results));
    var bye := ByeId(r);
    var pm := if bye != "" && bye in g.0 then AddBye(g.0, bye, Constants.ByeScore) else g.0;
    AddByeWellFormed(g.0, bye, Constants.ByeScore);
    AddByesWellFormed(pm, r.halfPoint, Constants.DrawScore);
    AddByesWellFormed(AddByes(pm, r.halfPoint, Constants.DrawScore), r.zeroPoint, Constants.LossScore);
  }

  /** Replaying rounds keeps every player filed under their id with
      consistent bookkeeping. */
  lemma {:induction false} ReplayWellFormed(st: State, rs: seq<RoundData>, target: int)
    requires WellFormed(st.players)
    ensures WellFormed(Replay(st, rs, target).players)
    decreases |rs|
  {
    if rs != [] && rs[0].number < target {
      StepWellFormed(st, rs[0]);
      ReplayWellFormed(Step(st, rs[0]), rs[1..], target);
    }
  }

  function IdsOf(ps: seq<Player>): set<string> {
    set i | 0 <= i < |ps| :: ps[i].id
  }

  /** The snapshot's players after the replay, in first-seen order. */
  lemma SnapshotState(players: seq<Player>, rounds: seq<RoundData>, target: int)
    ensures var reg := Register(players);
            var st := Replay(State(reg.0, {}, map[]), Sorting.SortBy(rounds, RoundOrder), target);
            WellFormed(st.players) && st.players.Keys == reg.0.Keys
            && BuildSnapshot(players, rounds, target).all == PlayersOf(st.players, reg.1)
  {
    var reg := Register(players);
    ReplayWellFormed(State(reg.0, {}, map[]), Sorting.SortBy(rounds, RoundOrder), target);
  }

  /** Each listed player carries the id it was listed under. */
  lemma ListedIds(pm: map<string, Player>, order: seq<string>)
    requires Filed(pm) && forall id :: id in order ==> id in pm
    ensures var all := PlayersOf(pm, order);
            forall i :: 0 <= i < |all| ==> all[i].id == order[i]
  {
  }

  /** Players listed by a duplicate-free order of all ids: one per id. */
  lemma OrderedPlayers(pm: map<string, Player>, order: seq<string>)
    requires Filed(pm) && (forall id :: id in pm <==> id in order)
    requires forall i, j :: 0 <= i < j < |order| ==> order[i] != order[j]
    ensures var all := PlayersOf(pm, order);
            (forall i, j :: 0 <= i < j < |all| ==> all[i].id != all[j].id) && IdsOf(all) == pm.Keys
  {
    ListedIds(pm, order);
    DistinctListed(PlayersOf(pm, order), order);
    ListedKeys(pm, order);
  }

  lemma DistinctListed(all: seq<Player>, order: seq<string>)
    requires |all| == |order| && forall i :: 0 <= i < |all| ==> all[i].id == order[i]
    requires forall i, j :: 0 <= i < j < |order| ==> order[i] != order[j]
    ensures forall i, j :: 0 <= i < j < |all| ==> all[i].id != all[j].id
  {
  }

  lemma ListedKeys(pm: map<string, Player>, order: seq<string>)
    requires Filed(pm) && (forall id :: id in pm <==> id in order)
    ensures IdsOf(PlayersOf(pm, order)) == pm.Keys
  {
    var all := PlayersOf(pm, order);
    ListedIds(pm, order);
    forall id | id in pm ensures id in IdsOf(all) {
      var i :| 0 <= i < |order| && order[i] == id;
      assert all[i].id == id;
    }
  }

  lemma ListedConsistent(pm: map<string, Player>, order: seq<string>)
    requires WellFormed(pm) && forall id :: id in order ==> id in pm
    ensures forall p :: p in PlayersOf(pm, order) ==> Players.Consistent(p)
  {
  }

  /** Players listed by an order with some ids left out. */
  /** `active` is `all` without the players whose ids are excluded. */
  predicate Kept(all: seq<Player>, active: seq<Player>, excluded: set<string>) {
    && (forall i :: 0 <= i < |active| ==> active[i].id !in excluded && active[i] in all)
    && (forall i :: 0 <= i < |all| && all[i].id !in excluded ==> all[i] in active)
  }

  lemma KeptPlayers(pm: map<string, Player>, order: seq<string>, excluded: set<string>)
    requires Filed(pm) && forall id :: id in order ==> id in pm
    ensures Kept(PlayersOf(pm, order), PlayersOf(pm, Without(order, excluded)), excluded)
  {
    var all := PlayersOf(pm, order);
    var kept := Without(order, excluded);
    var active := PlayersOf(pm, kept);
    assert forall i :: 0 <= i < |all| ==> all[i].id == order[i];
    forall i | 0 <= i < |active| ensures active[i].id !in excluded && active[i] in all {
      assert kept[i] in kept;
      var j :| 0 <= j < |order| && order[j] == kept[i];
      assert all[j] == active[i];
    }
    forall i | 0 <= i < |all| && all[i].id !in excluded ensures all[i] in active {
      assert order[i] in kept;
      var j :| 0 <= j < |kept| && kept[j] == order[i];
      assert active[j] == all[i];
    }
  }

  /** The snapshot holds one player per distinct id of the input, each with
      consistent bookkeeping. */
  lemma SnapshotAll(players: seq<Player>, rounds: seq<RoundData>, target: int)
    ensures var s := BuildSnapshot(players, rounds, target);
            (forall p :: p in s.all ==> Players.Consistent(p))
            && (forall i, j :: 0 <= i < j < |s.all| ==> s.all[i].id != s.all[j].id)
            && IdsOf(s.all) == IdsOf(players)
  {
    SnapshotState(players, rounds, target);
    var reg := Register(players);
    var st := Replay(State(reg.0, {}, map[]), Sorting.SortBy(rounds, RoundOrder), target);
    OrderedPlayers(st.players, reg.1);
    ListedConsistent(st.players, reg.1);
    assert IdsOf(players) == reg.0.Keys;
  }

  /** The active players are exactly the snapshot's players that the target
      round's scheduled byes do not exclude. */
  lemma SnapshotActive(players: seq<Player>, rounds: seq<RoundData>, target: int)
    ensures var s := BuildSnapshot(players, rounds, target);
            Kept(s.all, s.active, Excluded(Sorting.SortBy(rounds, RoundOrder), target))
  {
    var reg := Register(players);
    var st := Replay(State(reg.0, {}, map[]), Sorting.SortBy(rounds, RoundOrder), target);
    assert Filed(st.players) && forall id :: id in reg.1 ==> id in st.players by {
      SnapshotState(players, rounds, target);
    }
    KeptPlayers(st.players, reg.1, Excluded(Sorting.SortBy(rounds, RoundOrder), target));
  }

  // ------------------------------------------------ what the replay records

  /** The rounds the replay loop goes through: the longest leading run of
      rounds numbered below the target. */
  function Before(rs: seq<RoundData>, target: int): (b: seq<RoundData>)
    ensures |b| <= |rs| && b == rs[..|b|]
    ensures forall i :: 0 <= i < |b| ==> b[i].number < target
    ensures |b| < |rs| ==> rs[|b|].number >= target
    decreases |rs|
  {
    if rs == [] || rs[0].number >= target then [] else [rs[0]] + Before(rs[1..], target)
  }

  /** Every round of a list, replayed in order, with no stopping point. */
  function Steps(st: State, rs: seq<RoundData>): (t: State)
    ensures t.players.Keys == st.players.Keys
    decreases |rs|
  {
    if rs == [] then st else Steps(Step(st, rs[0]), rs[1..])
  }

  /** The replay loop is the replay of exactly the rounds before the first
      one at or after the target. */
  lemma {:induction false} ReplayIsSteps(st: State, rs: seq<RoundData>, target: int)
    ensures Replay(st, rs, target) == Steps(st, Before(rs, target))
    decreases |rs|
  {
    if rs != [] && rs[0].number < target {
      ReplayIsSteps(Step(st, rs[0]), rs[1..], target);
      assert Before(rs, target)[1..] == Before(rs[1..], target);
    }
  }

  /** Sorted by number, the rounds replayed before the target are exactly
      the input rounds numbered below it. */
  lemma SortedBefore(rounds: seq<RoundData>, target: int)
    ensures forall r :: r in Before(Sorting.SortBy(rounds, RoundOrder), target) <==> r in rounds && r.number < target
  {
    var sorted := Sorting.SortBy(rounds, RoundOrder);
    var b := Before(sorted, target);
    forall r | r in b ensures r in rounds {
      assert r in multiset(sorted);
    }
    forall r | r in rounds && r.number < target ensures r in b {
      assert r in multiset(sorted);
      var i :| 0 <= i < |sorted| && sorted[i] == r;
      if i >= |b| {
        if i > |b| {
          Sorting.LexHead(RoundOrder(sorted[|b|]), RoundOrder(sorted[i]));
        }
        assert false;
      }
      assert b[i] == r;
    }
  }

  /** `pr` is the pair of a game that `pairs` replays. */
  ghost predicate InGames(pairs: seq<(string, string)>, known: set<string>, scores: Scores, pr: set<string>) {
    exists j :: 0 <= j < |pairs| && Replayed(pairs[j], known, scores) && pr == {pairs[j].0, pairs[j].1}
  }

  /** `pr` is the pair of a game some round of `rs` replays. */
  ghost predicate PlayedPair(rs: seq<RoundData>, known: set<string>, pr: set<string>) {
    exists k :: 0 <= k < |rs| && InGames(rs[k].pairings, known, ResultsMap(rs[k].results), pr)
  }

  lemma InGamesTail(pairs: seq<(string, string)>, known: set<string>, scores: Scores, pr: set<string>)
    requires pairs != []
    ensures InGames(pairs, known, scores, pr) <==>
              (Replayed(pairs[0], known, scores) && pr == {pairs[0].0, pairs[0].1}) || InGames(pairs[1..], known, scores, pr)
  {
    if InGames(pairs, known, scores, pr) {
      var j :| 0 <= j < |pairs| && Replayed(pairs[j], known, scores) && pr == {pairs[j].0, pairs[j].1};
      if j > 0 { assert pairs[1..][j - 1] == pairs[j]; }
    }
    if InGames(pairs[1..], known, scores, pr) {
      var j :| 0 <= j < |pairs[1..]| && Replayed(pairs[1..][j], known, scores) && pr == {pairs[1..][j].0, pairs[1..][j].1};
      assert pairs[j + 1] == pairs[1..][j];
    }
  }

  lemma PlayedPairTail(rs: seq<RoundData>, known: set<string>, pr: set<string>)
    requires rs != []
    ensures PlayedPair(rs, known, pr) <==>
              InGames(rs[0].pairings, known, ResultsMap(rs[0].results), pr) || PlayedPair(rs[1..], known, pr)
  {
    if PlayedPair(rs, known, pr) {
      var k :| 0 <= k < |rs| && InGames(rs[k].pairings, known, ResultsMap(rs[k].results), pr);
      if k > 0 { assert rs[1..][k - 1] == rs[k]; }
    }
    if PlayedPair(rs[1..], known, pr) {
      var k :| 0 <= k < |rs[1..]| && InGames(rs[1..][k].pairings, known, ResultsMap(rs[1..][k].results), pr);
      assert rs[k + 1] == rs[1..][k];
    }
  }

  /** The pairs a round's games add are exactly its replayed pairings. */
  lemma {:induction false} PlayGamesPrevious(pm: map<string, Player>, previous: set<set<string>>,
                                             pairs: seq<(string, string)>, scores: Scores)
    ensures forall pr :: pr in PlayGames(pm, previous, pairs, scores).1 <==>
              pr in previous || InGames(pairs, pm.Keys, scores, pr)
    decreases |pairs|
  {
    if pairs != [] {
      var (w, b) := pairs[0];
      var prev := if Replayed(pairs[0], pm.Keys, scores) then previous + {{w, b}} else previous;
      var pm' := if Replayed(pairs[0], pm.Keys, scores) then PlayGame(pm, w, b, scores[(w, b)].0, scores[(w, b)].1) else pm;
      PlayGamesPrevious(pm', prev, pairs[1..], scores);
      forall pr {
        InGamesTail(pairs, pm.Keys, scores, pr);
      }
    }
  }

  /** Replaying rounds adds to the earlier pairs exactly the pairs of the
      games those rounds replay. */
  lemma {:induction false} StepsPrevious(st: State, rs: seq<RoundData>)
    ensures forall pr :: pr in Steps(st, rs).previous <==> pr in st.previous || PlayedPair(rs, st.players.Keys, pr)
    decreases |rs|
  {
    if rs != [] {
      var r := rs[0];
      PlayGamesPrevious(st.players, st.previous, r.pairings, ResultsMap(r.results));
      StepsPrevious(Step(st, r), rs[1..]);
      forall pr {
        PlayedPairTail(rs, st.players.Keys, pr);
      }
    }
  }

  /** How many rounds of `rs` give their bye to `id`, a known, non-empty id. */
  function ByeCount(rs: seq<RoundData>, known: set<string>, id: string): nat
    decreases |rs|
  {
    if rs == [] then 0
    else (if ByeId(rs[0]) == id && id != "" && id in known then 1 else 0) + ByeCount(rs[1..], known, id)
  }

  /** Replaying rounds adds to each player's bye count the byes those rounds
      give it, and to no one else. */
  lemma {:induction false} StepsByes(st: State, rs: seq<RoundData>, id: string)
    ensures Get(Steps(st, rs).byes, id) == Get(st.byes, id) + ByeCount(rs, st.players.Keys, id)
    ensures id in Steps(st, rs).byes <==> id in st.byes || ByeCount(rs, st.players.Keys, id) > 0
    decreases |rs|
  {
    if rs != [] {
      StepsByes(Step(st, rs[0]), rs[1..], id);
    }
  }

  /** What the snapshot remembers of the earlier rounds: the rounds replayed
      are exactly those numbered below the target; the earlier pairs are
      exactly the pairs of the games they replay, in either order; and each
      player's bye count is the number of them that give it the bye. */
  lemma SnapshotHistory(players: seq<Player>, rounds: seq<RoundData>, target: int)
    ensures var s := BuildSnapshot(players, rounds, target);
            var replayed := Before(Sorting.SortBy(rounds, RoundOrder), target);
            && (forall r :: r in replayed <==> r in rounds && r.number < target)
            && (forall pr :: pr in s.previous <==> PlayedPair(replayed, IdsOf(players), pr))
            && (forall id :: Get(s.byes, id) == ByeCount(replayed, IdsOf(players), id))
            && (forall id :: id in s.byes <==> ByeCount(replayed, IdsOf(players), id) > 0)
  {
    var sorted := Sorting.SortBy(rounds, RoundOrder);
    var st := SnapshotReplay(players, rounds, target);
    SortedBefore(rounds, target);
    StepsPrevious(st, Before(sorted, target));
    forall id ensures Get(BuildSnapshot(players, rounds, target).byes, id) == ByeCount(Before(sorted, target), IdsOf(players), id)
                      && (id in BuildSnapshot(players, rounds, target).byes <==> ByeCount(Before(sorted, target), IdsOf(players), id) > 0) {
      StepsByes(st, Before(sorted, target), id);
    }
  }

  /** The snapshot's earlier pairs and bye counts are those of replaying,
      from the registered players and nothing else, the rounds before the
      target. */
  lemma SnapshotReplay(players: seq<Player>, rounds: seq<RoundData>, target: int) returns (st: State)
    ensures st.players.Keys == IdsOf(players) && st.previous == {} && st.byes == map[]
    ensures var t := Steps(st, Before(Sorting.SortBy(rounds, RoundOrder), target));
            BuildSnapshot(players, rounds, target).previous == t.previous
            && BuildSnapshot(players, rounds, target).byes == t.byes
  {
    var reg := Register(players);
    st := State(reg.0, {}, map[]);
    ReplayIsSteps(st, Sorting.SortBy(rounds, RoundOrder), target);
    assert IdsOf(players) == reg.0.Keys;
  }
}
