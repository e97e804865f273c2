/** The tournament player of player/base_player.py and its FIDE extension of
    player/fide_player.py: construction, recording one round, the colour and
    opponent views, the age, and the dictionary form used for saving. */
module Players {
  import opened Wrappers
  import opened Text
  import opened Colors
  import Validation

  // ------------------------------------------------------------------ dates

  datatype Date = Date(year: int, month: int, day: int)

  function DaysInMonth(year: int, month: int): (n: int)
    ensures 28 <= n <= 31
  {
    if month == 2 then
      (if (year % 4 == 0 && year % 100 != 0) || year % 400 == 0 then 29 else 28)
    else if month == 4 || month == 6 || month == 9 || month == 11 then 30
    else 31
  }

  /** A date Python's `datetime.date` can hold. */
  predicate ValidDate(d: Date) {
    1 <= d.year <= 9999 && 1 <= d.month <= 12 && 1 <= d.day <= DaysInMonth(d.year, d.month)
  }

  /** Chronological order. */
  predicate DateLeq(a: Date, b: Date) {
    a.year < b.year
    || (a.year == b.year && (a.month < b.month || (a.month == b.month && a.day <= b.day)))
  }

  /** Ten times `x` plus a digit, taken apart again. */
  lemma DivModDigit(x: int, d: int)
    requires x >= 0 && 0 <= d < 10
    ensures (10 * x + d) / 10 == x && (10 * x + d) % 10 == d
  {
  }

  /** `%02d`. */
  function Pad2(n: int): (t: string)
    requires 0 <= n < 100
    ensures |t| == 2 && IsDigit(t[0]) && IsDigit(t[1])
  {
    [DigitChar(n / 10), DigitChar(n % 10)]
  }

  /** `%04d`. */
  function Pad4(n: int): (t: string)
    requires 0 <= n < 10000
    ensures |t| == 4 && IsDigit(t[0]) && IsDigit(t[1]) && IsDigit(t[2]) && IsDigit(t[3])
  {
    var n1 := n / 10;
    var n2 := n1 / 10;
    [DigitChar(n2 / 10), DigitChar(n2 % 10), DigitChar(n1 % 10), DigitChar(n % 10)]
  }

  function Value2(t: string, i: nat): nat
    requires i + 2 <= |t| && IsDigit(t[i]) && IsDigit(t[i + 1])
  {
    DigitValue(t[i]) * 10 + DigitValue(t[i + 1])
  }

  function Value4(t: string, i: nat): nat
    requires i + 4 <= |t| && IsDigit(t[i]) && IsDigit(t[i + 1]) && IsDigit(t[i + 2]) && IsDigit(t[i + 3])
  {
    ((DigitValue(t[i]) * 10 + DigitValue(t[i + 1])) * 10 + DigitValue(t[i + 2])) * 10 + DigitValue(t[i + 3])
  }

  lemma Pad2Value(n: int)
    requires 0 <= n < 100
    ensures Value2(Pad2(n), 0) == n
  {
  }

  lemma Pad4Value(n: int)
    requires 0 <= n < 10000
    ensures Value4(Pad4(n), 0) == n
  {
  }

  lemma ValuePad2(t: string, i: nat)
    requires i + 2 <= |t| && IsDigit(t[i]) && IsDigit(t[i + 1])
    ensures Pad2(Value2(t, i)) == t[i..i + 2]
  {
    DivModDigit(DigitValue(t[i]), DigitValue(t[i + 1]));
    assert DigitChar(DigitValue(t[i])) == t[i];
    assert DigitChar(DigitValue(t[i + 1])) == t[i + 1];
  }

  lemma ValuePad4(t: string, i: nat)
    requires i + 4 <= |t| && IsDigit(t[i]) && IsDigit(t[i + 1]) && IsDigit(t[i + 2]) && IsDigit(t[i + 3])
    ensures Pad4(Value4(t, i)) == t[i..i + 4]
  {
    var a, b, c, d := DigitValue(t[i]), DigitValue(t[i + 1]), DigitValue(t[i + 2]), DigitValue(t[i + 3]);
    DivModDigit(a * 10 + b, c);
    DivModDigit((a * 10 + b) * 10 + c, d);
    DivModDigit(a, b);
    assert DigitChar(a) == t[i] && DigitChar(b) == t[i + 1];
    assert DigitChar(c) == t[i + 2] && DigitChar(d) == t[i + 3];
  }

  /** `date.isoformat()`: YYYY-MM-DD with zero padding. */
  function IsoFormat(d: Date): (t: string)
    requires ValidDate(d)
    ensures |t| == 10 && t[4] == '-' && t[7] == '-'
  {
    Pad4(d.year) + "-" + Pad2(d.month) + "-" + Pad2(d.day)
  }

  predicate IsoShaped(t: string) {
    |t| == 10 && t[4] == '-' && t[7] == '-'
    && IsDigit(t[0]) && IsDigit(t[1]) && IsDigit(t[2]) && IsDigit(t[3])
    && IsDigit(t[5]) && IsDigit(t[6]) && IsDigit(t[8]) && IsDigit(t[9])
  }

  /** `date.fromisoformat` on the YYYY-MM-DD form: None where Python raises. */
  function ParseIsoDate(t: string): (r: Option<Date>)
    ensures r.Some? ==> ValidDate(r.value)
  {
    if !IsoShaped(t) then None
    else
      var d := Date(Value4(t, 0), Value2(t, 5), Value2(t, 8));
      if ValidDate(d) then Some(d) else None
  }

  /** Reading back a formatted date gives the date. */
  lemma IsoRoundTrip(d: Date)
    requires ValidDate(d)
    ensures ParseIsoDate(IsoFormat(d)) == Some(d)
  {
    var t := IsoFormat(d);
    Pad4Value(d.year);
    Pad2Value(d.month);
    Pad2Value(d.day);
    assert t[..4] == Pad4(d.year) && t[5..7] == Pad2(d.month) && t[8..] == Pad2(d.day);
    assert Value4(t, 0) == Value4(Pad4(d.year), 0);
    assert Value2(t, 5) == Value2(Pad2(d.month), 0);
    assert Value2(t, 8) == Value2(Pad2(d.day), 0);
  }

  /** A text that parses is the formatting of what it parses to. */
  lemma IsoCanonical(t: string)
    requires ParseIsoDate(t).Some?
    ensures IsoFormat(ParseIsoDate(t).value) == t
  {
    ValuePad4(t, 0);
    ValuePad2(t, 5);
    ValuePad2(t, 8);
    assert t == t[0..4] + "-" + t[5..7] + "-" + t[8..10];
  }

  /** The anniversary `n` years on, a 29 February clipped to the 28th, as
      `relativedelta` moves a date by whole years. */
  function AddYears(d: Date, n: int): Date {
    Date(d.year + n, d.month, if d.day > DaysInMonth(d.year + n, d.month) then DaysInMonth(d.year + n, d.month) else d.day)
  }

  /** `relativedelta(today, dob).years`: the whole years completed, negative
      for a birth date in the future. */
  function YearsBetween(dob: Date, today: Date): (r: int)
    requires ValidDate(dob)
    ensures DateLeq(dob, today) ==>
      r >= 0 && DateLeq(AddYears(dob, r), today) && !DateLeq(AddYears(dob, r + 1), today)
    ensures !DateLeq(dob, today) ==>
      r <= 0 && DateLeq(today, AddYears(dob, r)) && !DateLeq(today, AddYears(dob, r - 1))
  {
    if DateLeq(dob, today) then
      var n := today.year - dob.year;
      if DateLeq(AddYears(dob, n), today) then n
      else
        assert n > 0;
        n - 1
    else
      var n := today.year - dob.year;
      if DateLeq(today, AddYears(dob, n)) then n
      else
        assert n < 0;
        n + 1
  }

  // ---------------------------------------------------------------- players

  /** A birth date as stored: a date, or the ISO text a restored record holds. */
  datatype Dob = DobDate(date: Date) | DobText(text: string)

  /** One `match_history` entry: the opponent and both scores before the game. */
  datatype MatchInfo = MatchInfo(opponentId: Option<string>, playerScore: real, opponentScore: real)

  datatype FideInfo = FideInfo(
    fideId: Option<int>, title: Option<string>, standard: Option<int>,
    rapid: Option<int>, blitz: Option<int>, birthYear: Option<int>)

  /** A player; `fide` is present exactly for a FidePlayer. */
  datatype Player = Player(
    id: string, name: string, rating: int,
    phone: Option<string>, email: Option<string>, club: Option<string>,
    gender: Option<string>, dob: Option<Dob>, federation: Option<string>,
    isActive: bool, score: real,
    colorHistory: History, opponentIds: seq<Option<string>>, results: seq<real>,
    runningScores: seq<real>, hasReceivedBye: bool, numBlackGames: int,
    floatHistory: seq<int>, matchHistory: seq<MatchInfo>,
    tiebreakers: map<string, real>, fide: Option<FideInfo>)

  function Sum(s: seq<real>): real {
    if |s| == 0 then 0.0 else Sum(s[..|s| - 1]) + s[|s| - 1]
  }

  /** The bookkeeping every recorded round keeps: one entry per round in each
      per-round list, the score is the sum of the results, each running score
      the sum so far, the black count and the bye flag agree with the lists. */
  predicate Consistent(p: Player) {
    |p.opponentIds| == |p.results| && |p.colorHistory| == |p.results|
    && |p.runningScores| == |p.results|
    && p.score == Sum(p.results)
    && (forall i :: 0 <= i < |p.results| ==> p.runningScores[i] == Sum(p.results[..i + 1]))
    && p.numBlackGames == Count(Played(p.colorHistory), Black)
    && p.hasReceivedBye == (None in p.opponentIds)
  }

  /** The validated contact field: the sanitised value, or None. */
  function CheckedPhone(phone: Option<string>): (r: Option<string>)
    ensures r.Some? ==> Validation.ValidatePhone(r, false).isValid && phone.Some?
  {
    if phone.None? then None
    else
      var v := Validation.ValidatePhone(phone, false);
      if v.isValid && v.sanitized.Some? then
        Validation.PhoneSanitisedIsStable(phone, false);
        v.sanitized
      else None
  }

  function CheckedEmail(email: Option<string>): (r: Option<string>)
    ensures r.Some? ==> Validation.ValidateEmail(r, false).isValid && email.Some?
  {
    if email.None? then None
    else
      var v := Validation.ValidateEmail(email, false);
      if v.isValid && v.sanitized.Some? then
        StripIdempotent(email.value);
        v.sanitized
      else None
  }

  /** player/base_player.py `Player.__init__`; `id` is the generated id. */
  function NewPlayer(id: string, name: string, rating: Option<int>, phone: Option<string>,
                     email: Option<string>, club: Option<string>, gender: Option<string>,
                     dob: Option<Date>, federation: Option<string>): (p: Player)
    ensures Consistent(p) && |p.results| == 0 && |p.matchHistory| == 0
    ensures p.isActive && !p.hasReceivedBye && p.fide.None?
    ensures p.rating == rating.GetOr(0)
    ensures p.phone.Some? ==> Validation.ValidatePhone(p.phone, false).isValid
    ensures p.email.Some? ==> Validation.ValidateEmail(p.email, false).isValid
    ensures phone.Some? && Validation.ValidatePhone(phone, false).isValid ==>
              p.phone == Validation.ValidatePhone(phone, false).sanitized
  {
    Player(id, name, rating.GetOr(0), CheckedPhone(phone), CheckedEmail(email), club, gender,
           if dob.Some? then Some(DobDate(dob.value)) else None, federation,
           true, 0.0, [], [], [], [], false, 0, [], [], map[], None)
  }

  /** Python truthiness of an optional rating: present and non-zero. */
  predicate Truthy(x: Option<int>) {
    x.Some? && x.value != 0
  }

  /** `rating or fide_standard or fide_rapid or 0`. */
  function FideDefaultRating(rating: Option<int>, standard: Option<int>, rapid: Option<int>): (r: int)
    ensures Truthy(rating) ==> r == rating.value
    ensures !Truthy(rating) && Truthy(standard) ==> r == standard.value
    ensures !Truthy(rating) && !Truthy(standard) && Truthy(rapid) ==> r == rapid.value
    ensures !Truthy(rating) && !Truthy(standard) && !Truthy(rapid) ==> r == 0
  {
    if Truthy(rating) then rating.value
    else if Truthy(standard) then standard.value
    else if Truthy(rapid) then rapid.value
    else 0
  }

  /** player/fide_player.py `FidePlayer.__init__`: the rating falls back to the
      standard and then the rapid FIDE rating, and the birth year is read off
      the birth date. */
  function NewFidePlayer(id: string, name: string, rating: Option<int>, phone: Option<string>,
                         email: Option<string>, club: Option<string>, gender: Option<string>,
                         dob: Option<Date>, federation: Option<string>, fideId: Option<int>,
                         title: Option<string>, standard: Option<int>, rapid: Option<int>,
                         blitz: Option<int>): (p: Player)
    ensures Consistent(p) && |p.results| == 0 && p.fide.Some?
    ensures p.rating == FideDefaultRating(rating, standard, rapid)
    ensures p.fide.value.fideId == fideId && p.fide.value.standard == standard
    ensures p.fide.value.birthYear.Some? <==> dob.Some?
    ensures dob.Some? ==> p.fide.value.birthYear == Some(dob.value.year)
  {
    var base := NewPlayer(id, name, Some(FideDefaultRating(rating, standard, rapid)),
                          phone, email, club, gender, dob, federation);
    base.(fide := Some(FideInfo(fideId, title, standard, rapid, blitz,
                                if dob.Some? then Some(dob.value.year) else None)))
  }

  /** player/base_player.py `get_opponent_objects`: each recorded opponent id
      looked up, a bye or an unknown id giving None. */
  function OpponentObjects(p: Player, players: map<string, Player>): (r: seq<Option<Player>>)
    ensures |r| == |p.opponentIds|
    ensures forall i :: 0 <= i < |r| ==>
      (r[i].Some? <==> (p.opponentIds[i].Some? && p.opponentIds[i].value != ""
                        && p.opponentIds[i].value in players))
    ensures forall i :: 0 <= i < |r| && r[i].Some? ==> r[i].value == players[p.opponentIds[i].value]
  {
    seq(|p.opponentIds|, i requires 0 <= i < |p.opponentIds| =>
      var o := p.opponentIds[i];
      if o.Some? && o.value != "" && o.value in players then Some(players[o.value]) else None)
  }

  /** player/base_player.py `age`: the whole years since the birth date, None
      when there is none or its text does not parse. */
  function Age(p: Player, today: Date): (r: Option<int>)
    ensures p.dob.None? ==> r.None?
    ensures r.Some? ==> p.dob.Some? && DobDateOf(p.dob.value).Some?
    ensures r.Some? && DateLeq(DobDateOf(p.dob.value).value, today) ==>
      r.value >= 0 && DateLeq(AddYears(DobDateOf(p.dob.value).value, r.value), today)
      && !DateLeq(AddYears(DobDateOf(p.dob.value).value, r.value + 1), today)
    ensures (p.dob.Some? && DobDateOf(p.dob.value).Some? && ValidDate(DobDateOf(p.dob.value).value))
              ==> r.Some?
  {
    match p.dob
    case None => None
    case Some(d) =>
      match DobDateOf(d)
      case None => None
      case Some(date) => if ValidDate(date) then Some(YearsBetween(date, today)) else None
  }

  /** The date a stored birth date denotes; the empty text is Python-falsy
      and denotes none. */
  function DobDateOf(d: Dob): Option<Date> {
    match d
    case DobDate(date) => Some(date)
    case DobText(t) => if t == "" then None else ParseIsoDate(t)
  }

  /** player/base_player.py `add_round_result`: the player records the
      opponent (None for a bye), the result, the colour and the scores before
      the game; a real opponent gets the mirrored match entry. */
  function AddRoundResult(p: Player, opponent: Option<Player>, result: real, color: Option<Color>)
    : (r: (Player, Option<Player>))
    ensures r.1.Some? <==> opponent.Some?
    ensures r.0.opponentIds == p.opponentIds + [if opponent.Some? then Some(opponent.value.id) else None]
    ensures r.0.results == p.results + [result]
    ensures r.0.score == p.score + result
    ensures r.0.runningScores == p.runningScores + [r.0.score]
    ensures r.0.colorHistory == p.colorHistory + [color]
    ensures r.0.numBlackGames == p.numBlackGames + (if color == Some(Black) then 1 else 0)
    ensures r.0.hasReceivedBye == (p.hasReceivedBye || opponent.None?)
    ensures r.0.matchHistory == p.matchHistory +
      [MatchInfo(if opponent.Some? then Some(opponent.value.id) else None, p.score,
                 if opponent.Some? then opponent.value.score else 0.0)]
    ensures opponent.Some? ==> r.1.value == opponent.value.(matchHistory :=
      opponent.value.matchHistory + [MatchInfo(Some(p.id), opponent.value.score, p.score)])
    ensures r.0 == p.(opponentIds := r.0.opponentIds, results := r.0.results, score := r.0.score,
                      runningScores := r.0.runningScores, colorHistory := r.0.colorHistory,
                      numBlackGames := r.0.numBlackGames, hasReceivedBye := r.0.hasReceivedBye,
                      matchHistory := r.0.matchHistory)
  {
    var oppId := if opponent.Some? then Some(opponent.value.id) else None;
    var oppScore := if opponent.Some? then opponent.value.score else 0.0;
    var me := p.(
      opponentIds := p.opponentIds + [oppId],
      results := p.results + [result],
      matchHistory := p.matchHistory + [MatchInfo(oppId, p.score, oppScore)],
      score := p.score + result,
      runningScores := p.runningScores + [p.score + result],
      colorHistory := p.colorHistory + [color],
      numBlackGames := p.numBlackGames + (if color == Some(Black) then 1 else 0),
      hasReceivedBye := p.hasReceivedBye || opponent.None?);
    var other := if opponent.Some? then
        Some(opponent.value.(matchHistory := opponent.value.matchHistory + [MatchInfo(Some(p.id), oppScore, p.score)]))
      else None;
    (me, other)
  }

  lemma PlayedAppend(h: History, c: Option<Color>)
    ensures Played(h + [c]) == Played(h) + (if c.Some? then [c.value] else [])
  {
    assert (h + [c])[..|h|] == h;
  }

  lemma SumAppend(s: seq<real>, x: real)
    ensures Sum(s + [x]) == Sum(s) + x
  {
    assert (s + [x])[..|s|] == s;
  }

  /** Recording a round keeps the player's bookkeeping consistent. */
  lemma AddRoundResultConsistent(p: Player, opponent: Option<Player>, result: real, color: Option<Color>)
    requires Consistent(p)
    ensures Consistent(AddRoundResult(p, opponent, result, color).0)
  {
    var q := AddRoundResult(p, opponent, result, color).0;
    SumAppend(p.results, result);
    PlayedAppend(p.colorHistory, color);
    if color.Some? {
      CountAppend(Played(p.colorHistory), color.value, Black);
    } else {
      assert Played(p.colorHistory + [color]) == Played(p.colorHistory);
    }
    forall i | 0 <= i < |q.results|
      ensures q.runningScores[i] == Sum(q.results[..i + 1])
    {
      if i < |p.results| {
        assert q.results[..i + 1] == p.results[..i + 1];
      } else {
        assert q.results[..i + 1] == q.results;
      }
    }
  }

  // ------------------------------------------------------- dictionary form

  /** A saved player dictionary. A field is None when its key is absent; for
      attributes that may hold Python None the value is itself optional. */
  datatype PlayerDict = PlayerDict(
    id: Option<string>, name: Option<string>, rating: Option<int>,
    phone: Option<Option<string>>, email: Option<Option<string>>, club: Option<Option<string>>,
    gender: Option<Option<string>>, dob: Option<Option<Dob>>, federation: Option<Option<string>>,
    isActive: Option<bool>, score: Option<real>,
    colorHistory: Option<History>, opponentIds: Option<seq<Option<string>>>,
    results: Option<seq<real>>, runningScores: Option<seq<real>>,
    hasReceivedBye: Option<bool>, numBlackGames: Option<int>,
    floatHistory: Option<seq<int>>, matchHistory: Option<seq<MatchInfo>>,
    tiebreakers: Option<map<string, real>>,
    fideId: Option<Option<int>>, fideTitle: Option<Option<string>>,
    fideStandard: Option<Option<int>>, fideRapid: Option<Option<int>>,
    fideBlitz: Option<Option<int>>, birthYear: Option<Option<int>>)

  /** A birth date as `to_dict` writes it: dates become ISO text. */
  function DobAsText(d: Option<Dob>): (r: Option<Dob>)
    ensures r.None? <==> d.None?
    ensures r.Some? ==> r.value.DobText?
  {
    match d
    case None => None
    case Some(DobText(t)) => Some(DobText(t))
    case Some(DobDate(date)) =>
      Some(DobText(if ValidDate(date) then IsoFormat(date) else ""))
  }

  /** player/base_player.py `to_dict`: every public attribute, dates as ISO
      text; the FIDE keys exist only for a FidePlayer. */
  function ToDict(p: Player): (d: PlayerDict)
    ensures d.name == Some(p.name) && d.id == Some(p.id)
    ensures d.dob == Some(DobAsText(p.dob))
    ensures d.fideId.Some? <==> p.fide.Some?
    ensures d.results == Some(p.results) && d.colorHistory == Some(p.colorHistory)
  {
    var f := p.fide;
    PlayerDict(
      Some(p.id), Some(p.name), Some(p.rating), Some(p.phone), Some(p.email), Some(p.club),
      Some(p.gender), Some(DobAsText(p.dob)), Some(p.federation), Some(p.isActive), Some(p.score),
      Some(p.colorHistory), Some(p.opponentIds), Some(p.results), Some(p.runningScores),
      Some(p.hasReceivedBye), Some(p.numBlackGames), Some(p.floatHistory), Some(p.matchHistory),
      Some(p.tiebreakers),
      if f.Some? then Some(f.value.fideId) else None,
      if f.Some? then Some(f.value.title) else None,
      if f.Some? then Some(f.value.standard) else None,
      if f.Some? then Some(f.value.rapid) else None,
      if f.Some? then Some(f.value.blitz) else None,
      if f.Some? then Some(f.value.birthYear) else None)
  }

  /** The date the constructor receives from a saved `dob` value: only a
      truthy value is parsed, and a text that does not parse gives none. */
  function DobArgument(d: PlayerDict): Option<Date> {
    if d.dob.Some? && d.dob.value.Some? then
      match DobDateOf(d.dob.value.value)
      case None => None
      case Some(date) => if d.dob.value.value.DobText? && !ValidDate(date) then None else Some(date)
    else None
  }

  /** Python `a or b` on optional strings where only absence is falsy here. */
  function Restored<T>(key: Option<T>, default: T): T {
    if key.Some? then key.value else default
  }

  /** The attributes every restored player shares: the constructor's values
      overwritten by every key the dictionary holds, missing lists empty. */
  function RestoreBase(d: PlayerDict, name: string, freshId: string, rating: int): Player {
    Player(
      Restored(d.id, freshId), name, Restored(d.rating, rating),
      Restored(d.phone, None), Restored(d.email, None), Restored(d.club, None),
      Restored(d.gender, None), Restored(d.dob, None), Restored(d.federation, None),
      Restored(d.isActive, true), Restored(d.score, 0.0),
      Restored(d.colorHistory, []), Restored(d.opponentIds, []), Restored(d.results, []),
      Restored(d.runningScores, []), Restored(d.hasReceivedBye, false),
      Restored(d.numBlackGames, 0), Restored(d.floatHistory, []),
      Restored(d.matchHistory, []), Restored(d.tiebreakers, map[]), None)
  }

  /** player/base_player.py `Player.from_dict` and player/fide_player.py
      `FidePlayer.from_dict`: a dictionary with a FIDE id gives a FidePlayer,
      any other a base player; a dictionary without a name is rejected
      (Python's KeyError). `freshId` is the id the constructor generates. */
  function FromDict(d: PlayerDict, freshId: string): (r: Option<Player>)
    ensures r.Some? <==> d.name.Some?
    ensures r.Some? ==> r.value.name == d.name.value
    ensures r.Some? ==> (r.value.fide.Some? <==> d.fideId.Some? && d.fideId.value.Some?)
    ensures r.Some? && d.id.Some? ==> r.value.id == d.id.value
    ensures r.Some? && d.id.None? ==> r.value.id == freshId
    ensures r.Some? && d.rating.Some? ==> r.value.rating == d.rating.value
  {
    if d.name.None? then None
    else if d.fideId.Some? && d.fideId.value.Some? then FideFromDict(d, freshId)
    else Some(RestoreBase(d, d.name.value, freshId, 0))
  }

  /** player/fide_player.py `FidePlayer.from_dict` called directly: always a
      FidePlayer, whose FIDE fields are the saved ones (none when absent). */
  function FideFromDict(d: PlayerDict, freshId: string): (r: Option<Player>)
    ensures r.Some? <==> d.name.Some?
    ensures r.Some? ==> r.value.name == d.name.value && r.value.fide.Some?
                        && r.value.fide.value.fideId == Restored(d.fideId, None)
                        && r.value.fide.value.title == Restored(d.fideTitle, None)
    ensures r.Some? && d.rating.Some? ==> r.value.rating == d.rating.value
  {
    if d.name.None? then None
    else
      var standard := Restored(d.fideStandard, None);
      var rapid := Restored(d.fideRapid, None);
      var rating := FideDefaultRating(None, standard, rapid);
      var dob := DobArgument(d);
      var base := RestoreBase(d, d.name.value, freshId, rating);
      Some(base.(fide := Some(FideInfo(
        Restored(d.fideId, None), Restored(d.fideTitle, None), standard, rapid, Restored(d.fideBlitz, None),
        Restored(d.birthYear, if dob.Some? then Some(dob.value.year) else None)))))
  }

  /** Saving and restoring gives the player back with its birth date as
      text, provided a FidePlayer has a FIDE id (one without is restored as a
      base player, see `FideWithoutIdRestoresAsBase`). */
  lemma DictRoundTrip(p: Player, freshId: string)
    requires p.fide.None? || p.fide.value.fideId.Some?
    ensures FromDict(ToDict(p), freshId) == Some(p.(dob := DobAsText(p.dob)))
  {
  }

  /** A FidePlayer whose FIDE id is None loses its FIDE data on a round trip. */
  lemma FideWithoutIdRestoresAsBase(p: Player, freshId: string)
    requires p.fide.Some? && p.fide.value.fideId.None?
    ensures FromDict(ToDict(p), freshId).Some?
    ensures FromDict(ToDict(p), freshId).value.fide.None?
  {
  }

  /** Saving a restored player saves the same dictionary. */
  lemma ToDictStable(p: Player, freshId: string)
    requires p.fide.None? || p.fide.value.fideId.Some?
    ensures ToDict(FromDict(ToDict(p), freshId).value) == ToDict(p)
  {
    DictRoundTrip(p, freshId);
  }
}
