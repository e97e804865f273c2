/** The TRF importer of compatibility/bbp.py: the rating normalisation of a
    player record, the reading of `001` player records and `037` round
    records, and the pass over a file's records. Reading the file is left
    to the caller: the model starts from its text. The importer never
    builds a tournament configuration, so the configuration it returns is
    always absent and the model returns the players and the importer's
    state only. */
module TrfImport {
  import opened Wrappers
  import Text
  import Format
  import Bbp

  // ----------------------------------------------------- numbers in text

  /** `s.isdigit()` for ASCII text: at least one character, all digits. */
  predicate AllDigits(s: string) {
    |s| > 0 && forall k :: 0 <= k < |s| ==> Text.IsDigit(s[k])
  }

  predicate Digits(s: string) {
    forall k :: 0 <= k < |s| ==> Text.IsDigit(s[k])
  }

  /** Position of the first `.` of `s`, or `|s|` without one. */
  function PointAt(s: string): (p: nat)
    ensures p <= |s| && (p < |s| ==> s[p] == '.')
    ensures forall k :: 0 <= k < p ==> s[k] != '.'
  {
    if s == [] || s[0] == '.' then 0 else 1 + PointAt(s[1..])
  }

  /** Python `float(s)` for a plain decimal: white space around it, an
      optional sign, then an unsigned decimal; None where Python raises
      ValueError. */
  function ParseFloat(s: string): (r: Option<real>)
    ensures r.Some? ==> |Text.Strip(s)| > 0
  {
    var t := Text.Strip(s);
    if |t| == 0 then None
    else
      match Unsigned(if t[0] == '-' || t[0] == '+' then t[1..] else t)
      case Some(v) => Some(if t[0] == '-' then -v else v)
      case None => None
  }

  /** Digits with at most one point and at least one digit. */
  function Unsigned(body: string): (r: Option<real>)
    ensures r.Some? ==> r.value >= 0.0
  {
    var p := PointAt(body);
    var whole := body[..p];
    var frac := if p < |body| then body[p + 1..] else "";
    if |whole| + |frac| == 0 || !Digits(whole) || !Digits(frac) then None
    else Some(Text.DigitsValue(whole) as real + Shift(Text.DigitsValue(frac) as real, |frac|))
  }

  /** `v / 10^places`, one place at a time. */
  function Shift(v: real, places: nat): (r: real)
    ensures v >= 0.0 ==> r >= 0.0
  {
    if places == 0 then v else Shift(v, places - 1) / 10.0
  }

  /** Digits alone are a whole number. */
  lemma UnsignedOfDigits(d: string)
    requires AllDigits(d)
    ensures Unsigned(d) == Some(Text.DigitsValue(d) as real)
  {
    assert PointAt(d) == |d|;
    assert d[..|d|] == d;
  }

  /** `float(str(n)) == n`. */
  lemma ParseFloatOfInt(n: int)
    ensures ParseFloat(Text.IntToString(n)) == Some(n as real)
  {
    var s := Text.IntToString(n);
    var d := Text.NatToString(if n < 0 then -n else n);
    Bbp.IntWord(n);
    Text.StripOfTrimmed(s);
    Text.NatToStringValue(if n < 0 then -n else n);
    UnsignedOfDigits(d);
    if n < 0 {
      assert s == "-" + d && s[1..] == d;
    }
  }

  // -------------------------------------------------------------- rating

  /** The rating a player record is built with: text, a number, or None. */
  datatype RatingField = RatingText(text: string) | RatingNumber(value: int) | RatingMissing

  /** `TRFPlayerRecord.__post_init__`: a text ending in `K` counts
      thousands (`int(float(text[:-1]) * 1000)`, truncating toward zero),
      other text is read with `int()`, None becomes 0 and a number stays;
      None here where Python raises ValueError. */
  function NormaliseRating(f: RatingField): (r: Option<int>)
    ensures f.RatingMissing? ==> r == Some(0)
    ensures f.RatingNumber? ==> r == Some(f.value)
    ensures r.None? ==> f.RatingText?
  {
    match f
    case RatingMissing => Some(0)
    case RatingNumber(n) => Some(n)
    case RatingText(t) => TextRating(t)
  }

  /** A rating given as text. */
  function TextRating(t: string): Option<int> {
    if |t| > 0 && t[|t| - 1] == 'K' then ThousandsRating(t[..|t| - 1]) else Text.ParseInt(t)
  }

  /** `int(x * 1000)`. */
  function Scale(x: real): int {
    Text.Trunc(x * 1000.0)
  }

  /** `int(float(body) * 1000)`. */
  function ThousandsRating(body: string): Option<int> {
    var v := ParseFloat(body);
    if v.Some? then Some(Scale(v.value)) else None
  }

  /** A rating written as a number reads back as that number. */
  lemma RatingOfText(n: int)
    ensures NormaliseRating(RatingText(Text.IntToString(n))) == Some(n)
  {
    Bbp.IntWord(n);
    Text.ParseIntOfIntToString(n);
    assert TextRating(Text.IntToString(n)) == Text.ParseInt(Text.IntToString(n));
  }

  /** A text ending in `K` is read as thousands of what precedes it. */
  lemma Thousands(t: string, x: real)
    requires ParseFloat(t) == Some(x)
    ensures NormaliseRating(RatingText(t + "K")).Some?
    ensures NormaliseRating(RatingText(t + "K")).value == Scale(x)
  {
    ThousandsText(t);
  }

  lemma ThousandsText(t: string)
    ensures TextRating(t + "K") == ThousandsRating(t)
  {
    var s := t + "K";
    assert s[..|s| - 1] == t;
  }

  /** `"<n>K"` reads back as n thousand. */
  lemma RatingOfThousands(n: int)
    ensures NormaliseRating(RatingText(Text.IntToString(n) + "K")) == Some(1000 * n)
  {
    ParseFloatOfInt(n);
    Thousands(Text.IntToString(n), n as real);
    ScaleOfInt(n);
  }

  lemma ScaleOfInt(n: int)
    ensures Scale(n as real) == 1000 * n
  {
    assert (n as real) * 1000.0 == (1000 * n) as real;
    TruncOfInt(1000 * n);
  }

  lemma TruncOfInt(k: int)
    ensures Text.Trunc(k as real) == k
  {
  }

  /** A thousands rating is within one point of the value it writes,
      rounded toward zero. */
  lemma ThousandsBound(t: string, x: real)
    requires ParseFloat(t) == Some(x)
    ensures var r := NormaliseRating(RatingText(t + "K"));
            r.Some? && (x >= 0.0 ==> 0 <= r.value && r.value as real <= 1000.0 * x < r.value as real + 1.0)
            && (x < 0.0 ==> r.value <= 0 && r.value as real - 1.0 < 1000.0 * x <= r.value as real)
  {
    Thousands(t, x);
  }

  // ------------------------------------------------------ player records

  /** The fields `_parse_player_record` reads from a player record. */
  datatype TrfPlayer = TrfPlayer(
    startingRank: int,
    name: string,
    rating: int,
    birthDate: Option<string>,
    federation: Option<string>,
    fideId: Option<string>,
    titleNumbers: Option<string>,
    sex: Option<string>,
    colorPreference: Option<string>)

  /** Word `i` of a record, when there is one. */
  function Field(parts: seq<string>, i: nat): Option<string> {
    if i < |parts| then Some(parts[i]) else None
  }

  /** `_parse_player_record` on the text after the record code: at least
      four words, the first an integer (the starting rank), the second the
      name; the third is the rating when it is all digits, the fourth the
      birth date when it has eight characters, the next four the
      federation, FIDE id, title numbers and sex, and a ninth word of one
      character the colour preference. None for a short record or a rank
      that is not an integer. */
  function ParsePlayerRecord(data: string): (r: Option<TrfPlayer>)
    ensures r.Some? <==> |Format.Words(data)| >= 4 && Text.ParseInt(Format.Words(data)[0]).Some?
  {
    PlayerOfWords(Format.Words(data))
  }

  /** The player a record's words describe. */
  function PlayerOfWords(parts: seq<string>): (r: Option<TrfPlayer>)
    ensures r.Some? <==> |parts| >= 4 && Text.ParseInt(parts[0]).Some?
  {
    if |parts| < 4 then None
    else
      var rank := Text.ParseInt(parts[0]);
      if rank.None? then None
      else
        Some(TrfPlayer(rank.value, parts[1],
                       if AllDigits(parts[2]) then Text.DigitsValue(parts[2]) else 0,
                       if |parts[3]| == 8 then Some(parts[3]) else None,
                       Field(parts, 4), Field(parts, 5), Field(parts, 6), Field(parts, 7),
                       if |parts| > 8 && |parts[8]| == 1 then Some(parts[8]) else None))
  }

  /** The words of a standard player record, rank, name, rating, birth
      date, federation, FIDE id, title and sex, read back field by field. */
  lemma PlayerRecordRoundTrip(rank: int, name: string, rating: nat, birth: string,
                              federation: string, fideId: string, title: string, sex: string)
    requires Format.Word(name) && Format.Word(birth) && |birth| == 8
    requires Format.Word(federation) && Format.Word(fideId) && Format.Word(title) && Format.Word(sex)
    ensures var ws := [Text.IntToString(rank), name, Text.NatToString(rating), birth, federation, fideId, title, sex];
            ParsePlayerRecord(Text.Join(ws, ' '))
            == Some(TrfPlayer(rank, name, rating, Some(birth), Some(federation), Some(fideId), Some(title), Some(sex), None))
  {
    var ws := [Text.IntToString(rank), name, Text.NatToString(rating), birth, federation, fideId, title, sex];
    StandardAreWords(rank, name, rating, birth, federation, fideId, title, sex);
    ReadWords(ws);
    StandardWords(rank, name, rating, birth, federation, fideId, title, sex);
  }

  lemma StandardAreWords(rank: int, name: string, rating: nat, birth: string,
                         federation: string, fideId: string, title: string, sex: string)
    requires Format.Word(name) && Format.Word(birth)
    requires Format.Word(federation) && Format.Word(fideId) && Format.Word(title) && Format.Word(sex)
    ensures var ws := [Text.IntToString(rank), name, Text.NatToString(rating), birth, federation, fideId, title, sex];
            forall i :: 0 <= i < |ws| ==> Format.Word(ws[i])
  {
    Bbp.IntWord(rank);
    Bbp.IntWord(rating);
    assert Text.NatToString(rating) == Text.IntToString(rating);
  }

  /** A record of words reads as those words. */
  lemma ReadWords(ws: seq<string>)
    requires |ws| > 0 && forall i :: 0 <= i < |ws| ==> Format.Word(ws[i])
    ensures ParsePlayerRecord(Text.Join(ws, ' ')) == PlayerOfWords(ws)
  {
    Format.WordsOfJoin(ws);
  }

  lemma StandardWords(rank: int, name: string, rating: nat, birth: string,
                      federation: string, fideId: string, title: string, sex: string)
    requires |birth| == 8
    ensures PlayerOfWords([Text.IntToString(rank), name, Text.NatToString(rating), birth, federation, fideId, title, sex])
            == Some(TrfPlayer(rank, name, rating, Some(birth), Some(federation), Some(fideId), Some(title), Some(sex), None))
  {
    Text.ParseIntOfIntToString(rank);
    Text.NatToStringValue(rating);
  }

  /** `_parse_round_record`: a record of at least four words gives its
      second word as the round number when it is all digits, else 0. */
  function ParseRoundRecord(data: string): (r: Option<nat>)
    ensures r.Some? <==> |Format.Words(data)| >= 4
    ensures r.Some? && r.value != 0 ==> AllDigits(Format.Words(data)[1])
  {
    var parts := Format.Words(data);
    if |parts| < 4 then None
    else Some(if AllDigits(parts[1]) then Text.DigitsValue(parts[1]) else 0)
  }

  // ------------------------------------------------------- the file pass

  /** What the importer keeps while reading: the players read, the last
      tournament name and the last round number. */
  datatype ImportState = ImportState(players: seq<TrfPlayer>, tournamentName: Option<string>, currentRound: int)

  /** `reset_state`. */
  const Fresh := ImportState([], None, 0)

  /** The first three characters of a record. */
  function Code(record: string): string {
    if |record| >= 3 then record[..3] else record
  }

  /** `record[4:].strip()`. */
  function Data(record: string): string {
    if |record| >= 4 then Text.Strip(record[4..]) else ""
  }

  /** One record of `_parse_trf_content`: a readable `001` record adds a
      player, `012` sets the tournament name, a readable `037` record sets
      the round; the `013` and `BB` records only act on a configuration,
      which is never built, and every other record is skipped. */
  function ImportRecord(st: ImportState, record: string): (r: ImportState)
    ensures |st.players| <= |r.players| <= |st.players| + 1 && r.players[..|st.players|] == st.players
    ensures Code(record) != "001" ==> r.players == st.players
  {
    if Code(record) == "001" then
      match ParsePlayerRecord(Data(record))
      case Some(p) => st.(players := st.players + [p])
      case None => st
    else if Code(record) == "012" then st.(tournamentName := Some(Data(record)))
    else if Code(record) == "037" then
      match ParseRoundRecord(Data(record))
      case Some(n) => st.(currentRound := n)
      case None => st
    else st
  }

  function ImportRecords(st: ImportState, records: seq<string>): ImportState
    decreases |records|
  {
    if records == [] then st else ImportRecords(ImportRecord(st, records[0]), records[1..])
  }

  /** `_parse_trf_content` from a fresh importer. */
  function ParseTrfContent(records: seq<string>): ImportState {
    ImportRecords(Fresh, records)
  }

  /** The records of a file: its lines stripped, blank ones dropped. */
  function Records(content: string): (rs: seq<string>)
    ensures forall i :: 0 <= i < |rs| ==> rs[i] != "" && Text.Strip(rs[i]) == rs[i]
  {
    NonBlank(Text.Split(content, '\n'))
  }

  function NonBlank(lines: seq<string>): (rs: seq<string>)
    ensures |rs| <= |lines|
    ensures forall i :: 0 <= i < |rs| ==> rs[i] != "" && Text.Strip(rs[i]) == rs[i]
  {
    if lines == [] then []
    else
      var rest := NonBlank(lines[1..]);
      Text.StripIdempotent(lines[0]);
      if Text.Strip(lines[0]) == "" then rest else [Text.Strip(lines[0])] + rest
  }

  /** A record other than `001`, `012` and `037` changes nothing: the
      `013` tie-break record and the `BB` extension records included. */
  lemma IgnoredRecord(st: ImportState, record: string)
    requires Code(record) != "001" && Code(record) != "012" && Code(record) != "037"
    ensures ImportRecord(st, record) == st
  {
  }

  /** Reading two runs of records is reading the first, then the second. */
  lemma {:induction false} ImportAppend(st: ImportState, a: seq<string>, b: seq<string>)
    ensures ImportRecords(st, a + b) == ImportRecords(ImportRecords(st, a), b)
    decreases |a|
  {
    if a == [] {
      assert a + b == b;
    } else {
      assert (a + b)[0] == a[0] && (a + b)[1..] == a[1..] + b;
      ImportAppend(ImportRecord(st, a[0]), a[1..], b);
    }
  }

  /** Records that are not player records leave the players read as they
      were. */
  lemma {:induction false} PlayersOnlyFromPlayerRecords(st: ImportState, records: seq<string>)
    requires forall i :: 0 <= i < |records| ==> Code(records[i]) != "001"
    ensures ImportRecords(st, records).players == st.players
    decreases |records|
  {
    if records != [] {
      PlayersOnlyFromPlayerRecords(ImportRecord(st, records[0]), records[1..]);
    }
  }

  /** The players read are never fewer than before, and every new one
      extends the list at its end. */
  lemma {:induction false} PlayersGrow(st: ImportState, records: seq<string>)
    ensures |st.players| <= |ImportRecords(st, records).players|
    ensures ImportRecords(st, records).players[..|st.players|] == st.players
    decreases |records|
  {
    if records != [] {
      var next := ImportRecord(st, records[0]);
      PlayersGrow(next, records[1..]);
      assert next.players[..|st.players|] == st.players;
    }
  }
}
