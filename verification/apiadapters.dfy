/** utils/api_adapters.py: turning FIDE and CFC rating-service records into
    the player dictionaries the factory reads, and a batch of records into
    players. A record is a dictionary of JSON values; the fields the
    adapters read are typed here. The current year is a parameter. */
module ApiAdapters {
  import opened Wrappers
  import opened Text
  import opened Players
  import PlayerFactories

  /** A JSON number or string, the two forms an id or a year arrives in. */
  datatype Value = Num(n: int) | Str(s: string)

  /** An API record. A text field is `None` when the key is absent and
      `Some(None)` when it holds JSON null; an integer field is `None` for
      both. */
  datatype ApiRecord = ApiRecord(
    fideId: Option<Value>, name: Option<Option<string>>, title: Option<string>,
    federation: Option<string>, gender: Option<string>,
    standardRating: Option<int>, rapidRating: Option<int>, blitzRating: Option<int>,
    birthYear: Option<Value>,
    nameFirst: Option<Option<string>>, nameLast: Option<Option<string>>,
    regularRating: Option<int>, quickRating: Option<int>,
    addrCity: Option<Option<string>>, addrProvince: Option<Option<string>>,
    cfcFideId: Option<Value>)

  /** Python truthiness of a JSON value. */
  predicate TruthyValue(v: Option<Value>) {
    v.Some? && (if v.value.Num? then v.value.n != 0 else v.value.s != "")
  }

  /** Python `int(v)` (a string is stripped first), or None where it raises. */
  function IntOf(v: Value): (r: Option<int>)
    ensures v.Num? ==> r == Some(v.n)
    ensures v.Str? ==> r == ParseInt(v.s)
  {
    match v
    case Num(n) => Some(n)
    case Str(s) => ParseInt(s)
  }

  /** `dict.get(key, "")` on a text field: absent is "", null raises. */
  function TextOr(x: Option<Option<string>>): Option<string> {
    if x.None? then Some("") else x.value
  }

  /** Python `a or b` on optional integers. */
  function OrInt(a: Option<int>, b: int): (r: int)
    ensures Truthy(a) ==> r == a.value
    ensures !Truthy(a) ==> r == b
  {
    if Truthy(a) then a.value else b
  }

  function NoKeys(): PlayerDict {
    PlayerDict(None, None, None, None, None, None, None, None, None, None, None, None, None,
               None, None, None, None, None, None, None, None, None, None, None, None, None)
  }

  /** The FIDE id the FIDE adapter keeps: the int of a truthy value, or none
      when it is absent, falsy or does not parse. */
  function FideIdOf(v: Option<Value>): (r: Option<int>)
    ensures !TruthyValue(v) ==> r.None?
    ensures TruthyValue(v) ==> r == IntOf(v.value)
  {
    // `int(str(v).strip())`: the text of a number parses back to it
    if !TruthyValue(v) then None else IntOf(v.value)
  }

  /** The birth date the FIDE adapter derives: 1 January of the year, when
      the year parses and lies in 1900 through the current year. */
  function BirthDateOf(v: Option<Value>, currentYear: int): (r: Option<Date>)
    ensures r.Some? <==> TruthyValue(v) && IntOf(v.value).Some?
                         && 1900 <= IntOf(v.value).value <= currentYear
    ensures r.Some? ==> r.value == Date(IntOf(v.value).value, 1, 1)
  {
    if !TruthyValue(v) then None
    else
      match IntOf(v.value)
      case None => None
      case Some(y) => if 1900 <= y <= currentYear then Some(Date(y, 1, 1)) else None
  }

  /** `fide_api_to_player_dict`: raises only when the name is JSON null. */
  function FideApiToPlayerDict(a: ApiRecord, currentYear: int): (r: Result<PlayerDict, string>)
    ensures r.Failure? <==> a.name == Some(None)
    ensures r.Success? ==>
              r.value.name == Some(Strip(TextOr(a.name).value))
              && r.value.rating == Some(OrInt(a.standardRating, OrInt(a.rapidRating, OrInt(a.blitzRating, 0))))
              && r.value.fideId == Some(FideIdOf(a.fideId))
              && r.value.fideTitle == Some(a.title)
              && r.value.fideStandard == Some(a.standardRating)
              && r.value.federation == Some(a.federation)
    ensures r.Success? ==>
              (var dob := BirthDateOf(a.birthYear, currentYear);
               r.value.dob == Some(if dob.Some? then Some(DobDate(dob.value)) else None))
  {
    match TextOr(a.name)
    case None => Failure("name is null")
    case Some(n) =>
      var dob := BirthDateOf(a.birthYear, currentYear);
      Success(NoKeys().(
        name := Some(Strip(n)),
        rating := Some(OrInt(a.standardRating, OrInt(a.rapidRating, OrInt(a.blitzRating, 0)))),
        fideId := Some(FideIdOf(a.fideId)),
        fideTitle := Some(a.title),
        fideStandard := Some(a.standardRating),
        fideRapid := Some(a.rapidRating),
        fideBlitz := Some(a.blitzRating),
        federation := Some(a.federation),
        gender := Some(a.gender),
        // the "date_of_birth" key, which `from_dict` reads when there is no "dob"
        dob := Some(if dob.Some? then Some(DobDate(dob.value)) else None)))
  }

  /** The CFC club: "city, province" when both are given, else whichever is. */
  function Location(city: string, province: string): (r: string)
    ensures city != "" && province != "" ==> r == city + ", " + province
    ensures city == "" ==> r == province
    ensures province == "" ==> r == city
  {
    if city != "" && province != "" then city + ", " + province
    else if city != "" then city else province
  }

  /** `cfc_api_to_player_dict`: raises when a name or address part is JSON
      null or a truthy FIDE id does not parse. */
  function CfcApiToPlayerDict(a: ApiRecord): (r: Result<PlayerDict, string>)
    ensures r.Failure? <==>
              TextOr(a.nameFirst).None? || TextOr(a.nameLast).None?
              || TextOr(a.addrCity).None? || TextOr(a.addrProvince).None?
              || (TruthyValue(a.cfcFideId) && IntOf(a.cfcFideId.value).None?)
    ensures r.Success? ==>
              r.value.name == Some(Strip(Strip(TextOr(a.nameFirst).value) + " " + Strip(TextOr(a.nameLast).value)))
              && r.value.federation == Some(Some("CAN"))
              && r.value.rating == Some(OrInt(a.regularRating, OrInt(a.quickRating, 0)))
              && (r.value.fideId.Some? <==>
                    TruthyValue(a.cfcFideId) && IntOf(a.cfcFideId.value).value != 0)
              && (r.value.fideId.Some? ==> r.value.fideId == Some(IntOf(a.cfcFideId.value)))
              && (r.value.club.Some? <==>
                    Strip(TextOr(a.addrCity).value) != "" || Strip(TextOr(a.addrProvince).value) != "")
  {
    var first := TextOr(a.nameFirst);
    var last := TextOr(a.nameLast);
    var city := TextOr(a.addrCity);
    var province := TextOr(a.addrProvince);
    if first.None? || last.None? || city.None? || province.None? then Failure("null field")
    else if TruthyValue(a.cfcFideId) && IntOf(a.cfcFideId.value).None? then Failure("invalid FIDE id")
    else
      var name := Strip(Strip(first.value) + " " + Strip(last.value));
      var loc := Location(Strip(city.value), Strip(province.value));
      var fid := if TruthyValue(a.cfcFideId) then IntOf(a.cfcFideId.value).value else 0;
      var d := NoKeys().(name := Some(name), rating := Some(OrInt(a.regularRating, OrInt(a.quickRating, 0))),
                         federation := Some(Some("CAN")));
      var d2 := if fid != 0 then d.(fideId := Some(Some(fid))) else d;
      Success(if loc != "" then d2.(club := Some(Some(loc))) else d2)
  }

  /** The adapter `api_response_to_players` picks: CFC for the source "cfc"
      in any letter case, FIDE for every other source. */
  function Adapt(a: ApiRecord, source: string, currentYear: int): Result<PlayerDict, string> {
    if Lower(source) == "cfc" then CfcApiToPlayerDict(a) else FideApiToPlayerDict(a, currentYear)
  }

  /** `api_response_to_players`: each record adapted and built by the
      default factory; records that fail are skipped. `ids` are the
      generated player ids, one per record. */
  function ApiResponseToPlayers(records: seq<ApiRecord>, source: string, currentYear: int, ids: seq<string>)
    : (r: seq<Player>)
    requires |ids| == |records|
    ensures |r| <= |records|
  {
    if records == [] then []
    else
      var rest := ApiResponseToPlayers(records[1..], source, currentYear, ids[1..]);
      match Adapt(records[0], source, currentYear)
      case Failure(_) => rest
      case Success(d) =>
        match PlayerFactories.CreateFromDict(d, ids[0])
        case None => rest
        case Some(p) => [p] + rest
  }

  /** The records whose adapter succeeds, in order. */
  function Adaptable(records: seq<ApiRecord>, source: string, currentYear: int): (r: seq<PlayerDict>)
    ensures |r| <= |records|
  {
    if records == [] then []
    else
      match Adapt(records[0], source, currentYear)
      case Failure(_) => Adaptable(records[1..], source, currentYear)
      case Success(d) => [d] + Adaptable(records[1..], source, currentYear)
  }

  function DictNamesOf(ds: seq<PlayerDict>): seq<Option<string>> {
    if ds == [] then [] else [ds[0].name] + DictNamesOf(ds[1..])
  }

  function PlayerNames(ps: seq<Player>): seq<Option<string>> {
    if ps == [] then [] else [Some(ps[0].name)] + PlayerNames(ps[1..])
  }

  /** Every adapted record becomes a player (the adapters always write a
      name), so the batch keeps exactly the adaptable records, in order. */
  lemma {:induction false} BatchKeepsAdaptable(records: seq<ApiRecord>, source: string, currentYear: int,
                                               ids: seq<string>)
    requires |ids| == |records|
    ensures PlayerNames(ApiResponseToPlayers(records, source, currentYear, ids))
            == DictNamesOf(Adaptable(records, source, currentYear))
  {
    if records != [] {
      BatchKeepsAdaptable(records[1..], source, currentYear, ids[1..]);
      var a := Adapt(records[0], source, currentYear);
      if a.Success? {
        assert a.value.name.Some?;
      }
    }
  }

  /** A FIDE record with a known id yields a FidePlayer carrying that id. */
  lemma FideRecordGivesFidePlayer(a: ApiRecord, currentYear: int, id: string)
    requires a.name != Some(None) && FideIdOf(a.fideId).Some?
    ensures var d := FideApiToPlayerDict(a, currentYear).value;
            var p := PlayerFactories.CreateFromDict(d, id);
            p.Some? && p.value.fide.Some? && p.value.fide.value.fideId == FideIdOf(a.fideId)
  {
  }
}
