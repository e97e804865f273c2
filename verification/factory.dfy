/** models/player/factory.py: `PlayerFactory`, which validates the input
    fields and builds a FidePlayer when any FIDE field is set, a base
    player otherwise. The generated player id is a parameter. */
module PlayerFactories {
  import opened Wrappers
  import opened Text
  import opened Players
  import opened Validation

  datatype Factory = Factory(validate: bool, strict: bool)

  /** The keyword arguments of `create_player`. */
  datatype PlayerInput = PlayerInput(
    name: string, rating: Option<int>, phone: Option<string>, email: Option<string>,
    club: Option<string>, gender: Option<string>, dob: Option<Date>, federation: Option<string>,
    fideId: Option<int>, fideTitle: Option<string>, fideStandard: Option<int>,
    fideRapid: Option<int>, fideBlitz: Option<int>)

  /** Python truthiness of an optional string. */
  predicate Filled(s: Option<string>) {
    s.Some? && s.value != ""
  }

  /** The reason of a failed check, or the generic one the caller supplies. */
  function ErrorOf(v: ValidationResult): Reason {
    v.error.GetOr(InvalidFormat)
  }

  /** `_validate_data`: the name is always required, the rating is checked
      when given, phone, email and FIDE id when non-empty. */
  function ValidateData(name: Option<string>, rating: Option<int>, phone: Option<string>,
                        email: Option<string>, fideId: Option<string>): (errors: seq<Reason>)
    ensures |errors| <= 5
    ensures errors == [] <==>
              ValidateName(name, true).isValid
              && (rating.Some? ==> ValidateRating(rating, 0, 3000).isValid)
              && (Filled(phone) ==> ValidatePhone(phone, false).isValid)
              && (Filled(email) ==> ValidateEmail(email, false).isValid)
              && (Filled(fideId) ==> ValidateFideId(fideId, false).isValid)
    ensures Missing(name) ==> errors != [] && errors[0] == Required
  {
    var n := ValidateName(name, true);
    var r := ValidateRating(rating, 0, 3000);
    var ph := ValidatePhone(phone, false);
    var em := ValidateEmail(email, false);
    var fi := ValidateFideId(fideId, false);
    (if n.isValid then [] else [ErrorOf(n)])
    + (if rating.Some? && !r.isValid then [ErrorOf(r)] else [])
    + (if Filled(phone) && !ph.isValid then [ErrorOf(ph)] else [])
    + (if Filled(email) && !em.isValid then [ErrorOf(em)] else [])
    + (if Filled(fideId) && !fi.isValid then [ErrorOf(fi)] else [])
  }

  /** The test both `create_player` and `create_from_dict` use: a non-zero
      FIDE id or rating or a non-empty title. */
  predicate HasFideData(fideId: Option<int>, title: Option<string>, standard: Option<int>,
                        rapid: Option<int>, blitz: Option<int>) {
    Truthy(fideId) || Filled(title) || Truthy(standard) || Truthy(rapid) || Truthy(blitz)
  }

  /** The FIDE id as `_validate_data` receives it: `str(fide_id)`. */
  function FideIdText(fideId: Option<int>): (r: Option<string>)
    ensures r.Some? <==> fideId.Some?
    ensures r.Some? ==> ParseInt(r.value) == fideId
  {
    if fideId.None? then None
    else
      ParseIntOfIntToString(fideId.value);
      Some(IntToString(fideId.value))
  }

  /** `create_player`: a strict validating factory refuses input with
      errors; otherwise the player is built even from invalid input. */
  function CreatePlayer(f: Factory, id: string, d: PlayerInput): (r: Result<Player, seq<Reason>>)
    ensures r.Failure? <==>
              f.validate && f.strict
              && ValidateData(Some(d.name), d.rating, d.phone, d.email, FideIdText(d.fideId)) != []
    ensures r.Success? ==> r.value.name == d.name && r.value.id == id
    ensures r.Success? ==>
              (r.value.fide.Some? <==> HasFideData(d.fideId, d.fideTitle, d.fideStandard, d.fideRapid, d.fideBlitz))
    ensures r.Success? && r.value.fide.Some? ==>
              r.value.fide.value.fideId == d.fideId && r.value.fide.value.title == d.fideTitle
              && r.value.rating == FideDefaultRating(d.rating, d.fideStandard, d.fideRapid)
    ensures r.Success? && r.value.fide.None? ==> r.value.rating == d.rating.GetOr(0)
  {
    var errors := if f.validate then ValidateData(Some(d.name), d.rating, d.phone, d.email, FideIdText(d.fideId)) else [];
    if f.validate && f.strict && errors != [] then Failure(errors)
    else if HasFideData(d.fideId, d.fideTitle, d.fideStandard, d.fideRapid, d.fideBlitz) then
      Success(NewFidePlayer(id, d.name, d.rating, d.phone, d.email, d.club, d.gender, d.dob,
                            d.federation, d.fideId, d.fideTitle, d.fideStandard, d.fideRapid, d.fideBlitz))
    else
      Success(NewPlayer(id, d.name, d.rating, d.phone, d.email, d.club, d.gender, d.dob, d.federation))
  }

  /** Python truthiness of a saved optional value. */
  predicate SavedInt(x: Option<Option<int>>) {
    x.Some? && Truthy(x.value)
  }

  predicate SavedText(x: Option<Option<string>>) {
    x.Some? && Filled(x.value)
  }

  /** `create_from_dict`: no name raises; FIDE data in the dictionary gives
      `FidePlayer.from_dict`, anything else `Player.from_dict` (which itself
      turns a saved FIDE id of zero into a FidePlayer). */
  function CreateFromDict(data: PlayerDict, freshId: string): (r: Option<Player>)
    ensures r.Some? <==> data.name.Some?
    ensures r.Some? ==> r.value.name == data.name.value
    ensures r.Some? ==>
              (r.value.fide.Some? <==>
                 SavedInt(data.fideId) || SavedText(data.fideTitle) || SavedInt(data.fideStandard)
                 || SavedInt(data.fideRapid) || SavedInt(data.fideBlitz)
                 || (data.fideId.Some? && data.fideId.value.Some?))
  {
    if data.name.None? then None
    else if SavedInt(data.fideId) || SavedText(data.fideTitle) || SavedInt(data.fideStandard)
            || SavedInt(data.fideRapid) || SavedInt(data.fideBlitz)
    then FideFromDict(data, freshId)
    else FromDict(data, freshId)
  }

  /** The named entries of a batch, in order. */
  function Named(data: seq<PlayerDict>): (r: seq<PlayerDict>)
    ensures |r| <= |data|
    ensures forall k :: 0 <= k < |r| ==> r[k].name.Some?
  {
    if data == [] then []
    else if data[0].name.Some? then [data[0]] + Named(data[1..])
    else Named(data[1..])
  }

  function Names(ps: seq<Player>): (r: seq<string>)
    ensures |r| == |ps|
  {
    if ps == [] then [] else [ps[0].name] + Names(ps[1..])
  }

  function DictNames(ds: seq<PlayerDict>): (r: seq<string>)
    requires forall k :: 0 <= k < |ds| ==> ds[k].name.Some?
    ensures |r| == |ds|
  {
    if ds == [] then [] else [ds[0].name.value] + DictNames(ds[1..])
  }

  /** `create_batch`: a strict factory stops at the first entry without a
      name; a lenient one skips those entries. `ids` are the generated ids,
      one per entry. */
  function CreateBatch(f: Factory, data: seq<PlayerDict>, ids: seq<string>): (r: Result<seq<Player>, Reason>)
    requires |ids| == |data|
    ensures r.Failure? <==> f.strict && |Named(data)| < |data|
    ensures r.Success? ==> |r.value| == |Named(data)| <= |data|
  {
    if data == [] then Success([])
    else
      var first := CreateFromDict(data[0], ids[0]);
      if first.None? && f.strict then Failure(Required)
      else
        var rest := CreateBatch(f, data[1..], ids[1..]);
        if rest.Failure? then rest
        else if first.Some? then Success([first.value] + rest.value)
        else rest
  }

  /** A lenient batch keeps the named entries' names in input order. */
  lemma {:induction false} BatchKeepsOrder(f: Factory, data: seq<PlayerDict>, ids: seq<string>)
    requires |ids| == |data| && !f.strict
    ensures CreateBatch(f, data, ids).Success?
    ensures Names(CreateBatch(f, data, ids).value) == DictNames(Named(data))
  {
    if data != [] {
      BatchKeepsOrder(f, data[1..], ids[1..]);
    }
  }
}
