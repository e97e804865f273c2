/** Input validators of utils/validation.py: each returns a ValidationResult
    (valid or not, an error reason, a sanitised value); the strict variants
    raise where the plain call reports invalid. Error texts are reduced to a
    reason code. */
module Validation {
  import opened Wrappers
  import opened Text

  datatype Reason =
    | Required | InvalidFormat | InvalidCharacters | WrongLength
    | OutOfRange | NotANumber | NotPositive | TooShort | Empty

  datatype ValidationResult = ValidationResult(isValid: bool, error: Option<Reason>, sanitized: Option<string>)
  {
    /** `ValidationResult.__bool__`: truthiness is validity. */
    predicate Truthy() {
      isValid
    }
  }

  function Valid(sanitized: Option<string>): ValidationResult {
    ValidationResult(true, None, sanitized)
  }

  function Invalid(reason: Reason): ValidationResult {
    ValidationResult(false, Some(reason), None)
  }

  /** Python `not s or not s.strip()` on an optional string. */
  predicate Missing(s: Option<string>) {
    s.None? || Blank(s.value)
  }

  // ------------------------------------------------------------------ email

  predicate LocalChar(c: char) {
    IsLetter(c) || IsDigit(c) || c == '.' || c == '_' || c == '%' || c == '+' || c == '-'
  }

  predicate DomainChar(c: char) {
    IsLetter(c) || IsDigit(c) || c == '.' || c == '-'
  }

  /** What the pattern `^[a-zA-Z0-9._%+-]+@[a-zA-Z0-9.-]+\.[a-zA-Z]{2,}$`
      accepts: a local part, '@' at `i`, a domain, '.' at `j`, and a top-level
      domain of two or more letters. */
  ghost predicate EmailShape(s: string, i: int, j: int) {
    0 < i && i + 1 < j && j + 2 < |s|
    && s[i] == '@' && s[j] == '.'
    && (forall k :: 0 <= k < i ==> LocalChar(s[k]))
    && (forall k :: i < k < j ==> DomainChar(s[k]))
    && (forall k :: j < k < |s| ==> IsLetter(s[k]))
  }

  ghost predicate EmailPattern(s: string) {
    exists i, j :: EmailShape(s, i, j)
  }

  function IndexOf(s: string, c: char): (r: Option<nat>)
    ensures r.Some? ==> r.value < |s| && s[r.value] == c
    ensures r.Some? ==> forall k :: 0 <= k < r.value ==> s[k] != c
    ensures r.None? ==> forall k :: 0 <= k < |s| ==> s[k] != c
  {
    if |s| == 0 then None
    else if s[0] == c then Some(0)
    else match IndexOf(s[1..], c)
      case None => None
      case Some(k) => Some(k + 1)
  }

  function LastIndexOf(s: string, c: char): (r: Option<nat>)
    ensures r.Some? ==> r.value < |s| && s[r.value] == c
    ensures r.Some? ==> forall k :: r.value < k < |s| ==> s[k] != c
    ensures r.None? ==> forall k :: 0 <= k < |s| ==> s[k] != c
  {
    if |s| == 0 then None
    else if s[|s| - 1] == c then Some(|s| - 1)
    else LastIndexOf(s[..|s| - 1], c)
  }

  /** A direct matcher for the email pattern: the first '@' splits the
      address, the last '.' splits off the top-level domain. */
  predicate EmailMatches(s: string) {
    match IndexOf(s, '@')
    case None => false
    case Some(i) =>
      match LastIndexOf(s, '.')
      case None => false
      case Some(j) =>
        0 < i && i + 1 < j && j + 2 < |s|
        && (forall k :: 0 <= k < i ==> LocalChar(s[k]))
        && (forall k :: i < k < j ==> DomainChar(s[k]))
        && (forall k :: j < k < |s| ==> IsLetter(s[k]))
  }

  /** The matcher accepts exactly the strings the pattern describes. */
  lemma EmailMatchesPattern(s: string)
    ensures EmailMatches(s) <==> EmailPattern(s)
  {
    if EmailPattern(s) {
      var i, j :| EmailShape(s, i, j);
      var fi := IndexOf(s, '@');
      assert fi == Some(i);
      var lj := LastIndexOf(s, '.');
      assert lj == Some(j);
    }
    if EmailMatches(s) {
      var i := IndexOf(s, '@').value;
      var j := LastIndexOf(s, '.').value;
      assert EmailShape(s, i, j);
    }
  }

  /** utils/validation.py `validate_email`. */
  function ValidateEmail(email: Option<string>, required: bool): (r: ValidationResult)
    ensures r.isValid <==> (Missing(email) && !required) || (!Missing(email) && EmailPattern(Strip(email.value)))
    ensures r.isValid && !Missing(email) ==> r.sanitized == Some(Strip(email.value))
    ensures r.isValid && Missing(email) ==> r.sanitized.None?
    ensures !r.isValid ==> r.error.Some?
  {
    if Missing(email) then
      if required then Invalid(Required) else Valid(None)
    else
      var e := Strip(email.value);
      EmailMatchesPattern(e);
      if EmailMatches(e) then Valid(Some(e)) else Invalid(InvalidFormat)
  }

  /** utils/validation.py `validate_email_strict`: raises exactly when the
      required validation fails. */
  function ValidateEmailStrict(email: string): (r: Result<(), Reason>)
    ensures r.Failure? <==> !ValidateEmail(Some(email), true).isValid
    ensures r.Failure? && Blank(email) ==> r.error == Required
  {
    var v := ValidateEmail(Some(email), true);
    if v.isValid then Success(()) else Failure(v.error.GetOr(InvalidFormat))
  }

  // ------------------------------------------------------------------ phone

  predicate PhoneFormatChar(c: char) {
    IsSpace(c) || c == '-' || c == '.' || c == '(' || c == ')' || c == '+'
  }

  /** `re.sub(r"[\s\-\.\(\)\+]", "", s)`. */
  function RemoveFormatting(s: string): (r: string)
    ensures |r| <= |s|
    ensures forall k :: 0 <= k < |r| ==> !PhoneFormatChar(r[k])
    ensures (forall k :: 0 <= k < |s| ==> !PhoneFormatChar(s[k])) ==> r == s
  {
    if |s| == 0 then ""
    else (if PhoneFormatChar(s[0]) then "" else [s[0]]) + RemoveFormatting(s[1..])
  }

  predicate AllDigits(s: string) {
    |s| > 0 && forall k :: 0 <= k < |s| ==> IsDigit(s[k])
  }

  /** utils/validation.py `validate_phone`: formatting characters are
      dropped, and what is left must be 10 to 15 digits. */
  function ValidatePhone(phone: Option<string>, required: bool): (r: ValidationResult)
    ensures Missing(phone) ==> r.isValid == !required && r.sanitized.None?
    ensures !Missing(phone) ==>
      (r.isValid <==> AllDigits(RemoveFormatting(Strip(phone.value)))
                      && 10 <= |RemoveFormatting(Strip(phone.value))| <= 15)
    ensures r.isValid && r.sanitized.Some? ==>
      AllDigits(r.sanitized.value) && 10 <= |r.sanitized.value| <= 15
  {
    if Missing(phone) then
      if required then Invalid(Required) else Valid(None)
    else
      var d := RemoveFormatting(Strip(phone.value));
      if !AllDigits(d) then Invalid(InvalidCharacters)
      else if |d| < 10 || |d| > 15 then Invalid(WrongLength)
      else Valid(Some(d))
  }

  /** A sanitised phone number validates to itself. */
  lemma PhoneSanitisedIsStable(phone: Option<string>, required: bool)
    requires ValidatePhone(phone, required).sanitized.Some?
    ensures ValidatePhone(ValidatePhone(phone, required).sanitized, required)
              == ValidatePhone(phone, required)
  {
    var d := ValidatePhone(phone, required).sanitized.value;
    StripOfTrimmed(d);
    assert Strip(d) == d;
    assert RemoveFormatting(d) == d;
  }

  /** utils/validation.py `validate_phone_strict`: the digits, or a raise
      exactly when the required validation fails. */
  function ValidatePhoneStrict(phone: string): (r: Result<string, Reason>)
    ensures r.Failure? <==> !ValidatePhone(Some(phone), true).isValid
    ensures r.Success? ==> AllDigits(r.value) && 10 <= |r.value| <= 15
  {
    var v := ValidatePhone(Some(phone), true);
    if !v.isValid then Failure(v.error.GetOr(InvalidCharacters))
    else Success(v.sanitized.GetOr(""))
  }

  // ----------------------------------------------------------------- rating

  /** utils/validation.py `validate_rating`: no rating is valid, otherwise
      the rating must lie in [min, max]. */
  function ValidateRating(rating: Option<int>, min: int, max: int): (r: ValidationResult)
    ensures r.isValid <==> rating.None? || min <= rating.value <= max
    ensures r.isValid && rating.Some? ==> r.sanitized == Some(IntToString(rating.value))
  {
    if rating.None? then Valid(None)
    else if rating.value < min || rating.value > max then Invalid(OutOfRange)
    else Valid(Some(IntToString(rating.value)))
  }

  /** utils/validation.py `validate_rating_strict` (defaults 0 and 3000 are
      the caller's): the rating, 0 for none, or a raise when out of range. */
  function ValidateRatingStrict(rating: Option<int>, min: int, max: int): (r: Result<int, Reason>)
    ensures r.Failure? <==> !ValidateRating(rating, min, max).isValid
    ensures r.Success? ==> r.value == rating.GetOr(0)
  {
    var v := ValidateRating(rating, min, max);
    if !v.isValid then Failure(OutOfRange)
    else
      match v.sanitized
      case None => Success(0)
      case Some(t) =>
        ParseIntOfIntToString(rating.value);
        Success(ParseInt(t).GetOr(0))
  }

  // ---------------------------------------------------------------- FIDE id

  /** utils/validation.py `validate_fide_id`: a positive integer, sanitised
      to its canonical decimal form. */
  function ValidateFideId(fideId: Option<string>, required: bool): (r: ValidationResult)
    ensures Missing(fideId) ==> r.isValid == !required && r.sanitized.None?
    ensures !Missing(fideId) ==>
      (r.isValid <==> ParseInt(fideId.value).Some? && ParseInt(fideId.value).value > 0)
    ensures r.isValid && !Missing(fideId) ==>
      r.sanitized == Some(IntToString(ParseInt(fideId.value).value))
  {
    if Missing(fideId) then
      if required then Invalid(Required) else Valid(None)
    else
      StripIdempotent(fideId.value);
      match ParseInt(Strip(fideId.value))
      case None => Invalid(NotANumber)
      case Some(n) => if n <= 0 then Invalid(NotPositive) else Valid(Some(IntToString(n)))
  }

  /** The sanitised FIDE id reads back as the same number. */
  lemma FideIdSanitisedRoundTrip(fideId: string)
    requires ValidateFideId(Some(fideId), false).isValid && !Blank(fideId)
    ensures ParseInt(ValidateFideId(Some(fideId), false).sanitized.value)
              == ParseInt(fideId)
  {
    ParseIntOfIntToString(ParseInt(fideId).value);
  }

  // ------------------------------------------------------------------- name

  predicate NameChar(c: char) {
    IsLetter(c) || IsSpace(c) || c == '-' || c == '\'' || c == '.'
  }

  /** utils/validation.py `validate_name`: at least two characters after
      stripping, all letters, whitespace, hyphens, apostrophes or dots. */
  function ValidateName(name: Option<string>, required: bool): (r: ValidationResult)
    ensures Missing(name) ==> r.isValid == !required
    ensures !Missing(name) ==>
      (r.isValid <==> |Strip(name.value)| >= 2
                      && forall k :: 0 <= k < |Strip(name.value)| ==> NameChar(Strip(name.value)[k]))
    ensures r.isValid && !Missing(name) ==> r.sanitized == Some(Strip(name.value))
  {
    if Missing(name) then
      if required then Invalid(Required) else Valid(None)
    else
      var n := Strip(name.value);
      if |n| < 2 then Invalid(TooShort)
      else if exists k :: 0 <= k < |n| && !NameChar(n[k]) then Invalid(InvalidCharacters)
      else Valid(Some(n))
  }

  /** A sanitised name validates to itself. */
  lemma NameSanitisedIsStable(name: string)
    requires ValidateName(Some(name), true).isValid
    ensures ValidateName(ValidateName(Some(name), true).sanitized, true) == ValidateName(Some(name), true)
  {
    StripIdempotent(name);
  }

  // --------------------------------------------------------------- generic

  /** utils/validation.py `validate_non_empty`. */
  function ValidateNonEmpty(value: Option<string>): (r: ValidationResult)
    ensures r.isValid <==> !Missing(value)
    ensures r.isValid ==> r.sanitized == Some(Strip(value.value)) && |r.sanitized.value| > 0
  {
    if Missing(value) then Invalid(Empty) else Valid(Some(Strip(value.value)))
  }

  /** utils/validation.py `validate_positive_integer`. */
  function ValidatePositiveInteger(value: Option<int>): (r: ValidationResult)
    ensures r.isValid <==> value.Some? && value.value > 0
    ensures r.isValid ==> r.sanitized.Some? && ParseInt(r.sanitized.value) == value
  {
    if value.None? then Invalid(Required)
    else if value.value <= 0 then Invalid(NotPositive)
    else
      ParseIntOfIntToString(value.value);
      Valid(Some(IntToString(value.value)))
  }

  /** utils/validation.py `validate_score`: exactly 0.0, 0.5 and 1.0. */
  function ValidateScore(score: real): (r: ValidationResult)
    ensures r.isValid <==> score == 0.0 || score == 0.5 || score == 1.0
  {
    if score == 0.0 then Valid(Some("0.0"))
    else if score == 0.5 then Valid(Some("0.5"))
    else if score == 1.0 then Valid(Some("1.0"))
    else Invalid(OutOfRange)
  }
}
