/** The server's input validators. Each one either passes or "throws" the
    HTTP error `createApiError` builds; throwing is modelled as `Failure`. */
module Validation {
  import opened Wrappers
  import opened JsBuiltins
  import opened ApiResponse
  import opened Multipart

  /** 50 MiB, the largest accepted upload. */
  const MaxFileBytes: nat := 50 * 1024 * 1024

  /** 100 MiB, the largest accepted `JSON.stringify` length. */
  const MaxSerialisedLength: nat := 100 * 1024 * 1024

  // ---------------------------------------------------------------------------
  // Share ids

  predicate IsAsciiAlnum(c: char) {
    ('a' <= c <= 'z') || ('A' <= c <= 'Z') || ('0' <= c <= '9')
  }

  /** `/^[a-zA-Z0-9]+$/.test(s)`: one or more ASCII letters or digits and
      nothing else. */
  function MatchesAlnumRun(s: string): (r: bool)
    ensures r <==> s != [] && forall i :: 0 <= i < |s| ==> IsAsciiAlnum(s[i])
  {
    if s == [] then false
    else if |s| == 1 then IsAsciiAlnum(s[0])
    else IsAsciiAlnum(s[0]) && MatchesAlnumRun(s[1..])
  }

  /** An ASCII letter or digit is one UTF-16 code unit. */
  lemma AsciiAlnumLength(s: string)
    ensures (forall i :: 0 <= i < |s| ==> IsAsciiAlnum(s[i])) ==> Utf16Length(s) == |s|
  {
    if forall i :: 0 <= i < |s| ==> IsAsciiAlnum(s[i]) {
      assert forall i :: 0 <= i < |s| ==> !IsAstral(s[i]);
    }
  }

  /** `validateShareId`: a share id is 7 to 32 ASCII letters and digits.
      The length test counts UTF-16 code units, as `.length` does. */
  function ValidateShareId(shareId: string): (r: Result<(), HttpError>)
    ensures r.Success? <==> 7 <= |shareId| <= 32 && forall i :: 0 <= i < |shareId| ==> IsAsciiAlnum(shareId[i])
    ensures r.Failure? ==> IsApiError(r.error, 400, ValidationError)
  {
    AsciiAlnumLength(shareId);
    if shareId == "" then
      CreateApiError(400, ValidationError, "Invalid share ID", None)
    else if Utf16Length(shareId) < 7 || Utf16Length(shareId) > 32 then
      CreateApiError(400, ValidationError, "Share ID length is invalid", None)
    else if !MatchesAlnumRun(shareId) then
      CreateApiError(400, ValidationError, "Share ID contains invalid characters", None)
    else
      Success(())
  }

  /** The length check comes first: an id that is both too short or too long
      and badly formed is reported for its length; one of the right length
      is reported for its characters. Both rules measure in UTF-16 code
      units. */
  lemma ShareIdMessages(shareId: string)
    ensures shareId != "" && (Utf16Length(shareId) < 7 || Utf16Length(shareId) > 32) ==>
              ValidateShareId(shareId).error.data.error.message == "Share ID length is invalid"
    ensures 7 <= Utf16Length(shareId) <= 32 && (exists i :: 0 <= i < |shareId| && !IsAsciiAlnum(shareId[i])) ==>
              ValidateShareId(shareId).error.data.error.message == "Share ID contains invalid characters"
    ensures shareId == "" ==> ValidateShareId(shareId).error.data.error.message == "Invalid share ID"
  {
    var n := Utf16Length(shareId);
    if shareId == "" {
      assert ValidateShareId(shareId) == CreateApiError(400, ValidationError, "Invalid share ID", None);
    } else if n < 7 || n > 32 {
      assert ValidateShareId(shareId) == CreateApiError(400, ValidationError, "Share ID length is invalid", None);
    } else if exists i :: 0 <= i < |shareId| && !IsAsciiAlnum(shareId[i]) {
      assert !MatchesAlnumRun(shareId);
      assert ValidateShareId(shareId) == CreateApiError(400, ValidationError, "Share ID contains invalid characters", None);
    }
  }

  /** Thirty-one letters and digits followed by one astral character (an
      emoji, say) are 33 code units long, so such an id is reported for its
      length, not for its characters. */
  lemma AstralCharacterCountsTwice(s: string, c: char)
    requires |s| == 31 && forall i :: 0 <= i < |s| ==> IsAsciiAlnum(s[i])
    requires IsAstral(c)
    ensures Utf16Length(s + [c]) == 33
    ensures ValidateShareId(s + [c]).error.data.error.message == "Share ID length is invalid"
  {
    AsciiAlnumLength(s);
    Utf16LengthAppend(s, [c]);
    assert Utf16Length([c]) == 2;
    ShareIdMessages(s + [c]);
  }

  // ---------------------------------------------------------------------------
  // Expiry days

  /** `validateExpiryDays`: the empty string and `"permanent"` mean "never
      expires" (`None`); otherwise `parseInt` must give a whole number of
      days from 1 to 365. */
  function ValidateExpiryDays(expiryDays: string): (r: Result<Option<int>, HttpError>)
    ensures r.Success? && r.value.None? <==> expiryDays == "" || expiryDays == "permanent"
    ensures r.Success? && r.value.Some? ==>
              1 <= r.value.value <= 365 && ParseInt(expiryDays) == Some(r.value.value)
    ensures r.Failure? <==>
              expiryDays != "" && expiryDays != "permanent" &&
              (ParseInt(expiryDays).None? || ParseInt(expiryDays).value <= 0 || ParseInt(expiryDays).value > 365)
    ensures r.Failure? ==> IsApiError(r.error, 400, ValidationError)
  {
    if expiryDays == "" || expiryDays == "permanent" then
      Success(None)
    else
      match ParseInt(expiryDays)
      case None => CreateApiError(400, ValidationError, "Expiry days must be between 1 and 365", None)
      case Some(days) =>
        if days <= 0 || days > 365 then
          CreateApiError(400, ValidationError, "Expiry days must be between 1 and 365", None)
        else
          Success(Some(days))
  }

  /** Every day count the upload form offers, written in decimal, is
      accepted as itself. */
  lemma ExpiryDaysAcceptsEveryDayCount(n: nat)
    requires 1 <= n <= 365
    ensures ValidateExpiryDays(DecimalString(n)) == Success(Some(n))
  {
    var s := DecimalString(n);
    DecimalIsNoKeyword(n);
    DecimalReadsBack(n);
    var r := ValidateExpiryDays(s);
    assert !r.Failure? && !(r.Success? && r.value.None?);
  }

  /** A rendered natural is neither empty nor "permanent". */
  lemma DecimalIsNoKeyword(n: nat)
    ensures DecimalString(n) != "" && DecimalString(n) != "permanent"
  {
    assert IsDecimalDigit(DecimalString(n)[0]);
  }

  /** `parseInt` reads a rendered natural back. */
  lemma DecimalReadsBack(n: nat)
    ensures ParseInt(DecimalString(n)) == Some(n as int)
  {
    ParseIntOfRendered("", "", n, "");
    assert "" + "" + DecimalString(n) + "" == DecimalString(n);
  }

  /** A number outside 1..365, written with optional leading white space,
      an optional sign and any tail that does not continue it, is refused:
      zero, negative counts and counts past a year alike. */
  lemma {:induction false} ExpiryDaysRejectsOutOfRange(blank: string, sign: string, n: nat, rest: string)
    requires IsBlank(blank)
    requires sign == "" || sign == "+" || sign == "-"
    requires rest == [] || !IsDecimalDigit(rest[0])
    requires n == 0 ==> rest == [] || (rest[0] != 'x' && rest[0] != 'X')
    requires sign == "-" || n == 0 || n > 365
    ensures ValidateExpiryDays(blank + sign + DecimalString(n) + rest).Failure?
  {
    var s := blank + sign + DecimalString(n) + rest;
    ParseIntOfRendered(blank, sign, n, rest);
    assert s[0] != 'p' by {
      if blank != [] {
        assert s[0] == blank[0];
      } else if sign != [] {
        assert s[0] == sign[0];
      } else {
        assert s[0] == DecimalString(n)[0];
      }
    }
  }

  /** The inputs the tests reject: a negative number, letters and a count
      past a year. */
  lemma ExpiryDaysRejectsNegative()
    ensures ValidateExpiryDays("-1").Failure?
  {
    ParseIntOfRendered("", "-", 1, "");
    assert DecimalString(1) == "1";
    assert "" + "-" + "1" + "" == "-1";
    assert ParseInt("-1") == Some(-1);
  }

  lemma ExpiryDaysRejectsLetters()
    ensures ValidateExpiryDays("abc").Failure?
  {
    ParseIntWithoutDigits("abc");
  }

  lemma ExpiryDaysRejectsOverAYear()
    ensures ValidateExpiryDays("366").Failure?
  {
    assert DecimalString(3) == "3";
    assert DecimalString(36) == "36";
    assert DecimalString(366) == "366";
    ParseIntOfRendered("", "", 366, "");
    assert "" + "" + "366" + "" == "366";
    assert ParseInt("366") == Some(366);
  }

  // ---------------------------------------------------------------------------
  // File uploads

  /** `file.filename && !file.filename.toLowerCase().endsWith('.json')`. */
  predicate HasForeignFilename(file: FormPart) {
    file.filename.Some? && file.filename.value != "" && !HasJsonExtension(file.filename.value)
  }

  /** `validateFileUpload`. Its checks run in this order and the first one
      that fails decides the error: data missing, a file name that is not
      `.json`, no bytes, more than 50 MiB. */
  function ValidateFileUpload(file: Option<FormPart>): (r: Result<(), HttpError>)
    ensures r.Success? <==>
              file.Some? && file.value.data.Some? && !HasForeignFilename(file.value) &&
              0 < file.value.data.value.length <= MaxFileBytes
    ensures file.None? || file.value.data.None? ==>
              IsApiError(r.error, 400, ValidationError) && r.error.data.error.message == "File data is missing"
    ensures file.Some? && file.value.data.Some? && HasForeignFilename(file.value) ==>
              IsApiError(r.error, 400, ValidationError) && r.error.data.error.message == "Only JSON files are allowed"
    ensures file.Some? && file.value.data.Some? && !HasForeignFilename(file.value) && file.value.data.value.length == 0 ==>
              IsApiError(r.error, 400, ValidationError) && r.error.data.error.message == "Empty file is not allowed"
    ensures file.Some? && file.value.data.Some? && !HasForeignFilename(file.value) && file.value.data.value.length > MaxFileBytes ==>
              IsApiError(r.error, 413, FileTooLarge)
  {
    if file.None? || file.value.data.None? then
      CreateApiError(400, ValidationError, "File data is missing", None)
    else if HasForeignFilename(file.value) then
      CreateApiError(400, ValidationError, "Only JSON files are allowed", None)
    else if file.value.data.value.length == 0 then
      CreateApiError(400, ValidationError, "Empty file is not allowed", None)
    else if file.value.data.value.length > MaxFileBytes then
      CreateApiError(413, FileTooLarge, "File size exceeds 50MB limit", None)
    else
      Success(())
  }

  /** Exactly 50 MiB is accepted; one byte more is refused with 413. */
  lemma FileSizeBoundary(name: Option<string>, filename: string, text: string)
    requires HasJsonExtension(filename)
    ensures ValidateFileUpload(Some(FormPart(name, Some(filename), Some(Buffer(52_428_800, text))))).Success?
    ensures IsApiError(ValidateFileUpload(Some(FormPart(name, Some(filename), Some(Buffer(52_428_801, text))))).error,
                       413, FileTooLarge)
  {
  }

  // ---------------------------------------------------------------------------
  // JSON content

  /** The body of the `try` in `validateJsonContent`: `JSON.stringify` (its
      length, `None` when it throws or gives `undefined`), then the 100 MiB
      check, which throws the 413. */
  function SerialisedSizeCheck(serialisedLength: Option<nat>): (r: Result<(), Thrown>)
    ensures r.Success? <==> serialisedLength.Some? && serialisedLength.value <= MaxSerialisedLength
    ensures serialisedLength.Some? && serialisedLength.value > MaxSerialisedLength ==>
              r.error.Api? && IsApiError(r.error.err, 413, FileTooLarge)
  {
    match serialisedLength
    case None => Failure(Foreign("TypeError", "JSON.stringify gave no string", 0))
    case Some(n) =>
      if n > MaxSerialisedLength then
        Failure(Api(ApiError(413, FileTooLarge, "JSON content too large after processing", None)))
      else
        Success(())
  }

  /** `validateJsonContent`: `null` and `undefined` are refused; so is a
      value whose serialisation fails or is over 100 MiB, and because the
      413 of the size check is thrown inside the `try` its own `catch`
      replaces it, so every refusal is 400 INVALID_JSON. */
  function ValidateJsonContent(content: Option<JsonValue>, serialisedLength: Option<nat>): (r: Result<(), HttpError>)
    ensures r.Success? <==>
              content.Some? && !content.value.JNull? &&
              serialisedLength.Some? && serialisedLength.value <= MaxSerialisedLength
    ensures r.Failure? ==> IsApiError(r.error, 400, InvalidJson)
  {
    if content.None? || content.value.JNull? then
      CreateApiError(400, InvalidJson, "JSON content cannot be null or undefined", None)
    else
      match SerialisedSizeCheck(serialisedLength)
      case Failure(_) => CreateApiError(400, InvalidJson, "Invalid JSON structure", None)
      case Success(_) => Success(())
  }

  /** The oversized case: the size check throws 413 FILE_TOO_LARGE, and what
      leaves the validator is 400 INVALID_JSON "Invalid JSON structure". */
  lemma OversizedJsonIsReportedAsInvalid(content: JsonValue, n: nat)
    requires !content.JNull? && n > MaxSerialisedLength
    ensures SerialisedSizeCheck(Some(n)).error.err.statusCode == 413
    ensures ValidateJsonContent(Some(content), Some(n)).error.statusCode == 400
    ensures ValidateJsonContent(Some(content), Some(n)).error.data.error ==
              ErrorBody(CodeName(InvalidJson), "Invalid JSON structure", None)
  {
  }
}
