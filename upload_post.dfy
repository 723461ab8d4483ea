/** `POST /api/upload`: the handler that creates a share. The owner header, the
    multipart form, the `JSON.parse` and `JSON.stringify` results, the clock
    and the database's answer are inputs. The checks run in order and each
    one's failure is the handler's answer; only when all pass is one record
    inserted, and the answer names its share id and expiry. */
module UploadPost {
  import opened Wrappers
  import opened JsBuiltins
  import opened CivilTime
  import opened ApiResponse
  import opened Multipart
  import opened Validation
  import opened ShareTable

  /** The `data` of the success response: no content, no owner. */
  datatype UploadData = UploadData(shareId: string, expiresAt: Option<int>)

  /** Reading the form: a throw becomes "Invalid multipart form data", no
      form or no parts "No file uploaded"; otherwise the parts. */
  function FormStep(form: FormRead): (r: Result<seq<FormPart>, HttpError>)
    ensures form.FormThrew? ==> r == Failure(ApiError(400, ValidationError, "Invalid multipart form data", None))
    ensures form.NoForm? || (form.Form? && form.parts == []) ==>
              r == Failure(ApiError(400, ValidationError, "No file uploaded", None))
    ensures r.Success? <==> form.Form? && form.parts != []
    ensures r.Success? ==> r.value == form.parts
  {
    match form
    case FormThrew(_) => CreateApiError(400, ValidationError, "Invalid multipart form data", None)
    case NoForm => CreateApiError(400, ValidationError, "No file uploaded", None)
    case Form(parts) =>
      if parts == [] then CreateApiError(400, ValidationError, "No file uploaded", None)
      else Success(parts)
  }

  /** `` `JSON parsing failed: ${parseError.message || 'Invalid JSON format'}` ``. */
  function ParseFailureMessage(message: string): (r: string)
    ensures message != "" ==> r == "JSON parsing failed: " + message
    ensures message == "" ==> r == "JSON parsing failed: Invalid JSON format"
  {
    "JSON parsing failed: " + (if message == "" then "Invalid JSON format" else message)
  }

  /** The parse `try`: text that trims to nothing throws "File contains no
      valid content" and a syntax error throws its own message; the `catch`
      turns either into 400 INVALID_JSON "JSON parsing failed: ...". */
  function ParseStep(fileContent: string, parse: JsonParser): (r: Result<JsonValue, HttpError>)
    ensures IsBlank(fileContent) ==>
              r == Failure(ApiError(400, InvalidJson, "JSON parsing failed: File contains no valid content", None))
    ensures !IsBlank(fileContent) && parse(fileContent).Failure? ==>
              r == Failure(ApiError(400, InvalidJson, ParseFailureMessage(parse(fileContent).error), None))
    ensures r.Success? <==> !IsBlank(fileContent) && parse(fileContent).Success?
    ensures r.Success? ==> r.value == parse(fileContent).value
  {
    TrimEmptyIffBlank(fileContent);
    if Trim(fileContent) == [] then
      var thrown := ApiError(400, InvalidJson, "File contains no valid content", None);
      BlankMessage();
      CreateApiError(400, InvalidJson, ParseFailureMessage(thrown.message), None)
    else
      match parse(fileContent)
      case Failure(message) => CreateApiError(400, InvalidJson, ParseFailureMessage(message), None)
      case Success(v) => Success(v)
  }

  lemma BlankMessage()
    ensures ParseFailureMessage("File contains no valid content") == "JSON parsing failed: File contains no valid content"
  {
  }

  /** `expiryDays || 'permanent'`. */
  function ExpiryInput(field: Option<string>): (r: string)
    ensures field.None? || field.value == "" ==> r == "permanent"
    ensures field.Some? && field.value != "" ==> r == field.value
  {
    if field.None? || field.value == "" then "permanent" else field.value
  }

  /** The expiry: `validateExpiryDays(expiryDays || 'permanent')`, then
      `now` moved on by the validated number of days. A missing, empty or
      `"permanent"` field is no expiry. */
  function ExpiryStep(field: Option<string>, now: int): (r: Result<Option<int>, HttpError>)
    ensures r.Failure? <==> ValidateExpiryDays(ExpiryInput(field)).Failure?
    ensures r.Failure? ==> r.error == ValidateExpiryDays(ExpiryInput(field)).error
    ensures field.None? || field.value == "" || field.value == "permanent" ==> r == Success(None)
    ensures r.Success? && r.value.Some? ==>
              exists days :: 1 <= days <= 365 && ValidateExpiryDays(ExpiryInput(field)) == Success(Some(days)) &&
                             r.value.value == now + days * MsPerDay
    ensures r.Success? && r.value.None? ==> ValidateExpiryDays(ExpiryInput(field)) == Success(None)
  {
    match ValidateExpiryDays(ExpiryInput(field))
    case Failure(e) => Failure(e)
    case Success(validatedDays) =>
      if validatedDays.Some? then Success(Some(AddDays(now, validatedDays.value)))
      else Success(None)
  }

  /** Everything the handler does before the insert, in its order: owner,
      form, file, parse, content, expiry. */
  function PrepareUpload(userId: Option<string>, form: FormRead, parse: JsonParser,
                         serialisedLength: JsonValue -> Option<nat>, now: int): (r: Result<NewShare, HttpError>)
    ensures MissingUserId(userId) ==> r == Failure(ApiError(401, Unauthorized, "User ID is required", None))
    ensures r.Success? ==> !MissingUserId(userId) && r.value.userId == userId.value
    ensures !MissingUserId(userId) && FormStep(form).Failure? ==> r == Failure(FormStep(form).error)
    ensures !MissingUserId(userId) && FormStep(form).Success? ==>
              var file := form.parts[0];
              && (ValidateFileUpload(Some(file)).Failure? ==> r == Failure(ValidateFileUpload(Some(file)).error))
              && (ValidateFileUpload(Some(file)).Success? ==>
                    var parsed := ParseStep(file.data.value.text, parse);
                    && (parsed.Failure? ==> r == Failure(parsed.error))
                    && (parsed.Success? ==>
                          var content := ValidateJsonContent(Some(parsed.value), serialisedLength(parsed.value));
                          && (content.Failure? ==> r == Failure(content.error))
                          && (content.Success? ==>
                                r == match ExpiryStep(ExpiryField(form.parts), now)
                                     case Failure(e) => Failure(e)
                                     case Success(expiresAt) => Success(NewShare(parsed.value, userId.value, expiresAt)))))
  {
    if MissingUserId(userId) then
      CreateApiError(401, Unauthorized, "User ID is required", None)
    else
      var formData :- FormStep(form);
      var file := formData[0];
      var expiryDays := ExpiryField(formData);
      var _ :- ValidateFileUpload(Some(file));
      var jsonContent :- ParseStep(file.data.value.text, parse);
      var _ :- ValidateJsonContent(Some(jsonContent), serialisedLength(jsonContent));
      var expiresAt :- ExpiryStep(expiryDays, now);
      Success(NewShare(jsonContent, userId.value, expiresAt))
  }

  /** Every error before the insert is a 4xx, and an INVALID_JSON error is
      always a 400, never a 413. */
  lemma PrepareUploadFailsWithClientErrors(userId: Option<string>, form: FormRead, parse: JsonParser,
                                           serialisedLength: JsonValue -> Option<nat>, now: int)
    ensures var r := PrepareUpload(userId, form, parse, serialisedLength, now);
            r.Failure? ==>
              400 <= r.error.statusCode <= 413 &&
              (r.error.data.error.code == CodeName(InvalidJson) ==> r.error.statusCode == 400)
  {
    var r := PrepareUpload(userId, form, parse, serialisedLength, now);
    if !MissingUserId(userId) && FormStep(form).Success? {
      var file := form.parts[0];
      if ValidateFileUpload(Some(file)).Success? {
        var parsed := ParseStep(file.data.value.text, parse);
        if parsed.Success? {
          var content := ValidateJsonContent(Some(parsed.value), serialisedLength(parsed.value));
          if content.Success? {
            assert r.Failure? ==> r.error == ExpiryStep(ExpiryField(form.parts), now).error;
          }
        }
      }
    }
  }

  /** The default handler of server/api/upload.post.ts. The outer `catch`
      rethrows every error the steps raise, since each carries a status
      code (`UploadCatchSettles`). */
  method UploadPost(store: ShareStore, userId: Option<string>, form: FormRead, parse: JsonParser,
                    serialisedLength: JsonValue -> Option<nat>, now: int, outcome: InsertOutcome)
    returns (r: Result<Response<UploadData>, HttpError>)
    requires store.Valid()
    modifies store
    ensures store.Valid()
    ensures r.Failure? ==> store.records == old(store.records)
    ensures PrepareUpload(userId, form, parse, serialisedLength, now).Failure? ==>
              r == Failure(PrepareUpload(userId, form, parse, serialisedLength, now).error)
    ensures PrepareUpload(userId, form, parse, serialisedLength, now).Success? && outcome.Generated? &&
            HasShareId(old(store.records), outcome.shareId) ==>
              r == Failure(ApiError(409, ServerError, "Duplicate share ID generated, please try again", None))
    ensures PrepareUpload(userId, form, parse, serialisedLength, now).Success? && outcome.Rejected? ==>
              r == Failure(if outcome.error.code == DuplicateKeyCode
                           then ApiError(409, ServerError, "Duplicate share ID generated, please try again", None)
                           else ApiError(500, ServerError, "Database operation failed", None))
    ensures r.Success? <==>
              PrepareUpload(userId, form, parse, serialisedLength, now).Success? &&
              outcome.Generated? && !HasShareId(old(store.records), outcome.shareId)
    ensures r.Success? ==>
              var p := PrepareUpload(userId, form, parse, serialisedLength, now).value;
              && store.records == old(store.records) +
                   [ShareRecord(outcome.id, outcome.shareId, p.content, p.userId, p.expiresAt,
                                outcome.createdAt, outcome.createdAt)]
              && r.value == Response(200, ApiSuccess(true, UploadData(outcome.shareId, p.expiresAt),
                                                     Some("JSON file uploaded successfully")))
  {
    var prepared := PrepareUpload(userId, form, parse, serialisedLength, now);
    if prepared.Failure? {
      r := Failure(prepared.error);
      return;
    }
    var p := prepared.value;

    var jsonShare := store.Create(p, outcome);
    if jsonShare.Failure? {
      if jsonShare.error.code == DuplicateKeyCode {
        r := CreateApiError(409, ServerError, "Duplicate share ID generated, please try again", None);
      } else {
        r := CreateApiError(500, ServerError, "Database operation failed", None);
      }
      return;
    }

    r := Success(Response(200, CreateApiSuccess(UploadData(jsonShare.value.shareId, jsonShare.value.expiresAt),
                                                Some("JSON file uploaded successfully"))));
  }

  /** A file whose text is only white space is refused as INVALID_JSON with
      the rewrapped message, whatever the parser would have said. */
  lemma BlankFileIsInvalidJson(userId: string, parts: seq<FormPart>, parse: JsonParser,
                               serialisedLength: JsonValue -> Option<nat>, now: int)
    requires userId != "" && parts != []
    requires ValidateFileUpload(Some(parts[0])).Success?
    requires IsBlank(parts[0].data.value.text)
    ensures PrepareUpload(Some(userId), Form(parts), parse, serialisedLength, now) ==
              Failure(ApiError(400, InvalidJson, "JSON parsing failed: File contains no valid content", None))
  {
  }

  /** With no `expiryDays` part, or `"permanent"`, the share is permanent;
      with a day count the form offers (`"7"` is `DecimalString(7)`) it
      expires exactly that many days after `now`. */
  lemma ExpiryOfTheForm(now: int, n: nat)
    requires 1 <= n <= 365
    ensures ExpiryStep(None, now) == Success(None)
    ensures ExpiryStep(Some("permanent"), now) == Success(None)
    ensures ExpiryStep(Some(DecimalString(n)), now) == Success(Some(now + n * MsPerDay))
  {
    var field := Some(DecimalString(n));
    ExpiryDaysAcceptsEveryDayCount(n);
    assert ExpiryInput(field) == DecimalString(n);
    assert ValidateExpiryDays(ExpiryInput(field)) == Success(Some(n as int));
  }

  /** The handler's outer `catch`: an error that already has a status code
      is rethrown as it is; otherwise a payload-too-large or timeout error
      gets its own status, and anything else is a 500 whose details carry
      the error's message only in development. */
  function UploadCatch(e: Thrown, development: bool): (r: Thrown)
    ensures e.StatusCode() != 0 ==> r == e
    ensures e.StatusCode() == 0 && e.Foreign? && e.name == "PayloadTooLargeError" ==>
              r == Api(ApiError(413, FileTooLarge, "Request payload too large", None))
    ensures e.StatusCode() == 0 && e.Foreign? && e.name == "TimeoutError" ==>
              r == Api(ApiError(408, ServerError, "Request timeout", None))
    ensures e.StatusCode() == 0 && !(e.Foreign? && (e.name == "PayloadTooLargeError" || e.name == "TimeoutError")) ==>
              r == Api(ApiError(500, ServerError, "Failed to upload file",
                                if development then Some(e.Message()) else None))
    ensures r.StatusCode() != 0
  {
    if e.StatusCode() != 0 then e
    else if e.Foreign? && e.name == "PayloadTooLargeError" then
      Api(ApiError(413, FileTooLarge, "Request payload too large", None))
    else if e.Foreign? && e.name == "TimeoutError" then
      Api(ApiError(408, ServerError, "Request timeout", None))
    else
      Api(ApiError(500, ServerError, "Failed to upload file", if development then Some(e.Message()) else None))
  }

  /** Passing an error through the catch twice is passing it once, and
      every error the handler's own steps raise passes through unchanged. */
  lemma UploadCatchSettles(e: Thrown, development: bool, err: HttpError)
    requires err.statusCode != 0
    ensures UploadCatch(UploadCatch(e, development), development) == UploadCatch(e, development)
    ensures UploadCatch(Api(err), development) == Api(err)
  {
  }
}
