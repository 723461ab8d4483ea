/** `POST /api/shares`: the older create-share handler. Compared with
    `POST /api/upload` it does not check the file name or emptiness, does
    not trim, caps nothing but the size, accepts any positive day count,
    lets framework and database errors reach its `catch`, and answers 201
    with the record's `id` and `createdAt` as well. */
module SharesIndexPost {
  import opened Wrappers
  import opened JsBuiltins
  import opened CivilTime
  import opened ApiResponse
  import opened Multipart
  import opened Validation
  import opened ShareTable
  import opened UploadPost

  /** The `data` of the 201 response: no content, no owner. */
  datatype CreatedData = CreatedData(id: string, shareId: string, expiresAt: Option<int>, createdAt: int)

  /** The expiry of the older handler: a missing, empty or `"permanent"`
      field is no expiry; otherwise `parseInt` must give a positive number
      of days, with no upper bound, and the expiry is that many days after
      `now`. */
  function LegacyExpiry(field: Option<string>, now: int): (r: Result<Option<int>, HttpError>)
    ensures field.None? || field.value == "" || field.value == "permanent" ==> r == Success(None)
    ensures r.Success? && r.value.Some? ==>
              field.Some? && ParseInt(field.value).Some? && ParseInt(field.value).value >= 1 &&
              r.value.value == now + ParseInt(field.value).value * MsPerDay
    ensures r.Failure? <==>
              field.Some? && field.value != "" && field.value != "permanent" &&
              (ParseInt(field.value).None? || ParseInt(field.value).value <= 0)
    ensures r.Failure? ==> r.error == ApiError(400, ValidationError, "Invalid expiry days value", None)
  {
    if field.Some? && field.value != "" && field.value != "permanent" then
      match ParseInt(field.value)
      case None => CreateApiError(400, ValidationError, "Invalid expiry days value", None)
      case Some(days) =>
        if days <= 0 then CreateApiError(400, ValidationError, "Invalid expiry days value", None)
        else Success(Some(AddDays(now, days)))
    else
      Success(None)
  }

  /** Any positive day count is accepted, a count past a year included,
      where `validateExpiryDays` stops at 365. */
  lemma {:induction false} LegacyExpiryHasNoCap(n: nat, now: int)
    requires n >= 1
    ensures LegacyExpiry(Some(DecimalString(n)), now) == Success(Some(now + n * MsPerDay))
    ensures n > 365 ==> ValidateExpiryDays(DecimalString(n)).Failure?
  {
    ParseIntOfRendered("", "", n, "");
    assert "" + "" + DecimalString(n) + "" == DecimalString(n);
    assert DecimalString(n) != "permanent" by {
      assert IsDecimalDigit(DecimalString(n)[0]);
    }
  }

  /** The checks before the insert, in order. Errors raised with
      `createApiError` are `Api`; a throw of `readMultipartFormData` is
      passed on as it is, to the handler's `catch`. */
  function PrepareLegacyShare(userId: Option<string>, form: FormRead, parse: JsonParser, now: int): (r: Result<NewShare, Thrown>)
    ensures MissingUserId(userId) ==> r == Failure(Api(ApiError(401, Unauthorized, "User ID is required", None)))
    ensures !MissingUserId(userId) && form.FormThrew? ==> r == Failure(form.error)
    ensures !MissingUserId(userId) && (form.NoForm? || (form.Form? && form.parts == [])) ==>
              r == Failure(Api(ApiError(400, ValidationError, "No file uploaded", None)))
    ensures !MissingUserId(userId) && form.Form? && form.parts != [] ==>
              var file := form.parts[0];
              && (file.data.None? ==> r == Failure(Api(ApiError(400, ValidationError, "File data is missing", None))))
              && (file.data.Some? && file.data.value.length > MaxFileBytes ==>
                    r == Failure(Api(ApiError(413, FileTooLarge, "File size exceeds 50MB limit", None))))
              && (file.data.Some? && file.data.value.length <= MaxFileBytes ==>
                    && (parse(file.data.value.text).Failure? ==>
                          r == Failure(Api(ApiError(400, InvalidJson, "Invalid JSON format", None))))
                    && (parse(file.data.value.text).Success? ==>
                          r == match LegacyExpiry(ExpiryField(form.parts), now)
                               case Failure(e) => Failure(Api(e))
                               case Success(expiresAt) =>
                                 Success(NewShare(parse(file.data.value.text).value, userId.value, expiresAt))))
  {
    if MissingUserId(userId) then
      Failure(Api(ApiError(401, Unauthorized, "User ID is required", None)))
    else
      match form
      case FormThrew(e) => Failure(e)
      case NoForm => Failure(Api(ApiError(400, ValidationError, "No file uploaded", None)))
      case Form(formData) =>
        if formData == [] then
          Failure(Api(ApiError(400, ValidationError, "No file uploaded", None)))
        else
          var file := formData[0];
          var expiryDays := ExpiryField(formData);
          if file.data.None? then
            Failure(Api(ApiError(400, ValidationError, "File data is missing", None)))
          else if file.data.value.length > 50 * 1024 * 1024 then
            Failure(Api(ApiError(413, FileTooLarge, "File size exceeds 50MB limit", None)))
          else
            match parse(file.data.value.text)
            case Failure(_) => Failure(Api(ApiError(400, InvalidJson, "Invalid JSON format", None)))
            case Success(jsonContent) =>
              match LegacyExpiry(expiryDays, now)
              case Failure(e) => Failure(Api(e))
              case Success(expiresAt) => Success(NewShare(jsonContent, userId.value, expiresAt))
  }

  /** Unlike `POST /api/upload`, the older handler never looks at the file
      name: a non-empty file with a non-`.json` name and parsable text is
      accepted here and refused there. */
  lemma LegacySkipsNameCheck(userId: string, name: Option<string>, filename: string, data: Buffer,
                             parse: JsonParser, serialisedLength: JsonValue -> Option<nat>, now: int)
    requires userId != "" && filename != "" && !HasJsonExtension(filename)
    requires name != Some("expiryDays")
    requires DecodesConsistently(data) && 0 < data.length <= MaxFileBytes
    requires parse(data.text).Success?
    ensures var form := Form([FormPart(name, Some(filename), Some(data))]);
            && PrepareLegacyShare(Some(userId), form, parse, now).Success?
            && PrepareUpload(Some(userId), form, parse, serialisedLength, now).Failure?
            && var e := PrepareUpload(Some(userId), form, parse, serialisedLength, now).error;
               IsApiError(e, 400, ValidationError) && e.data.error.message == "Only JSON files are allowed"
  {
    var part := FormPart(name, Some(filename), Some(data));
    assert [part][0] == part;
  }

  /** The older handler has no emptiness check either: an empty file reaches
      `JSON.parse`, which rejects the empty text, so the answer is 400
      INVALID_JSON "Invalid JSON format", where `POST /api/upload` answers
      400 VALIDATION_ERROR "Empty file is not allowed". */
  lemma LegacyEmptyFileIsInvalidJson(userId: string, name: Option<string>, filename: Option<string>,
                                     parse: JsonParser, serialisedLength: JsonValue -> Option<nat>, now: int)
    requires userId != "" && (filename.None? || filename.value == "" || HasJsonExtension(filename.value))
    requires RejectsEmptyText(parse)
    ensures var form := Form([FormPart(name, filename, Some(Buffer(0, "")))]);
            && PrepareLegacyShare(Some(userId), form, parse, now) ==
                 Failure(Api(ApiError(400, InvalidJson, "Invalid JSON format", None)))
            && PrepareUpload(Some(userId), form, parse, serialisedLength, now).Failure?
            && var e := PrepareUpload(Some(userId), form, parse, serialisedLength, now).error;
               IsApiError(e, 400, ValidationError) && e.data.error.message == "Empty file is not allowed"
  {
    var part := FormPart(name, filename, Some(Buffer(0, "")));
    assert [part][0] == part;
  }

  /** The handler's `catch`: an error with a status code is rethrown;
      anything else becomes 500 "Failed to create share" with the error's
      message as details. */
  function LegacyCatch(e: Thrown): (r: Thrown)
    ensures e.StatusCode() != 0 ==> r == e
    ensures e.StatusCode() == 0 ==>
              r == Api(ApiError(500, ServerError, "Failed to create share", Some(e.Message())))
    ensures r.StatusCode() != 0
  {
    if e.StatusCode() != 0 then e
    else Api(ApiError(500, ServerError, "Failed to create share", Some(e.Message())))
  }

  /** The `catch` settles: a second pass changes nothing. */
  lemma LegacyCatchSettles(e: Thrown)
    ensures LegacyCatch(LegacyCatch(e)) == LegacyCatch(e)
  {
  }

  /** How a failed insert reaches the `catch`: Prisma's errors carry a
      `code`, not a `statusCode`. */
  function InsertError(error: DbError): (r: Thrown)
    ensures r.StatusCode() == 0 && r.Message() == error.message
  {
    Foreign("PrismaClientKnownRequestError", error.message, 0)
  }

  /** The default handler of server/api/shares/index.post.ts. */
  method SharesIndexPost(store: ShareStore, userId: Option<string>, form: FormRead, parse: JsonParser,
                         now: int, outcome: InsertOutcome)
    returns (r: Result<Response<CreatedData>, Thrown>)
    requires store.Valid()
    modifies store
    ensures store.Valid()
    ensures r.Failure? ==> store.records == old(store.records)
    ensures PrepareLegacyShare(userId, form, parse, now).Failure? ==>
              r == Failure(LegacyCatch(PrepareLegacyShare(userId, form, parse, now).error))
    ensures PrepareLegacyShare(userId, form, parse, now).Success? && outcome.Generated? &&
            HasShareId(old(store.records), outcome.shareId) ==>
              r == Failure(Api(ApiError(500, ServerError, "Failed to create share", Some(DuplicateKeyMessage))))
    ensures PrepareLegacyShare(userId, form, parse, now).Success? && outcome.Rejected? ==>
              r == Failure(Api(ApiError(500, ServerError, "Failed to create share", Some(outcome.error.message))))
    ensures r.Success? <==>
              PrepareLegacyShare(userId, form, parse, now).Success? &&
              outcome.Generated? && !HasShareId(old(store.records), outcome.shareId)
    ensures r.Success? ==>
              var p := PrepareLegacyShare(userId, form, parse, now).value;
              && store.records == old(store.records) +
                   [ShareRecord(outcome.id, outcome.shareId, p.content, p.userId, p.expiresAt,
                                outcome.createdAt, outcome.createdAt)]
              && r.value == Response(201, ApiSuccess(true, CreatedData(outcome.id, outcome.shareId, p.expiresAt, outcome.createdAt),
                                                     Some("JSON share created successfully")))
    ensures r.Failure? ==> r.error.StatusCode() != 0
  {
    var prepared := PrepareLegacyShare(userId, form, parse, now);
    if prepared.Failure? {
      r := Failure(LegacyCatch(prepared.error));
      return;
    }
    var jsonShare := store.Create(prepared.value, outcome);
    if jsonShare.Failure? {
      r := Failure(LegacyCatch(InsertError(jsonShare.error)));
      return;
    }
    var created := CreatedData(jsonShare.value.id, jsonShare.value.shareId, jsonShare.value.expiresAt, jsonShare.value.createdAt);
    r := Success(Response(201, CreateApiSuccess(created, Some("JSON share created successfully"))));
  }
}
