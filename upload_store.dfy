/** The upload page store: the chosen file, the expiry choice, the upload
    flag and progress, and the share the upload produced. The file's bytes
    (as read by `FileReader`) and the upload request's outcome are
    arguments; the delayed reset of the progress bar is not modelled. */
module UploadStore {
  import opened Wrappers
  import opened JsBuiltins
  import opened Multipart
  import opened Validation
  import opened UploadPost

  /** What the store needs of a browser `File`. */
  datatype ClientFile = ClientFile(name: string, size: nat)

  /** `ShareResult`: the `data` of a successful upload response. */
  datatype ShareResult = ShareResult(shareId: string, expiresAt: Option<string>)

  const BytesPerMegabyte: nat := 1024 * 1024

  /** Files over 5 MB are read and checked before they are sent. */
  const LargeFileBytes: nat := 5 * 1024 * 1024

  // ---------------------------------------------------------------------------
  // The size message: `(size / (1024 * 1024)).toFixed(2)`

  /** The size in hundredths of a megabyte, rounded to nearest with ties
      upward, as `toFixed(2)` picks it (the quotient is exact: the divisor
      is a power of two). */
  function HundredthsOfMegabyte(size: nat): (n: nat)
    ensures n * BytesPerMegabyte <= 100 * size + BytesPerMegabyte / 2 < (n + 1) * BytesPerMegabyte
  {
    (100 * size + BytesPerMegabyte / 2) / BytesPerMegabyte
  }

  /** A natural in hundredths, written with two decimals: the digits
      before the point read back as the whole part, the two after it as the
      hundredths. */
  function FixedTwo(n: nat): (r: string)
    ensures |r| >= 4 && r[|r| - 3] == '.'
    ensures DigitsValue(r[..|r| - 3], 10) == n / 100
    ensures DigitValue(r[|r| - 2]) * 10 + DigitValue(r[|r| - 1]) == n % 100
  {
    var whole := DecimalString(n / 100);
    DecimalStringValue(n / 100);
    var r := whole + ['.', DecimalDigit(n % 100 / 10), DecimalDigit(n % 10)];
    assert r[..|r| - 3] == whole;
    r
  }

  /** The message of the size check. */
  function SizeMessage(size: nat): string {
    "文件大小 " + FixedTwo(HundredthsOfMegabyte(size)) + "MB 超过限制 50MB"
  }

  // ---------------------------------------------------------------------------
  // The checks before the upload starts

  /** `expiryDays && expiryDays !== 'permanent'`, then `parseInt` in 1..365. */
  predicate ExpiryChoiceAccepted(expiryDays: string) {
    expiryDays == "" || expiryDays == "permanent" ||
    (ParseInt(expiryDays).Some? && 1 <= ParseInt(expiryDays).value <= 365)
  }

  /** The checks at the top of `uploadFile`, in order: a file is chosen, its
      name ends `.json` in any case, it is at most 50 MB, it is not empty,
      and the expiry choice is valid. The first one that fails decides the
      message. */
  function UploadPreCheck(file: Option<ClientFile>, expiryDays: string): (r: Result<(), string>)
    ensures r.Success? <==>
              file.Some? && HasJsonExtension(file.value.name) && 0 < file.value.size <= MaxFileBytes &&
              ExpiryChoiceAccepted(expiryDays)
    ensures file.None? ==> r == Failure("请选择要上传的文件")
    ensures file.Some? && !HasJsonExtension(file.value.name) ==> r == Failure("只支持JSON文件格式")
    ensures file.Some? && HasJsonExtension(file.value.name) && file.value.size > MaxFileBytes ==>
              r == Failure(SizeMessage(file.value.size))
    ensures file.Some? && HasJsonExtension(file.value.name) && file.value.size == 0 ==>
              r == Failure("不能上传空文件")
    ensures (file.Some? && HasJsonExtension(file.value.name) && 0 < file.value.size <= MaxFileBytes &&
             !ExpiryChoiceAccepted(expiryDays)) ==> r == Failure("有效期设置错误")
  {
    if file.None? then Failure("请选择要上传的文件")
    else if !HasJsonExtension(file.value.name) then Failure("只支持JSON文件格式")
    else if file.value.size > 50 * BytesPerMegabyte then Failure(SizeMessage(file.value.size))
    else if file.value.size == 0 then Failure("不能上传空文件")
    else if expiryDays != "" && expiryDays != "permanent" then
      match ParseInt(expiryDays)
      case None => Failure("有效期设置错误")
      case Some(days) =>
        if days <= 0 || days > 365 then Failure("有效期设置错误") else Success(())
    else
      Success(())
  }

  /** The client accepts exactly the expiry choices the server's
      `validateExpiryDays` accepts, and what it sends (`expiryDays` as a
      form field) then passes the upload handler's expiry step. */
  lemma ExpiryChoiceMatchesServer(expiryDays: string, now: int)
    ensures ExpiryChoiceAccepted(expiryDays) <==> ValidateExpiryDays(expiryDays).Success?
    ensures ExpiryChoiceAccepted(expiryDays) ==> ExpiryStep(Some(expiryDays), now).Success?
  {
  }

  /** A file that passes the client's checks passes `validateFileUpload`
      once it arrives as the `file` part of the form. */
  lemma PreCheckImpliesServerFileCheck(file: ClientFile, expiryDays: string, text: string)
    requires UploadPreCheck(Some(file), expiryDays).Success?
    ensures ValidateFileUpload(Some(FormPart(Some("file"), Some(file.name), Some(Buffer(file.size, text))))).Success?
  {
  }

  /** The store starts with the expiry choice "1", which the checks accept. */
  lemma DefaultExpiryIsAccepted()
    ensures ExpiryChoiceAccepted("1")
  {
    ExpiryDaysAcceptsEveryDayCount(1);
    assert DecimalString(1) == "1";
    ExpiryChoiceMatchesServer("1", 0);
  }

  /** The size message for one byte over the limit. */
  lemma SizeMessageJustOverTheLimit()
    ensures SizeMessage(MaxFileBytes + 1) == "文件大小 50.00MB 超过限制 50MB"
  {
    assert HundredthsOfMegabyte(MaxFileBytes + 1) == 5000;
    assert 5000 / 100 == 50 && 5000 % 100 / 10 == 0 && 5000 % 10 == 0;
    assert DecimalString(5) == "5";
    assert DecimalString(50) == "50";
    assert FixedTwo(5000) == "50.00";
  }

  // ---------------------------------------------------------------------------
  // `validateJsonFile`

  /** The content rule of `validateJsonFile`: the reader's own failure is
      passed on; empty or white-space-only text, a syntax error and a text
      that parses to `null` are refused, each with its message. */
  function ValidateJsonText(read: Result<string, string>, parse: JsonParser): (r: Result<(), string>)
    ensures read.Failure? ==> r == Failure(read.error)
    ensures read.Success? && IsBlank(read.value) ==> r == Failure("文件内容为空")
    ensures read.Success? && !IsBlank(read.value) && parse(read.value).Failure? ==>
              r == Failure("JSON格式错误: " + parse(read.value).error)
    ensures read.Success? && !IsBlank(read.value) && parse(read.value) == Success(JNull) ==>
              r == Failure("JSON内容不能为空")
    ensures r.Success? <==>
              read.Success? && !IsBlank(read.value) && parse(read.value).Success? && parse(read.value).value != JNull
  {
    match read
    case Failure(message) => Failure(message)
    case Success(content) =>
      TrimEmptyIffBlank(content);
      if content == "" || Trim(content) == [] then Failure("文件内容为空")
      else
        match parse(content)
        case Failure(message) => Failure("JSON格式错误: " + message)
        case Success(parsed) =>
          if parsed == JNull then Failure("JSON内容不能为空") else Success(())
  }

  /** The client's content rule agrees with the upload handler's: text it
      accepts is text the handler parses to a non-`null` value, and the
      other way round. */
  lemma ContentRuleMatchesServer(text: string, parse: JsonParser, serialisedLength: nat)
    requires serialisedLength <= MaxSerialisedLength
    ensures ValidateJsonText(Success(text), parse).Success? <==>
              ParseStep(text, parse).Success? && ParseStep(text, parse).value != JNull
    ensures ValidateJsonText(Success(text), parse).Success? ==>
              ValidateJsonContent(Some(ParseStep(text, parse).value), Some(serialisedLength)).Success?
  {
  }

  /** Every failure of `validateJsonFile` has a message, so the
      `if (error.message)` of the `catch` only falls back for a request
      failure without one. */
  function UploadFailureMessage(message: string): (r: string)
    ensures r != ""
    ensures message != "" ==> r == message
  {
    if message != "" then message else "上传失败，请稍后重试"
  }

  /** `shareUrl`: "" with no share; otherwise `/share/<id>`, after the
      page's origin in a browser. */
  function ShareUrl(shareResult: Option<ShareResult>, origin: Option<string>): (url: string)
    ensures shareResult.None? ==> url == ""
    ensures shareResult.Some? ==> EndsWith(url, "/share/" + shareResult.value.shareId)
    ensures shareResult.Some? && origin.Some? ==> |origin.value| <= |url| && url[..|origin.value|] == origin.value
    ensures shareResult.Some? && origin.None? ==> url == "/share/" + shareResult.value.shareId
  {
    match shareResult
    case None => ""
    case Some(result) =>
      var path := "/share/" + result.shareId;
      if origin.Some? then
        assert (origin.value + path)[|origin.value|..] == path;
        origin.value + path
      else
        path
  }

  class UploadStore {
    var selectedFile: Option<ClientFile>
    var expiryDays: string
    var uploading: bool
    var uploadProgress: int
    var shareResult: Option<ShareResult>

    constructor ()
      ensures selectedFile.None? && expiryDays == "1" && !uploading && uploadProgress == 0 && shareResult.None?
    {
      selectedFile := None;
      expiryDays := "1";
      uploading := false;
      uploadProgress := 0;
      shareResult := None;
    }

    method SetSelectedFile(file: Option<ClientFile>)
      modifies this
      ensures selectedFile == file
      ensures expiryDays == old(expiryDays) && uploading == old(uploading)
      ensures uploadProgress == old(uploadProgress) && shareResult == old(shareResult)
    {
      selectedFile := file;
    }

    method SetExpiryDays(days: string)
      modifies this
      ensures expiryDays == days
      ensures selectedFile == old(selectedFile) && uploading == old(uploading)
      ensures uploadProgress == old(uploadProgress) && shareResult == old(shareResult)
    {
      expiryDays := days;
    }

    method SetUploading(status: bool)
      modifies this
      ensures uploading == status
      ensures selectedFile == old(selectedFile) && expiryDays == old(expiryDays)
      ensures uploadProgress == old(uploadProgress) && shareResult == old(shareResult)
    {
      uploading := status;
    }

    method SetUploadProgress(progress: int)
      modifies this
      ensures uploadProgress == progress
      ensures selectedFile == old(selectedFile) && expiryDays == old(expiryDays)
      ensures uploading == old(uploading) && shareResult == old(shareResult)
    {
      uploadProgress := progress;
    }

    method SetShareResult(result: Option<ShareResult>)
      modifies this
      ensures shareResult == result
      ensures selectedFile == old(selectedFile) && expiryDays == old(expiryDays)
      ensures uploading == old(uploading) && uploadProgress == old(uploadProgress)
    {
      shareResult := result;
    }

    /** `uploadFile`. A failed pre-check changes nothing. Otherwise the
        upload runs with the progress at 0, a file over 5 MB is read and
        checked first (progress 10, then 20), the request is made at 30, and
        a successful one records its share at 100. Whatever happens after
        the pre-checks, `uploading` ends false and the chosen file and
        expiry are kept. */
    method UploadFile(fileRead: Result<string, string>, parse: JsonParser, transport: Result<ShareResult, string>)
      returns (r: Result<ShareResult, string>)
      modifies this
      ensures var pre := UploadPreCheck(old(selectedFile), old(expiryDays));
              pre.Failure? ==>
                r == Failure(pre.error) && uploading == old(uploading) && uploadProgress == old(uploadProgress) &&
                shareResult == old(shareResult)
      ensures UploadPreCheck(old(selectedFile), old(expiryDays)).Success? ==> !uploading
      ensures selectedFile == old(selectedFile) && expiryDays == old(expiryDays)
      ensures var pre := UploadPreCheck(old(selectedFile), old(expiryDays));
              pre.Success? && old(selectedFile).value.size > LargeFileBytes &&
              ValidateJsonText(fileRead, parse).Failure? ==>
                r == Failure("文件验证失败: " + ValidateJsonText(fileRead, parse).error) &&
                uploadProgress == 10 && shareResult == old(shareResult)
      ensures var pre := UploadPreCheck(old(selectedFile), old(expiryDays));
              pre.Success? && (old(selectedFile).value.size <= LargeFileBytes || ValidateJsonText(fileRead, parse).Success?) ==>
                && (transport.Failure? ==>
                      r == Failure(UploadFailureMessage(transport.error)) && uploadProgress == 30 &&
                      shareResult == old(shareResult))
                && (transport.Success? ==>
                      r == transport && uploadProgress == 100 && shareResult == Some(transport.value))
    {
      var pre := UploadPreCheck(selectedFile, expiryDays);
      if pre.Failure? {
        return pre.PropagateFailure();
      }
      var file := selectedFile.value;
      SetUploading(true);
      SetUploadProgress(0);
      if file.size > LargeFileBytes {
        SetUploadProgress(10);
        var validation := ValidateJsonText(fileRead, parse);
        if validation.Failure? {
          r := Failure(UploadFailureMessage("文件验证失败: " + validation.error));
          SetUploading(false);
          return;
        }
        SetUploadProgress(20);
      }
      SetUploadProgress(30);
      match transport {
        case Failure(message) =>
          r := Failure(UploadFailureMessage(message));
        case Success(response) =>
          SetUploadProgress(100);
          SetShareResult(Some(ShareResult(response.shareId, response.expiresAt)));
          r := Success(response);
      }
      SetUploading(false);
    }

    /** `reset`: back to no file, no share, the expiry choice "1" and no
        progress; `uploading` is left as it is. */
    method Reset()
      modifies this
      ensures selectedFile.None? && shareResult.None? && expiryDays == "1" && uploadProgress == 0
      ensures uploading == old(uploading)
    {
      selectedFile := None;
      shareResult := None;
      expiryDays := "1";
      uploadProgress := 0;
    }
  }
}
