# json-share, modelled in Dafny

json-share is a small service for sharing JSON files. A browser keeps an
anonymous owner id in `localStorage` and sends it as the `X-User-ID` header.
The browser uploads a `.json` file with an expiry of 1 to 365 days or
"permanent" and gets back a short share id. Anyone can open the share by that
id, and an owner can list their active shares. This project models the
service's decision logic and proves properties of it:

- the server validators (share id, expiry days with JavaScript `parseInt`,
  file upload, JSON content);
- the API response envelope and its error-code table;
- the two create-share handlers (`POST /api/upload` and the older
  `POST /api/shares`) over a share table with a unique `shareId`;
- the owner listing (`GET /api/my-shares`);
- the three client stores (upload page, share page, "my shares" page);
- the owner-id helper.

The database, the HTTP framework, the browser and the clock are inputs:
- an insert's outcome (`InsertOutcome`);
- the multipart form as read (`FormRead`);
- `JSON.parse` as a function from text to a value or a syntax-error message;
- the serialised length of a value;
- the current time in UTC milliseconds;
- the result of a client request;
- the uuid the generator would give.

Time is UTC throughout, as the tests fix it (tests/setup.ts:30).
`setDate(getDate() + n)` is modelled through ECMAScript's day/month/year
functions and proved to add exactly `n` days of milliseconds, which is where
the month and leap-day rollovers the tests check come from.

Files, one module each:
- `wrappers.dfy`: `Option` and `Result`.
- `js_builtins.dfy`: the JavaScript built-ins the code relies on.
  - `trim`;
  - ASCII `toLowerCase` and `endsWith`;
  - `parseInt` with its prefix rules, including the `0x` prefix;
  - decimal rendering;
  - parsed JSON values and their truthiness.
- `civil_time.dfy`: UTC dates and `setDate`.
- `api_response.dfy`: `server/utils/apiResponse.ts`.
- `multipart.dfy`: form parts, the `X-User-ID` test and the `expiryDays` field.
- `validation.dfy`: `server/utils/validation.ts`.
- `share_table.dfy`: the `jsonShare` table as a class with a sequence of records.
- `upload_post.dfy`, `shares_index_post.dfy`, `my_shares_get.dfy`: the three handlers.
- Client stores:
  - `my_shares_store.dfy`: `stores/myShares.ts`;
  - `upload_store.dfy`: `stores/upload.ts`;
  - `share_store.dfy`: `stores/share.ts`.
- `use_user.dfy`: `composables/useUser.ts`.

Where the code and its documentation differ, the model follows the code. The
main case is in `validateJsonContent`. Its 413 for an over-100 MiB
serialisation is raised inside its own `try`, so the surrounding `catch`
turns it into 400 INVALID_JSON "Invalid JSON structure". The model keeps that
behaviour.

## Model

| member | source | states |
|---|---|---|
| ApiResponse.CreateApiSuccess | server/utils/apiResponse.ts:18-24 | the envelope has `success` true and carries exactly the given data and message |
| ApiResponse.ApiError | server/utils/apiResponse.ts:26-45 | the thrown error has the given status code and a body with `success` false and the given code, message and details; its own message is the body's message, or "Error" when that is empty, as in the test set-up (tests/setup.ts:22-27) |
| ApiResponse.CreateApiError | server/utils/apiResponse.ts:26-45 | never returns a value: the outcome is always the thrown error, with the given status and the body `{code, message, details}` unchanged |
| ApiResponse.ErrorCodeTable | server/utils/apiResponse.ts:48-57 | each of the eight keys maps to its own name, every key is the name of a code, and distinct codes have distinct names |
| JsBuiltins.TrimEmptyIffBlank | server/api/upload.post.ts:36 | `s.trim()` is empty exactly when `s` consists of white space only |
| JsBuiltins.Utf16Length | server/utils/validation.ts:24 | `s.length` counts UTF-16 code units: between one and two per character, and exactly one per character when none lies outside the Basic Multilingual Plane |
| JsBuiltins.Utf16LengthAppend | server/utils/validation.ts:24 | the `.length` of a concatenation is the sum of the lengths |
| JsBuiltins.JsonExtensionAccepts | server/utils/validation.ts:51 | the case-insensitive `.json` test accepts "data.json" and "DATA.JSON" |
| JsBuiltins.JsonExtensionRejects | server/utils/validation.ts:51 | the `.json` test rejects "data.txt" and "json" |
| JsBuiltins.ParseIntOfRendered | server/utils/validation.ts:38 | `parseInt` of leading white space, an optional sign, a decimal numeral and a tail that does not continue it gives the signed number |
| JsBuiltins.ParseIntWithoutDigits | server/utils/validation.ts:38-39 | a string that starts with no white space, sign or digit parses to NaN |
| JsBuiltins.ParseIntOfHexPrefix | server/utils/validation.ts:38 | without a radix, `parseInt` reads what follows a `0x` or `0X` prefix as hexadecimal digits, and gives NaN when no hexadecimal digit follows |
| CivilTime.SetDateAddsDays | server/api/upload.post.ts:52-53 | in UTC, `setDate(getDate() + n)` moves the time by exactly `n` days of milliseconds, whatever the month |
| CivilTime.AddDays | server/api/upload.post.ts:52-53 | the expiry computation gives `t + n * 86400000` |
| CivilTime.RolloverExamples | tests/utils/expiryValidation.test.ts:245-266 | one day after 2024-01-31 is 2024-02-01; after 2024-02-28 it is 2024-02-29; after 2024-02-29 it is 2024-03-01 |
| CivilTime.DateFromTimeOfTestDates | tests/utils/expiryValidation.test.ts:245-266 | `getDate` reads 31, 29 and 1 on those dates |
| CivilTime.DayNumbersOfTestDates | tests/utils/expiryValidation.test.ts:245-266 | the day numbers of the test dates, counted from 1970-01-01 |
| CivilTime.CivilReadingOfJanuary31 | tests/utils/expiryValidation.test.ts:247 | day 19753 reads as 2024-01-31 |
| CivilTime.CivilReadingOfLeapDay | tests/utils/expiryValidation.test.ts:255-259 | day 19782 reads as 2024-02-29 |
| CivilTime.CivilReadingOfMarch1 | tests/utils/expiryValidation.test.ts:261-265 | day 19783 reads as 2024-03-01 |
| Multipart.ExpiryField | server/api/upload.post.ts:27 | the field is the text of the first part named `expiryDays`, or absent when that part has no data or there is no such part |
| Validation.MatchesAlnumRun | server/utils/validation.ts:28 | `/^[a-zA-Z0-9]+$/` holds exactly for non-empty strings of ASCII letters and digits |
| Validation.ValidateShareId | server/utils/validation.ts:19-31 | accepts exactly the strings of length 7..32 made only of [A-Za-z0-9]; every refusal is 400 VALIDATION_ERROR |
| Validation.ShareIdMessages | server/utils/validation.ts:20-30 | the empty id gets "Invalid share ID"; a wrong length (in UTF-16 code units) is reported before bad characters; an id of the right length with a bad character gets the characters message |
| Validation.AstralCharacterCountsTwice | server/utils/validation.ts:24-26 | 31 letters and digits followed by one astral character are 33 code units long, so the id is reported for its length |
| Validation.ValidateExpiryDays | server/utils/validation.ts:33-44 | "" and "permanent" give no expiry; otherwise `parseInt` must be in 1..365 and is the result; NaN, values up to 0 and values over 365 are refused with 400 VALIDATION_ERROR (both directions) |
| Validation.ExpiryDaysAcceptsEveryDayCount | server/utils/validation.ts:38-43 | every day count 1..365 written in decimal is accepted as itself |
| Validation.ExpiryDaysRejectsOutOfRange | server/utils/validation.ts:39-41 | a negative number, 0 or a number over 365, with any leading blanks, sign and tail, is refused |
| Validation.ExpiryDaysRejectsNegative | server/utils/validation.ts:39-41 | "-1" is refused |
| Validation.ExpiryDaysRejectsLetters | server/utils/validation.ts:39-41 | "abc" is refused |
| Validation.ExpiryDaysRejectsOverAYear | server/utils/validation.ts:39-41 | "366" is refused |
| Validation.ValidateFileUpload | server/utils/validation.ts:46-62 | the checks run in a fixed order and the first failure decides the error: missing data 400; a non-`.json` name 400; an empty file 400; over 50 MiB 413 FILE_TOO_LARGE; success exactly when none applies |
| Validation.FileSizeBoundary | server/utils/validation.ts:59 | exactly 52,428,800 bytes pass; one byte more gives 413 |
| Validation.SerialisedSizeCheck | server/utils/validation.ts:9-13 | passes exactly when the serialisation exists and is at most 100 MiB; over that it raises 413 FILE_TOO_LARGE |
| Validation.ValidateJsonContent | server/utils/validation.ts:3-17 | passes exactly for a non-null value whose serialisation exists and is at most 100 MiB; every refusal, the caught 413 included, is 400 INVALID_JSON |
| Validation.OversizedJsonIsReportedAsInvalid | server/utils/validation.ts:11-16 | an oversized value raises 413 inside the `try` and leaves as 400 INVALID_JSON "Invalid JSON structure" |
| ShareTable.FindByShareId | tests/utils/expiryValidation.test.ts:168-226 | the lookup finds a record exactly when one has the share id, and what it finds is a record with that id |
| ShareTable.FindByShareIdIsTheRecord | tests/utils/expiryValidation.test.ts:169-190 | with unique share ids, looking up a record's id finds that very record |
| ShareTable.ExpiryInstantIsStillViewable | tests/utils/expiryValidation.test.ts:62-81 | a share is expired only once the time is strictly past its expiry; a permanent share never is |
| ShareTable.ShareStore.Create | server/api/upload.post.ts:59-65 | the insert succeeds exactly when the database generated its values and the share id is free; the new row holds the given content, owner and expiry; the table gains exactly that row; a taken id fails with P2002 and Prisma's unique-constraint message; a failed insert leaves the table unchanged; share ids stay unique |
| ShareTable.AppendFreshKeepsUnique | server/api/upload.post.ts:59-65 | appending a record with a fresh share id keeps the ids unique, and a lookup of that id finds the new record |
| UploadPost.FormStep | server/api/upload.post.ts:15-24 | an unreadable form is 400 "Invalid multipart form data"; no form or an empty one is 400 "No file uploaded"; otherwise the parts |
| UploadPost.ParseFailureMessage | server/api/upload.post.ts:41-42 | the message is "JSON parsing failed: " followed by the error's message, or by "Invalid JSON format" when the error has none |
| UploadPost.ParseStep | server/api/upload.post.ts:33-43 | white-space-only text is 400 INVALID_JSON "JSON parsing failed: File contains no valid content"; a syntax error is 400 INVALID_JSON with its message; otherwise the parsed value |
| UploadPost.BlankMessage | server/api/upload.post.ts:37-42 | the blank-file message, once rewrapped by the `catch`, reads "JSON parsing failed: File contains no valid content" |
| UploadPost.ExpiryInput | server/api/upload.post.ts:50 | a missing or empty field is read as "permanent" |
| UploadPost.ExpiryStep | server/api/upload.post.ts:49-54 | the expiry step fails exactly when `validateExpiryDays` does; a validated N gives `now + N` days; no field or "permanent" gives no expiry |
| UploadPost.ExpiryOfTheForm | server/api/upload.post.ts:49-54 | no field and "permanent" give no expiry; any offered day count `n` written in decimal (such as "7") gives exactly `n` days after `now` |
| UploadPost.PrepareUpload | server/api/upload.post.ts:9-54 | the checks run in order: owner 401 first, then form, file, parse, content, expiry; the first failure is the result; success carries the parsed content, the caller as owner and the computed expiry |
| UploadPost.PrepareUploadFailsWithClientErrors | server/api/upload.post.ts:9-54 | every error before the insert has a status from 400 to 413, and an INVALID_JSON error is always 400 |
| UploadPost.BlankFileIsInvalidJson | server/api/upload.post.ts:35-38 | an accepted file whose text is white space only is refused as 400 INVALID_JSON, whatever the parser would say |
| UploadPost.UploadPost | server/api/upload.post.ts:7-78 | any failure before the insert is returned and leaves the table unchanged; a duplicate share id gives 409 SERVER_ERROR; any other database error gives 500 "Database operation failed"; on success exactly one record is added and the 200 body holds only `shareId` and `expiresAt` |
| UploadPost.UploadCatch | server/api/upload.post.ts:79-97 | an error with a status code is rethrown unchanged; PayloadTooLargeError gives 413; TimeoutError gives 408; anything else gives 500 "Failed to upload file", with the message as details only in development; the result always has a status |
| UploadPost.UploadCatchSettles | server/api/upload.post.ts:81-83 | the `catch` passes the errors of the handler's own steps through, and applying it twice is applying it once |
| SharesIndexPost.LegacyExpiry | server/api/shares/index.post.ts:41-49 | no field, "" or "permanent" give no expiry; otherwise NaN or a value up to 0 is 400 "Invalid expiry days value"; any positive N gives `now + N` days |
| SharesIndexPost.LegacyExpiryHasNoCap | server/api/shares/index.post.ts:41-49 | any positive day count is accepted, including counts over 365, which `validateExpiryDays` refuses |
| SharesIndexPost.PrepareLegacyShare | server/api/shares/index.post.ts:8-49 | owner 401 first; a form-reader error passes through unchanged; no parts is 400 "No file uploaded"; missing data 400; over 50 MiB 413 FILE_TOO_LARGE; a parse failure 400 INVALID_JSON "Invalid JSON format"; then the expiry |
| SharesIndexPost.LegacySkipsNameCheck | server/api/shares/index.post.ts:20-38 | a non-empty file with a non-`.json` name and parsable text is accepted by this handler, while `POST /api/upload` refuses it with 400 "Only JSON files are allowed" |
| SharesIndexPost.LegacyEmptyFileIsInvalidJson | server/api/shares/index.post.ts:23-38 | an empty file reaches `JSON.parse`, which rejects the empty text, so this handler answers 400 INVALID_JSON "Invalid JSON format", where `POST /api/upload` answers 400 VALIDATION_ERROR "Empty file is not allowed" |
| SharesIndexPost.LegacyCatch | server/api/shares/index.post.ts:68-73 | an error with a status code is rethrown; anything else becomes 500 "Failed to create share" with the original message as details |
| SharesIndexPost.LegacyCatchSettles | server/api/shares/index.post.ts:68-73 | applying the `catch` twice is applying it once |
| SharesIndexPost.InsertError | server/api/shares/index.post.ts:52-58 | a failed insert reaches the `catch` with no status code and with the database's message |
| SharesIndexPost.SharesIndexPost | server/api/shares/index.post.ts:7-73 | failures before the insert go through the `catch` and leave the table unchanged; a database failure, a taken generated share id included, gives 500 "Failed to create share" with the database's message as details; on success exactly one record is added and the 201 body holds `id`, `shareId`, `expiresAt` and `createdAt` and no content; every failure has a status |
| MySharesGet.Summary | server/api/my-shares.get.ts:23-29 | a listed share keeps `id`, `shareId`, `expiresAt`, `createdAt` and `updatedAt` of its record |
| MySharesGet.Matching | server/api/my-shares.get.ts:16-22 | keeps exactly the caller's records that are permanent or expire strictly after `now`; nothing matching gives the empty list |
| MySharesGet.MatchingCounts | server/api/my-shares.get.ts:16-22 | every listed record is kept as many times as the table holds it, and every other record is dropped |
| MySharesGet.MatchingDistributes | server/api/my-shares.get.ts:16-22 | the filter keeps table order: filtering a concatenation concatenates the filtered parts |
| MySharesGet.Project | server/api/my-shares.get.ts:23-29 | the projection has one summary per record, position by position |
| MySharesGet.InsertNewestFirst | server/api/my-shares.get.ts:30-32 | inserting into a newest-first list keeps it newest first and adds exactly the one element |
| MySharesGet.SortNewestFirst | server/api/my-shares.get.ts:30-32 | the result is ordered by `createdAt` descending and is a permutation of the input |
| MySharesGet.MyShares | server/api/my-shares.get.ts:7-43 | a missing owner is 401; a failed query is 500 "Failed to retrieve shares" with its message; success carries the projected matches, newest first, as a permutation |
| MySharesGet.MySharesMembership | server/api/my-shares.get.ts:15-33 | a summary is listed exactly when it is the summary of one of the caller's permanent or not-yet-expired records |
| MySharesGet.NothingActiveIsAnEmptyList | server/api/my-shares.get.ts:35 | an owner with no active shares gets a success with an empty list (tests/api/shares.integration.test.ts:300-314) |
| MySharesGet.ExpiringNowIsHiddenButViewable | tests/utils/expiryValidation.test.ts:62-81 | a share expiring exactly now is left out of the list, while the viewing rule does not yet call it expired |
| MySharesStore.CaughtMessage | stores/myShares.ts:33 | an `Error` gives its own message; anything else gives the fallback |
| MySharesStore.WithoutShare | stores/myShares.ts:52 | keeps exactly the entries whose share id differs, and never lengthens the list |
| MySharesStore.WithoutShareDistributes | stores/myShares.ts:52 | the filter keeps order: filtering a concatenation concatenates the filtered parts |
| MySharesStore.WithoutShareKeepsOthers | stores/myShares.ts:52 | a list without that id is unchanged, and filtering twice is filtering once |
| MySharesStore.MySharesStore.FetchShares | stores/myShares.ts:17-38 | loading ends false; the error is cleared unless the request throws, in which case it holds the message or "Failed to fetch shares"; the list is replaced only by a successful answer |
| MySharesStore.MySharesStore.DeleteShare | stores/myShares.ts:40-61 | true exactly on a successful answer, and then the list is the old one without that share id; otherwise false with the list unchanged; a throw records the message or "Failed to delete share" |
| MySharesStore.IsExpiredIsTheViewingRule | stores/myShares.ts:74-77 | `isExpired` is false for a permanent share and otherwise `expiry < now`; it is the tests' viewing rule |
| MySharesStore.CeilDiv | stores/myShares.ts:87 | `Math.ceil(a / b)`: the least natural `q` with `q * b >= a` |
| MySharesStore.GetExpiryStatus | stores/myShares.ts:79-93 | permanent exactly when there is no expiry; expired exactly when the expiry is before now; "today" exactly when 0 < remaining <= one day; in d days only for d = 0 (expiry now) or 2..7, with d the rounded-up day count; the date exactly beyond seven days |
| MySharesStore.ExpiryLabel | stores/myShares.ts:80-92 | the fixed texts "永久有效", "已过期", "今天过期", "d天后过期", or the formatted date |
| MySharesStore.ExpiryStatusBoundaries | stores/myShares.ts:84-92 | seven days away is "7天后过期"; one millisecond more shows the date; the expiry instant is "0天后过期" and not expired; one millisecond away is "today" |
| UploadStore.HundredthsOfMegabyte | stores/upload.ts:56-60 | the size in hundredths of a megabyte, rounded to nearest with ties upward, as `toFixed(2)` rounds |
| UploadStore.FixedTwo | stores/upload.ts:60 | two decimals: the digits before the point read back as the whole part and the two after it as the hundredths |
| UploadStore.UploadPreCheck | stores/upload.ts:46-74 | the checks run in order (no file, not `.json`, over 50 MB with the size message, empty, bad expiry); the first failure decides the message; success exactly when none applies |
| UploadStore.ExpiryChoiceMatchesServer | stores/upload.ts:69-74 | the client accepts exactly the expiry choices `validateExpiryDays` accepts (server/utils/validation.ts:33-44), and an accepted choice passes the upload handler's expiry step |
| UploadStore.PreCheckImpliesServerFileCheck | stores/upload.ts:46-66 | a file the client accepts passes `validateFileUpload` when it arrives as the form's file part |
| UploadStore.DefaultExpiryIsAccepted | stores/upload.ts:12 | the initial expiry choice "1" passes the checks |
| UploadStore.SizeMessageJustOverTheLimit | stores/upload.ts:56-60 | one byte over 50 MB reads "文件大小 50.00MB 超过限制 50MB" |
| UploadStore.ValidateJsonText | stores/upload.ts:121-171 | a reader failure passes through; empty or white-space-only text is "文件内容为空"; a syntax error is "JSON格式错误: " plus its message; `null` is "JSON内容不能为空"; success exactly otherwise |
| UploadStore.ContentRuleMatchesServer | stores/upload.ts:130-153 | the client's content rule accepts a text exactly when the upload handler parses it to a non-null value (server/api/upload.post.ts:33-46) |
| UploadStore.UploadFailureMessage | stores/upload.ts:106-114 | an error with a message is rethrown as it is; one without gets "上传失败，请稍后重试" |
| UploadStore.ShareUrl | stores/upload.ts:17-23 | "" with no share; otherwise the URL ends with "/share/" and the share id, starting with the origin in a browser |
| UploadStore.UploadStore.SetSelectedFile | stores/upload.ts:25-27 | sets the file; nothing else changes |
| UploadStore.UploadStore.SetExpiryDays | stores/upload.ts:29-31 | sets the expiry choice; nothing else changes |
| UploadStore.UploadStore.SetUploading | stores/upload.ts:33-35 | sets the flag; nothing else changes |
| UploadStore.UploadStore.SetUploadProgress | stores/upload.ts:37-39 | sets the progress; nothing else changes |
| UploadStore.UploadStore.SetShareResult | stores/upload.ts:41-43 | sets the share; nothing else changes |
| UploadStore.UploadStore.UploadFile | stores/upload.ts:45-119 | a failed pre-check changes nothing; afterwards `uploading` is false; a failed check of a large file gives "文件验证失败: " plus its message at progress 10; a failed request gives its message at 30; success records the share at 100; the file and expiry choice are kept |
| UploadStore.UploadStore.Reset | stores/upload.ts:258-263 | no file, no share, expiry "1" and progress 0; `uploading` is left as it is |
| SharePageStore.ShareIdGuard | stores/share.ts:88-99 | an empty id is {400, "无效的分享链接"}; any other refused id is {400, "分享链接格式错误"}; an id passes exactly when it has length 7..32 and only [A-Za-z0-9] |
| SharePageStore.ShareIdGuardMatchesServer | stores/share.ts:95-99 | the page's guard lets an id through exactly when `validateShareId` accepts it (server/utils/validation.ts:19-31) |
| SharePageStore.LookupMemberMissing | stores/share.ts:118 | a member lookup finds nothing exactly when no member has the name |
| SharePageStore.LookupMemberFindsLast | stores/share.ts:118 | the value a member lookup finds is that of the last member with the name |
| SharePageStore.CheckResponse | stores/share.ts:113-120 | a missing or non-object response is 500 "服务器返回数据格式错误"; falsy `content` is 500 "分享内容丢失或损坏"; accepted exactly otherwise, as the same value |
| SharePageStore.FalsyContentIsLost | stores/share.ts:118-120 | a response object is accepted exactly when its `content` is truthy |
| SharePageStore.ShareViewStore.SetTreeView | stores/share.ts:22-24 | sets the view; nothing else changes |
| SharePageStore.ShareViewStore.ToggleView | stores/share.ts:26-28 | flips the view; nothing else changes |
| SharePageStore.ShareViewStore.SetShareData | stores/share.ts:30-32 | sets the share; nothing else changes |
| SharePageStore.ShareViewStore.SetLoading | stores/share.ts:34-36 | sets the flag; nothing else changes |
| SharePageStore.ShareViewStore.SetLoadingProgress | stores/share.ts:38-40 | sets the progress; nothing else changes |
| SharePageStore.ShareViewStore.SetError | stores/share.ts:42-44 | sets the error; nothing else changes |
| SharePageStore.ShareViewStore.FetchShareData | stores/share.ts:86-135 | a refused id records and returns the guard's error without touching loading, progress or the share; otherwise loading ends false; a failed request or a bad response becomes the error and leaves the share as it was; success stores the response, clears the error and reaches progress 100 |
| SharePageStore.ToggleTwice | stores/share.ts:26-28 | toggling twice restores the view and changes nothing else |
| SharePageStore.StatusMessage | stores/share.ts:228-243 | 400, 404, 408, 410, 500 and 0 get their fixed texts; any other code gets "❌ 加载失败，请稍后重试" |
| SharePageStore.GetErrorMessage | stores/share.ts:217-244 | no error is "❌ 未知错误"; a message is shown after "❌ "; otherwise the status text; every text starts with "❌ " or "⏰ " |
| SharePageStore.GuardErrorMessages | stores/share.ts:88-99 | the guard's errors are shown as "❌ 无效的分享链接" and "❌ 分享链接格式错误" |
| UseUser.KeyValueStorage.GetItem | composables/useUser.ts:11 | `getItem` finds a value exactly when the key is stored, and returns the stored value |
| UseUser.KeyValueStorage.SetItem | composables/useUser.ts:14 | stores the value under the key; nothing else changes |
| UseUser.GetUserId | composables/useUser.ts:6-17 | on the server "" and storage untouched; a stored non-empty id is returned with storage untouched; otherwise the fresh id is stored and returned |
| UseUser.HeadersFor | composables/useUser.ts:21 | the only header is `X-User-ID`, present exactly when the id is non-empty, and carrying that id |
| UseUser.GetUserHeaders | composables/useUser.ts:19-22 | on the server no headers; in the browser exactly `{X-User-ID: id}` for the id now stored |
| UseUser.ConsecutiveCalls | composables/useUser.ts:11-16 | two browser calls in a row return the same non-empty id, whatever ids the generator offers |

## Left out

- The outer `catch` of `POST /api/upload` is modelled by `UploadCatch`, but it is not composed into the result of `UploadPost`. Every error the modelled steps raise carries a status code and is rethrown unchanged (`UploadCatchSettles`). The PayloadTooLargeError and TimeoutError branches are reached only by framework errors, which this model does not produce.
- The database: Prisma, connections and generated ids are out of scope. An insert is an `InsertOutcome` input. Prisma's refusal of a JSON `null` content and its timestamp handling are not modelled.
- The HTTP framework: headers, multipart parsing and response status are inputs and outputs (`getHeader`, `readMultipartFormData`, `setResponseStatus`).
- `JSON.parse` and `JSON.stringify`: parsing is a function given as an argument, and serialisation is only its length. The message text of a syntax error is whatever that function returns.
- The "JSON解析失败" branch of the upload page's content rule (`stores/upload.ts:147-152`), taken for an error other than a `SyntaxError`, is not modelled, because `JSON.parse` of a string throws only `SyntaxError`.
- FileReader callbacks: the reader's errors (`onerror`, `onabort`, a failing `readAsText`) are a failed read result and their messages, not events.
- XMLHttpRequest and its progress formula (`stores/upload.ts:173-256`): the upload request is an outcome given as an argument. Progress during the transfer is therefore not modelled. The progress bar's reset to 0 one second later is a timer and is not modelled either.
- `fetchWithProgress` (`stores/share.ts:46-84`): its `$fetch` timeout, retry and `navigator.onLine` mapping are not modelled. The share page is given what it returned or threw. `$fetch` in `stores/myShares.ts` is likewise an outcome.
- Auth headers in store requests: the headers `getUserHeaders` supplies to those requests are not threaded through. `GetUserHeaders` is modelled on its own.
- Clipboard and download (`stores/share.ts:137-215`), `formattedJson` and `toLocaleString` date formatting: `formatDate` is a parameter of `ExpiryLabel`.
- `window.location.origin`: it is an optional argument of `ShareUrl`. The same helper in the "my shares" store (`getShareUrl`) is not modelled separately.
- Dates: times are integer UTC milliseconds. The client's ISO date strings are modelled by their instant. ECMAScript's date range limit and Invalid Date are not modelled, nor are time zones other than UTC.
- SharesIndexPost.LegacyExpiry: the older handler accepts any positive day count (`LegacyExpiryHasNoCap`). For a count of roughly 10^8 days or more, `setDate` leaves the ECMAScript date range and gives an Invalid Date, and the insert then fails. The model instead answers with the far-off instant, because the date range is not modelled.
- CivilTime.SetDateAddsDays: the lemma holds for any pair of day-number conversions. That `DaysFromCivil` and `CivilFromDays` are the Gregorian calendar and each other's inverse is shown only on the dates the tests use (`DayNumbersOfTestDates` and the `CivilReading` lemmas). It is not proved for every date, because the general proof would need the year-of-era recovery argument for all 400 years of an era.
- ApiResponse.ApiError: the `message` of the thrown error follows the test setup's `createError` mock (`tests/setup.ts:22-27`), which uses `data.error.message` and falls back to "Error". The framework's own `createError` is not part of this model. It is given no `message`, so under it that `message` may be empty.
- UploadPost.ParseStep: the blank-file answer "JSON parsing failed: File contains no valid content" (`BlankMessage`, `BlankFileIsInvalidJson`) depends on that mock. If the thrown error's `message` were empty, `server/api/upload.post.ts:41` would answer "JSON parsing failed: Invalid JSON format" instead.
- `toLowerCase`: only ASCII letters are folded; Unicode case mapping is not modelled.
- The client size check compares `size / 1048576` with 50 and with 5 as floating point numbers. The model compares the byte counts with 52,428,800 and 5,242,880, which is equivalent because the divisor is a power of two.
- Non-string share ids (the `typeof shareId !== 'string'` tests): ids are strings throughout.
- `server/api/share/[id].get.ts`, `server/api/shares/[id].get.ts` and `server/api/shares/[id].delete.ts` (viewing and deleting one share) are not part of this model. Only the tests' expiry rule (`ShareTable.IsShareExpired`) and their lookup by share id (`ShareTable.FindByShareId`) are modelled; the owner comparison before a delete is not.
- Concurrency: the handlers and stores are modelled one call at a time, with no interleaving of requests or of `await` points.
