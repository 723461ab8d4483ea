/** The share page store: which view is shown, the loaded share, the loading
    flag and progress, and the last error. The share request is an argument:
    what `fetchWithProgress` returned (`None` for `undefined`) or the
    `{ statusCode, message }` it threw. */
module SharePageStore {
  import opened Wrappers
  import opened JsBuiltins
  import opened Validation

  /** The `{ statusCode, message }` objects the store throws and keeps. */
  datatype ViewError = ViewError(statusCode: int, message: string)

  // ---------------------------------------------------------------------------
  // The share id guard

  /** The two checks at the top of `fetchShareData`: an empty id is an
      invalid link, a wrong length or a character outside [A-Za-z0-9] a
      malformed one; `None` lets the request go ahead. */
  function ShareIdGuard(shareId: string): (r: Option<ViewError>)
    ensures shareId == "" ==> r == Some(ViewError(400, "无效的分享链接"))
    ensures shareId != "" && r.Some? ==> r == Some(ViewError(400, "分享链接格式错误"))
    ensures r.None? <==> 7 <= |shareId| <= 32 && forall i :: 0 <= i < |shareId| ==> IsAsciiAlnum(shareId[i])
  {
    AsciiAlnumLength(shareId);
    if shareId == "" then Some(ViewError(400, "无效的分享链接"))
    else if Utf16Length(shareId) < 7 || Utf16Length(shareId) > 32 || !MatchesAlnumRun(shareId) then
      Some(ViewError(400, "分享链接格式错误"))
    else None
  }

  /** The page lets a share id through exactly when the server's
      `validateShareId` would accept it. */
  lemma ShareIdGuardMatchesServer(shareId: string)
    ensures ShareIdGuard(shareId).None? <==> ValidateShareId(shareId).Success?
  {
  }

  // ---------------------------------------------------------------------------
  // The response checks

  /** `response[key]` on a parsed object: the last member with that name,
      as `JSON.parse` keeps the last of repeated names. */
  function LookupMember(members: seq<(string, JsonValue)>, key: string): Option<JsonValue> {
    if members == [] then None
    else if members[|members| - 1].0 == key then Some(members[|members| - 1].1)
    else LookupMember(members[..|members| - 1], key)
  }

  /** A lookup finds nothing exactly when no member has the name. */
  lemma {:induction false} LookupMemberMissing(members: seq<(string, JsonValue)>, key: string)
    ensures LookupMember(members, key).None? <==> forall i :: 0 <= i < |members| ==> members[i].0 != key
  {
    if members != [] && members[|members| - 1].0 != key {
      var init := members[..|members| - 1];
      LookupMemberMissing(init, key);
      assert forall i :: 0 <= i < |init| ==> init[i] == members[i];
    }
  }

  /** The value a lookup finds is that of the last member with the name. */
  lemma {:induction false} LookupMemberFindsLast(members: seq<(string, JsonValue)>, key: string)
    ensures LookupMember(members, key).Some? ==>
              exists i :: 0 <= i < |members| && members[i] == (key, LookupMember(members, key).value) &&
                          forall j :: i < j < |members| ==> members[j].0 != key
  {
    if members != [] {
      var n := |members| - 1;
      if members[n].0 == key {
        assert members[n] == (key, LookupMember(members, key).value);
      } else {
        var init := members[..n];
        LookupMemberFindsLast(init, key);
        if LookupMember(init, key).Some? {
          var i :| 0 <= i < |init| && init[i] == (key, LookupMember(init, key).value) &&
                   forall j :: i < j < |init| ==> init[j].0 != key;
          assert forall j :: i < j < n ==> init[j] == members[j];
          assert members[i] == init[i];
        }
      }
    }
  }

  /** `typeof response === 'object'` for a response that is not `null`. */
  predicate IsObjectResponse(response: Option<JsonValue>) {
    response.Some? && (response.value.JObject? || response.value.JArray?)
  }

  /** `response.content` is truthy. */
  predicate HasContent(response: JsonValue) {
    response.JObject? && LookupMember(response.members, "content").Some? &&
    Truthy(LookupMember(response.members, "content").value)
  }

  /** The two checks on what the request returned: it must be an object,
      and its `content` truthy. */
  function CheckResponse(response: Option<JsonValue>): (r: Result<JsonValue, ViewError>)
    ensures !IsObjectResponse(response) ==> r == Failure(ViewError(500, "服务器返回数据格式错误"))
    ensures IsObjectResponse(response) && !HasContent(response.value) ==>
              r == Failure(ViewError(500, "分享内容丢失或损坏"))
    ensures r.Success? <==> IsObjectResponse(response) && HasContent(response.value)
    ensures r.Success? ==> r.value == response.value
  {
    if !IsObjectResponse(response) then Failure(ViewError(500, "服务器返回数据格式错误"))
    else if !HasContent(response.value) then Failure(ViewError(500, "分享内容丢失或损坏"))
    else Success(response.value)
  }

  /** An object whose `content` is `null`, `false`, `0` or `""` counts as
      lost content; any array or object as content is accepted. */
  lemma FalsyContentIsLost(content: JsonValue, createdAt: string)
    ensures var response := JObject([("content", content), ("createdAt", JString(createdAt))]);
            CheckResponse(Some(response)).Success? <==> Truthy(content)
  {
    var members := [("content", content), ("createdAt", JString(createdAt))];
    assert members[..1] == [("content", content)];
    assert LookupMember(members, "content") == Some(content);
  }

  class ShareViewStore {
    var isTreeView: bool
    var shareData: Option<JsonValue>
    var loading: bool
    var loadingProgress: int
    var error: Option<ViewError>

    constructor ()
      ensures isTreeView && shareData.None? && !loading && loadingProgress == 0 && error.None?
    {
      isTreeView := true;
      shareData := None;
      loading := false;
      loadingProgress := 0;
      error := None;
    }

    method SetTreeView(view: bool)
      modifies this
      ensures isTreeView == view
      ensures shareData == old(shareData) && loading == old(loading)
      ensures loadingProgress == old(loadingProgress) && error == old(error)
    {
      isTreeView := view;
    }

    /** `toggleView`: the other view; nothing else changes. */
    method ToggleView()
      modifies this
      ensures isTreeView == !old(isTreeView)
      ensures shareData == old(shareData) && loading == old(loading)
      ensures loadingProgress == old(loadingProgress) && error == old(error)
    {
      isTreeView := !isTreeView;
    }

    method SetShareData(data: Option<JsonValue>)
      modifies this
      ensures shareData == data
      ensures isTreeView == old(isTreeView) && loading == old(loading)
      ensures loadingProgress == old(loadingProgress) && error == old(error)
    {
      shareData := data;
    }

    method SetLoading(status: bool)
      modifies this
      ensures loading == status
      ensures isTreeView == old(isTreeView) && shareData == old(shareData)
      ensures loadingProgress == old(loadingProgress) && error == old(error)
    {
      loading := status;
    }

    method SetLoadingProgress(progress: int)
      modifies this
      ensures loadingProgress == progress
      ensures isTreeView == old(isTreeView) && shareData == old(shareData)
      ensures loading == old(loading) && error == old(error)
    {
      loadingProgress := progress;
    }

    method SetError(err: Option<ViewError>)
      modifies this
      ensures error == err
      ensures isTreeView == old(isTreeView) && shareData == old(shareData)
      ensures loading == old(loading) && loadingProgress == old(loadingProgress)
    {
      error := err;
    }

    /** `fetchShareData`. An id the guard refuses records that error and
        touches nothing else. Otherwise the load runs (error cleared,
        progress 0 then 20); a failed request, a non-object or lost content
        becomes the error (progress 20, 70 and 70), while a good response is
        stored as the share (progress 100). `loading` ends false either
        way, and the view choice is kept. */
    method FetchShareData(shareId: string, fetched: Result<Option<JsonValue>, ViewError>)
      returns (r: Result<JsonValue, ViewError>)
      modifies this
      ensures isTreeView == old(isTreeView)
      ensures ShareIdGuard(shareId).Some? ==>
                r == Failure(ShareIdGuard(shareId).value) && error == ShareIdGuard(shareId) &&
                loading == old(loading) && loadingProgress == old(loadingProgress) && shareData == old(shareData)
      ensures ShareIdGuard(shareId).None? ==> !loading
      ensures ShareIdGuard(shareId).None? && fetched.Failure? ==>
                r == Failure(fetched.error) && error == Some(fetched.error) &&
                loadingProgress == 20 && shareData == old(shareData)
      ensures ShareIdGuard(shareId).None? && fetched.Success? && CheckResponse(fetched.value).Failure? ==>
                r == Failure(CheckResponse(fetched.value).error) && error == Some(r.error) &&
                loadingProgress == 70 && shareData == old(shareData)
      ensures r.Success? <==> ShareIdGuard(shareId).None? && fetched.Success? && CheckResponse(fetched.value).Success?
      ensures r.Success? ==>
                r.value == fetched.value.value && shareData == Some(r.value) && error.None? && loadingProgress == 100
    {
      var guard := ShareIdGuard(shareId);
      if guard.Some? {
        SetError(guard);
        return Failure(guard.value);
      }
      SetLoading(true);
      SetLoadingProgress(0);
      SetError(None);
      SetLoadingProgress(20);
      match fetched {
        case Failure(err) =>
          SetError(Some(err));
          r := Failure(err);
        case Success(response) =>
          SetLoadingProgress(70);
          var checked := CheckResponse(response);
          if checked.Failure? {
            SetError(Some(checked.error));
            r := Failure(checked.error);
          } else {
            SetLoadingProgress(90);
            SetShareData(Some(checked.value));
            SetLoadingProgress(100);
            r := Success(checked.value);
          }
      }
      SetLoading(false);
    }
  }

  /** Toggling twice restores the view and changes nothing else. */
  method ToggleTwice(store: ShareViewStore)
    modifies store
    ensures store.isTreeView == old(store.isTreeView)
    ensures store.shareData == old(store.shareData) && store.loading == old(store.loading)
    ensures store.loadingProgress == old(store.loadingProgress) && store.error == old(store.error)
  {
    store.ToggleView();
    store.ToggleView();
  }

  // ---------------------------------------------------------------------------
  // Error messages

  /** The message shown for a status code when the error has none. */
  function StatusMessage(statusCode: int): (m: string)
    ensures statusCode == 400 ==> m == "❌ 请求参数错误"
    ensures statusCode == 404 ==> m == "❌ 分享不存在或已被删除"
    ensures statusCode == 408 ==> m == "⏰ 请求超时，请稍后重试"
    ensures statusCode == 410 ==> m == "⏰ 分享已过期且不可用"
    ensures statusCode == 500 ==> m == "❌ 服务器错误，请稍后重试"
    ensures statusCode == 0 ==> m == "❌ 网络连接失败"
    ensures statusCode !in {0, 400, 404, 408, 410, 500} ==> m == "❌ 加载失败，请稍后重试"
  {
    match statusCode
    case 400 => "❌ 请求参数错误"
    case 404 => "❌ 分享不存在或已被删除"
    case 408 => "⏰ 请求超时，请稍后重试"
    case 410 => "⏰ 分享已过期且不可用"
    case 500 => "❌ 服务器错误，请稍后重试"
    case 0 => "❌ 网络连接失败"
    case _ => "❌ 加载失败，请稍后重试"
  }

  /** `getErrorMessage`: no error is unknown; an error with a message shows
      it after "❌ "; otherwise the status code decides. Every message starts
      with one of the two marks. */
  function GetErrorMessage(err: Option<ViewError>): (m: string)
    ensures err.None? ==> m == "❌ 未知错误"
    ensures err.Some? && err.value.message != "" ==> m == "❌ " + err.value.message
    ensures err.Some? && err.value.message == "" ==> m == StatusMessage(err.value.statusCode)
    ensures |m| >= 2 && (m[..2] == "❌ " || m[..2] == "⏰ ")
  {
    match err
    case None => "❌ 未知错误"
    case Some(e) =>
      if e.message != "" then
        assert ("❌ " + e.message)[..2] == "❌ ";
        "❌ " + e.message
      else
        StatusMessage(e.statusCode)
  }

  /** What the page shows for the guard's own errors. */
  lemma GuardErrorMessages(shareId: string)
    ensures shareId == "" ==> GetErrorMessage(ShareIdGuard(shareId)) == "❌ 无效的分享链接"
    ensures shareId != "" && ShareIdGuard(shareId).Some? ==> GetErrorMessage(ShareIdGuard(shareId)) == "❌ 分享链接格式错误"
  {
  }
}
