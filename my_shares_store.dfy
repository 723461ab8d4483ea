/** The "my shares" page store: the caller's share list, a loading flag and
    an error text, plus the expiry rules the page shows. The requests are
    outcomes given as arguments; dates are UTC milliseconds (`None` is a
    permanent share). */
module MySharesStore {
  import opened Wrappers
  import opened JsBuiltins
  import opened CivilTime
  import opened ShareTable

  /** `UserShare`, as the list endpoint returns it. */
  datatype UserShare = UserShare(id: string, shareId: string, expiresAt: Option<int>, createdAt: string, updatedAt: string)

  /** What a `catch` received: whether it is an `Error`, and its message. */
  datatype Caught = Caught(isError: bool, message: string)

  /** `err instanceof Error ? err.message : fallback`. */
  function CaughtMessage(err: Caught, fallback: string): (r: string)
    ensures err.isError ==> r == err.message
    ensures !err.isError ==> r == fallback
  {
    if err.isError then err.message else fallback
  }

  /** The list request: it answered (successfully or not) or threw. */
  datatype ListOutcome = ListAnswered(success: bool, data: seq<UserShare>) | ListThrew(err: Caught)

  /** The delete request: it answered (successfully or not) or threw. */
  datatype DeleteOutcome = DeleteAnswered(success: bool) | DeleteThrew(err: Caught)

  /** `shares.filter(share => share.shareId !== shareId)`. */
  function WithoutShare(shares: seq<UserShare>, shareId: string): (r: seq<UserShare>)
    ensures forall x :: x in r <==> x in shares && x.shareId != shareId
    ensures |r| <= |shares|
  {
    if shares == [] then []
    else
      var rest := WithoutShare(shares[1..], shareId);
      assert forall x :: x in shares <==> x == shares[0] || x in shares[1..];
      if shares[0].shareId != shareId then [shares[0]] + rest else rest
  }

  /** The filter keeps order: filtering a concatenation is concatenating the
      filtered parts. */
  lemma {:induction false} WithoutShareDistributes(a: seq<UserShare>, b: seq<UserShare>, shareId: string)
    ensures WithoutShare(a + b, shareId) == WithoutShare(a, shareId) + WithoutShare(b, shareId)
  {
    if a != [] {
      assert (a + b)[1..] == a[1..] + b;
      WithoutShareDistributes(a[1..], b, shareId);
    } else {
      assert a + b == b;
    }
  }

  /** A list with no entry for the id is left as it is; filtering twice is
      filtering once. */
  lemma {:induction false} WithoutShareKeepsOthers(shares: seq<UserShare>, shareId: string)
    ensures (forall i :: 0 <= i < |shares| ==> shares[i].shareId != shareId) ==> WithoutShare(shares, shareId) == shares
    ensures WithoutShare(WithoutShare(shares, shareId), shareId) == WithoutShare(shares, shareId)
  {
    if shares != [] {
      WithoutShareKeepsOthers(shares[1..], shareId);
      var rest := WithoutShare(shares[1..], shareId);
      if shares[0].shareId != shareId {
        assert ([shares[0]] + rest)[1..] == rest;
      }
    }
  }

  class MySharesStore {
    var shares: seq<UserShare>
    var loading: bool
    var error: Option<string>

    constructor ()
      ensures shares == [] && !loading && error.None?
    {
      shares := [];
      loading := false;
      error := None;
    }

    /** `fetchShares`: the error is cleared first; a successful answer
        replaces the list, anything else keeps it; a throw records its
        message; loading always ends false. */
    method FetchShares(outcome: ListOutcome)
      modifies this
      ensures !loading
      ensures outcome.ListAnswered? && outcome.success ==> shares == outcome.data
      ensures !(outcome.ListAnswered? && outcome.success) ==> shares == old(shares)
      ensures outcome.ListAnswered? ==> error.None?
      ensures outcome.ListThrew? ==> error == Some(CaughtMessage(outcome.err, "Failed to fetch shares"))
    {
      loading := true;
      error := None;
      match outcome {
        case ListAnswered(success, data) =>
          if success {
            shares := data;
          }
        case ListThrew(err) =>
          error := Some(CaughtMessage(err, "Failed to fetch shares"));
      }
      loading := false;
    }

    /** `deleteShare`: on a successful answer every entry with that share id
        is dropped, the others keep their order, and the result is true;
        otherwise the list is kept and the result is false, a throw also
        recording its message. */
    method DeleteShare(shareId: string, outcome: DeleteOutcome) returns (deleted: bool)
      modifies this
      ensures deleted <==> outcome.DeleteAnswered? && outcome.success
      ensures deleted ==> shares == WithoutShare(old(shares), shareId)
      ensures !deleted ==> shares == old(shares)
      ensures outcome.DeleteThrew? ==> error == Some(CaughtMessage(outcome.err, "Failed to delete share"))
      ensures outcome.DeleteAnswered? ==> error == old(error)
      ensures loading == old(loading)
    {
      match outcome
      case DeleteAnswered(success) =>
        if success {
          shares := WithoutShare(shares, shareId);
          return true;
        }
        return false;
      case DeleteThrew(err) =>
        error := Some(CaughtMessage(err, "Failed to delete share"));
        return false;
    }
  }

  /** `isExpired`: a permanent share never is; otherwise the expiry is
      strictly before `now`. */
  predicate IsExpired(expiresAt: Option<int>, now: int) {
    expiresAt.Some? && expiresAt.value < now
  }

  /** The page's rule and the viewing rule of the tests are the same
      relation. */
  lemma IsExpiredIsTheViewingRule(expiresAt: Option<int>, now: int)
    ensures IsExpired(expiresAt, now) <==> IsShareExpired(expiresAt, now)
  {
  }

  /** `Math.ceil(a / b)` for a natural `a` and a positive `b`. */
  function CeilDiv(a: nat, b: nat): (q: nat)
    requires b > 0
    ensures q * b >= a
    ensures q == 0 || (q - 1) * b < a
  {
    (a + b - 1) / b
  }

  /** The outcome of `getExpiryStatus`, before it becomes text. */
  datatype ExpiryStatus =
    | Permanent
    | AlreadyExpired
    | ExpiresToday
    | ExpiresInDays(days: nat)
    | ShowDate(expiresAt: int)

  /** `getExpiryStatus`: with `d` the whole days left rounded up, one day is
      "today", up to seven days (zero included, when the expiry is now) is
      "in d days", and anything later shows the date. */
  function GetExpiryStatus(expiresAt: Option<int>, now: int): (r: ExpiryStatus)
    ensures r == Permanent <==> expiresAt.None?
    ensures r == AlreadyExpired <==> IsExpired(expiresAt, now)
    ensures r == ExpiresToday <==> expiresAt.Some? && now < expiresAt.value <= now + MsPerDay
    ensures r == ExpiresInDays(0) <==> expiresAt == Some(now)
    ensures r.ExpiresInDays? ==>
              r.days != 1 && r.days <= 7 &&
              (r.days - 1) * MsPerDay < expiresAt.value - now + (if r.days == 0 then 1 else 0) &&
              expiresAt.value - now <= r.days * MsPerDay
    ensures r.ShowDate? <==> expiresAt.Some? && expiresAt.value > now + 7 * MsPerDay
    ensures r.ShowDate? ==> r.expiresAt == expiresAt.value
  {
    match expiresAt
    case None => Permanent
    case Some(expiry) =>
      if expiry < now then AlreadyExpired
      else
        var diffDays := CeilDiv(expiry - now, MsPerDay);
        if diffDays == 1 then ExpiresToday
        else if diffDays <= 7 then ExpiresInDays(diffDays)
        else ShowDate(expiry)
  }

  /** The text of a status; the date format (`toLocaleString('zh-CN')`) is
      a parameter. */
  function ExpiryLabel(status: ExpiryStatus, formatDate: int -> string): (r: string)
    ensures status.Permanent? ==> r == "永久有效"
    ensures status.AlreadyExpired? ==> r == "已过期"
    ensures status.ExpiresToday? ==> r == "今天过期"
    ensures status.ExpiresInDays? ==> r == DecimalString(status.days) + "天后过期"
    ensures status.ShowDate? ==> r == formatDate(status.expiresAt)
  {
    match status
    case Permanent => "永久有效"
    case AlreadyExpired => "已过期"
    case ExpiresToday => "今天过期"
    case ExpiresInDays(d) => DecimalString(d) + "天后过期"
    case ShowDate(t) => formatDate(t)
  }

  /** A share seven days and one millisecond away shows its date; exactly
      seven days away it shows "7天后过期"; at the expiry instant it shows
      "0天后过期" and is not expired. */
  lemma ExpiryStatusBoundaries(now: int)
    ensures GetExpiryStatus(Some(now + 7 * MsPerDay + 1), now) == ShowDate(now + 7 * MsPerDay + 1)
    ensures GetExpiryStatus(Some(now + 7 * MsPerDay), now) == ExpiresInDays(7)
    ensures GetExpiryStatus(Some(now), now) == ExpiresInDays(0) && !IsExpired(Some(now), now)
    ensures GetExpiryStatus(Some(now + 1), now) == ExpiresToday
  {
  }
}
