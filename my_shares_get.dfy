/** `GET /api/my-shares`: the caller's shares that are permanent or not yet
    expired, without their content, newest first. The query runs over a
    snapshot of the table, or fails with a database error. */
module MySharesGet {
  import opened Wrappers
  import opened ApiResponse
  import opened Multipart
  import opened ShareTable

  /** The `select` of the query: no `content`, no `userId`. */
  datatype ShareSummary = ShareSummary(id: string, shareId: string, expiresAt: Option<int>, createdAt: int, updatedAt: int)

  function Summary(record: ShareRecord): (s: ShareSummary)
    ensures s.id == record.id && s.shareId == record.shareId && s.expiresAt == record.expiresAt
    ensures s.createdAt == record.createdAt && s.updatedAt == record.updatedAt
  {
    ShareSummary(record.id, record.shareId, record.expiresAt, record.createdAt, record.updatedAt)
  }

  /** The `where` of the query: owned by the caller, and permanent or
      expiring strictly after `now`. */
  predicate Listed(record: ShareRecord, userId: string, now: int) {
    record.userId == userId && (record.expiresAt.None? || record.expiresAt.value > now)
  }

  /** The records the `where` keeps, in table order. */
  function Matching(records: seq<ShareRecord>, userId: string, now: int): (r: seq<ShareRecord>)
    ensures forall x :: x in r <==> x in records && Listed(x, userId, now)
    ensures |r| <= |records|
    ensures (forall i :: 0 <= i < |records| ==> !Listed(records[i], userId, now)) ==> r == []
  {
    if records == [] then []
    else
      var rest := Matching(records[1..], userId, now);
      assert forall x :: x in records <==> x == records[0] || x in records[1..];
      if Listed(records[0], userId, now) then [records[0]] + rest else rest
  }

  /** The `where` keeps every listed record as often as the table holds it
      and drops the others entirely. */
  lemma {:induction false} MatchingCounts(records: seq<ShareRecord>, userId: string, now: int)
    ensures forall x :: multiset(Matching(records, userId, now))[x] ==
                          if Listed(x, userId, now) then multiset(records)[x] else 0
  {
    if records != [] {
      var head, tail := records[0], records[1..];
      MatchingCounts(tail, userId, now);
      assert records == [head] + tail;
      assert multiset(records) == multiset{head} + multiset(tail);
      var rest := Matching(tail, userId, now);
      if Listed(head, userId, now) {
        assert Matching(records, userId, now) == [head] + rest;
        assert multiset([head] + rest) == multiset{head} + multiset(rest);
      } else {
        assert Matching(records, userId, now) == rest;
      }
    }
  }

  /** The `where` keeps table order: filtering a concatenation is
      concatenating the filtered parts. */
  lemma {:induction false} MatchingDistributes(a: seq<ShareRecord>, b: seq<ShareRecord>, userId: string, now: int)
    ensures Matching(a + b, userId, now) == Matching(a, userId, now) + Matching(b, userId, now)
  {
    if a == [] {
      assert a + b == b;
    } else {
      assert (a + b)[1..] == a[1..] + b;
      MatchingDistributes(a[1..], b, userId, now);
    }
  }

  function Project(records: seq<ShareRecord>): (r: seq<ShareSummary>)
    ensures |r| == |records|
    ensures forall i :: 0 <= i < |records| ==> r[i] == Summary(records[i])
  {
    seq(|records|, i requires 0 <= i < |records| => Summary(records[i]))
  }

  /** `orderBy: { createdAt: 'desc' }`. */
  predicate NewestFirst(s: seq<ShareSummary>) {
    forall i, j :: 0 <= i < j < |s| ==> s[i].createdAt >= s[j].createdAt
  }

  /** Puts `x` into a newest-first list, before the first entry that is not
      newer than it. */
  function InsertNewestFirst(x: ShareSummary, s: seq<ShareSummary>): (r: seq<ShareSummary>)
    requires NewestFirst(s)
    ensures NewestFirst(r)
    ensures multiset(r) == multiset(s) + multiset{x}
  {
    if s == [] then [x]
    else if x.createdAt >= s[0].createdAt then
      assert forall k :: 0 <= k < |s| ==> s[k].createdAt <= x.createdAt by {
        forall k | 0 <= k < |s|
          ensures s[k].createdAt <= x.createdAt
        {
          assert s[0].createdAt >= s[k].createdAt;
        }
      }
      PrependNewest(x, s);
      [x] + s
    else
      var tail := s[1..];
      assert s == [s[0]] + tail;
      NewestFirstTail(s);
      var rest := InsertNewestFirst(x, tail);
      assert forall k :: 0 <= k < |rest| ==> rest[k].createdAt <= s[0].createdAt by {
        forall k | 0 <= k < |rest|
          ensures rest[k].createdAt <= s[0].createdAt
        {
          assert rest[k] in multiset(rest);
          if rest[k] != x {
            assert rest[k] in tail;
          }
        }
      }
      PrependNewest(s[0], rest);
      assert multiset([s[0]] + rest) == multiset{s[0]} + multiset(rest);
      [s[0]] + rest
  }

  /** An entry no older than any entry of a newest-first list can go in
      front of it. */
  lemma PrependNewest(y: ShareSummary, t: seq<ShareSummary>)
    requires NewestFirst(t)
    requires forall k :: 0 <= k < |t| ==> t[k].createdAt <= y.createdAt
    ensures NewestFirst([y] + t)
  {
    var r := [y] + t;
    forall i, j | 0 <= i < j < |r|
      ensures r[i].createdAt >= r[j].createdAt
    {
      assert r[j] == t[j - 1];
      if i > 0 {
        assert r[i] == t[i - 1];
      }
    }
  }

  /** The tail of a newest-first list is newest first. */
  lemma NewestFirstTail(s: seq<ShareSummary>)
    requires s != [] && NewestFirst(s)
    ensures NewestFirst(s[1..])
  {
    var t := s[1..];
    forall i, j | 0 <= i < j < |t|
      ensures t[i].createdAt >= t[j].createdAt
    {
      assert t[i] == s[i + 1] && t[j] == s[j + 1];
    }
  }

  function SortNewestFirst(s: seq<ShareSummary>): (r: seq<ShareSummary>)
    ensures NewestFirst(r)
    ensures multiset(r) == multiset(s)
  {
    if s == [] then []
    else
      assert s == [s[0]] + s[1..];
      InsertNewestFirst(s[0], SortNewestFirst(s[1..]))
  }

  /** The default handler of server/api/my-shares.get.ts: 401 without an
      owner; otherwise the sorted, projected matches, or, when the query
      fails, 500 "Failed to retrieve shares" with the error's message. */
  function MyShares(userId: Option<string>, snapshot: Result<seq<ShareRecord>, DbError>, now: int)
    : (r: Result<ApiSuccess<seq<ShareSummary>>, HttpError>)
    ensures MissingUserId(userId) ==> r == Failure(ApiError(401, Unauthorized, "User ID is required", None))
    ensures !MissingUserId(userId) && snapshot.Failure? ==>
              r == Failure(ApiError(500, ServerError, "Failed to retrieve shares", Some(snapshot.error.message)))
    ensures r.Success? <==> !MissingUserId(userId) && snapshot.Success?
    ensures r.Success? ==>
              && r.value.success
              && r.value.message == Some("Shares retrieved successfully")
              && NewestFirst(r.value.data)
              && multiset(r.value.data) == multiset(Project(Matching(snapshot.value, userId.value, now)))
  {
    if MissingUserId(userId) then
      CreateApiError(401, Unauthorized, "User ID is required", None)
    else
      match snapshot
      case Failure(dbError) =>
        CreateApiError(500, ServerError, "Failed to retrieve shares", Some(dbError.message))
      case Success(records) =>
        var shares := SortNewestFirst(Project(Matching(records, userId.value, now)));
        Success(CreateApiSuccess(shares, Some("Shares retrieved successfully")))
  }

  /** A summary is listed exactly when it is the summary of one of the
      caller's records that is permanent or expires after `now`. */
  lemma MySharesMembership(userId: string, records: seq<ShareRecord>, now: int, s: ShareSummary)
    requires userId != ""
    ensures var r := MyShares(Some(userId), Success(records), now);
            s in r.value.data <==> exists x :: x in records && Listed(x, userId, now) && s == Summary(x)
  {
    var m := Matching(records, userId, now);
    var r := MyShares(Some(userId), Success(records), now);
    assert multiset(r.value.data) == multiset(Project(m));
    assert s in r.value.data <==> s in multiset(r.value.data);
    assert s in Project(m) <==> s in multiset(Project(m));
    if s in Project(m) {
      var i :| 0 <= i < |m| && Project(m)[i] == s;
      assert m[i] in records && Listed(m[i], userId, now);
    }
    if exists x :: x in records && Listed(x, userId, now) && s == Summary(x) {
      var x :| x in records && Listed(x, userId, now) && s == Summary(x);
      var i :| 0 <= i < |m| && m[i] == x;
      assert Project(m)[i] == s;
    }
  }

  /** An owner with nothing active gets an empty list, not an error. */
  lemma NothingActiveIsAnEmptyList(userId: string, records: seq<ShareRecord>, now: int)
    requires userId != ""
    requires forall x :: x in records ==> !Listed(x, userId, now)
    ensures MyShares(Some(userId), Success(records), now).Success?
    ensures MyShares(Some(userId), Success(records), now).value.data == []
  {
    assert forall i :: 0 <= i < |records| ==> records[i] in records;
    var listed := MyShares(Some(userId), Success(records), now).value.data;
    assert |listed| == |multiset(listed)|;
  }

  /** The boundary asymmetry: a share whose expiry is exactly `now` is left
      out of the owner's list, although the viewing rule does not yet call
      it expired. */
  lemma ExpiringNowIsHiddenButViewable(record: ShareRecord, now: int)
    requires record.expiresAt == Some(now)
    ensures !Listed(record, record.userId, now)
    ensures !IsShareExpired(record.expiresAt, now)
  {
  }
}
