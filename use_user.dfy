/** The browser's anonymous identity: a generated id kept in `localStorage`
    under one key and sent as the `X-User-ID` header. Storage is a map; the
    uuid generator is the `freshId` argument. */
module UseUser {
  import opened Wrappers

  const UserIdKey: string := "json-share-user-id"

  const UserIdHeader: string := "X-User-ID"

  /** `localStorage`. */
  class KeyValueStorage {
    var items: map<string, string>

    constructor (items: map<string, string>)
      ensures this.items == items
    {
      this.items := items;
    }

    /** `getItem`: `None` is `null`. */
    function GetItem(key: string): (r: Option<string>)
      reads this
      ensures r.Some? <==> key in items
      ensures r.Some? ==> r.value == items[key]
    {
      if key in items then Some(items[key]) else None
    }

    method SetItem(key: string, value: string)
      modifies this
      ensures items == old(items)[key := value]
    {
      items := items[key := value];
    }
  }

  /** The stored id, when there is one and it is not empty (`!userId`). */
  predicate HasStoredId(items: map<string, string>) {
    UserIdKey in items && items[UserIdKey] != ""
  }

  /** `getUserId`: on the server, "" and storage untouched. In the browser,
      the stored id if there is a non-empty one, storage untouched;
      otherwise a fresh id, which is stored and returned. Either way the
      browser's storage afterwards holds the returned id under the key and
      nothing else has changed. */
  method GetUserId(storage: KeyValueStorage, isServer: bool, freshId: string) returns (userId: string)
    requires freshId != ""
    modifies storage
    ensures isServer ==> userId == "" && storage.items == old(storage.items)
    ensures !isServer && HasStoredId(old(storage.items)) ==>
              userId == old(storage.items)[UserIdKey] && storage.items == old(storage.items)
    ensures !isServer && !HasStoredId(old(storage.items)) ==>
              userId == freshId && storage.items == old(storage.items)[UserIdKey := freshId]
    ensures !isServer ==> userId != "" && storage.items == old(storage.items)[UserIdKey := userId]
  {
    if isServer {
      return "";
    }
    var stored := storage.GetItem(UserIdKey);
    if stored.None? || stored.value == "" {
      userId := freshId;
      storage.SetItem(UserIdKey, userId);
    } else {
      userId := stored.value;
      assert old(storage.items)[UserIdKey := userId] == old(storage.items);
    }
  }

  /** `userId ? { 'X-User-ID': userId } : {}`. */
  function HeadersFor(userId: string): (headers: map<string, string>)
    ensures UserIdHeader in headers <==> userId != ""
    ensures UserIdHeader in headers ==> headers[UserIdHeader] == userId
    ensures forall k :: k in headers ==> k == UserIdHeader
  {
    if userId != "" then map[UserIdHeader := userId] else map[]
  }

  /** `getUserHeaders`: the header map for `getUserId`'s result; on the
      server it is empty, in the browser it always names the (possibly
      just created) id. */
  method GetUserHeaders(storage: KeyValueStorage, isServer: bool, freshId: string) returns (headers: map<string, string>)
    requires freshId != ""
    modifies storage
    ensures isServer ==> headers == map[] && storage.items == old(storage.items)
    ensures !isServer ==>
              UserIdKey in storage.items &&
              headers == map[UserIdHeader := storage.items[UserIdKey]] &&
              storage.items == old(storage.items)[UserIdKey := storage.items[UserIdKey]]
  {
    var userId := GetUserId(storage, isServer, freshId);
    headers := HeadersFor(userId);
  }

  /** Two browser calls in a row give the same id, whatever ids the
      generator would offer: the first call stores the id the second one
      returns. */
  method ConsecutiveCalls(storage: KeyValueStorage, firstFresh: string, secondFresh: string)
    returns (first: string, second: string)
    requires firstFresh != "" && secondFresh != ""
    modifies storage
    ensures first == second && first != ""
    ensures storage.items == old(storage.items)[UserIdKey := first]
    ensures HasStoredId(old(storage.items)) ==> first == old(storage.items)[UserIdKey]
  {
    first := GetUserId(storage, false, firstFresh);
    second := GetUserId(storage, false, secondFresh);
  }
}
