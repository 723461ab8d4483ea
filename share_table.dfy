/** The `jsonShare` table the handlers read and write, as a sequence of
    records. The database generates `id`, `shareId` and the timestamps and
    enforces that `shareId` is unique; the generated values and the
    database's own failures are inputs here (an `InsertOutcome`). */
module ShareTable {
  import opened Wrappers
  import opened JsBuiltins

  /** One row: `expiresAt` is `None` for a permanent share; times are UTC
      milliseconds. */
  datatype ShareRecord = ShareRecord(
    id: string,
    shareId: string,
    content: JsonValue,
    userId: string,
    expiresAt: Option<int>,
    createdAt: int,
    updatedAt: int)

  /** The `data` a handler passes to `prisma.jsonShare.create`. */
  datatype NewShare = NewShare(content: JsonValue, userId: string, expiresAt: Option<int>)

  /** The Prisma error code of a unique-constraint violation. */
  const DuplicateKeyCode: string := "P2002"

  /** The message Prisma gives a unique-constraint violation on `shareId`. */
  const DuplicateKeyMessage: string := "Unique constraint failed on the fields: (`shareId`)"

  /** The error `prisma.jsonShare.create` rejects with. */
  datatype DbError = DbError(code: string, message: string)

  /** What the database does with one insert: either it generates `id`,
      `shareId` and the creation time, or it fails with an error of its
      own (connection lost, constraint violated, ...). */
  datatype InsertOutcome =
    | Generated(id: string, shareId: string, createdAt: int)
    | Rejected(error: DbError)

  predicate UniqueShareIds(records: seq<ShareRecord>) {
    forall i, j :: 0 <= i < j < |records| ==> records[i].shareId != records[j].shareId
  }

  predicate HasShareId(records: seq<ShareRecord>, shareId: string) {
    exists i :: 0 <= i < |records| && records[i].shareId == shareId
  }

  /** `findUnique({ where: { shareId } })`. */
  function FindByShareId(records: seq<ShareRecord>, shareId: string): (r: Option<ShareRecord>)
    ensures r.Some? <==> HasShareId(records, shareId)
    ensures r.Some? ==> r.value in records && r.value.shareId == shareId
  {
    if records == [] then None
    else if records[0].shareId == shareId then Some(records[0])
    else
      var r := FindByShareId(records[1..], shareId);
      assert HasShareId(records, shareId) ==> HasShareId(records[1..], shareId) by {
        if HasShareId(records, shareId) {
          var i :| 0 <= i < |records| && records[i].shareId == shareId;
          assert records[1..][i - 1] == records[i];
        }
      }
      assert r.Some? ==> HasShareId(records, shareId) by {
        if r.Some? {
          var i :| 0 <= i < |records[1..]| && records[1..][i].shareId == shareId;
          assert records[i + 1] == records[1..][i];
        }
      }
      r
  }

  /** With unique share ids the lookup finds the one record that has it. */
  lemma {:induction false} FindByShareIdIsTheRecord(records: seq<ShareRecord>, i: int)
    requires UniqueShareIds(records)
    requires 0 <= i < |records|
    ensures FindByShareId(records, records[i].shareId) == Some(records[i])
  {
    if i > 0 {
      assert records[0].shareId != records[i].shareId;
      assert records[1..][i - 1] == records[i];
      FindByShareIdIsTheRecord(records[1..], i - 1);
    }
  }

  /** The viewing rule the tests use: a share is expired once the current
      time is strictly past `expiresAt`; a permanent share never is. */
  predicate IsShareExpired(expiresAt: Option<int>, now: int) {
    expiresAt.Some? && now > expiresAt.value
  }

  /** At the expiry instant the share is still viewable; one millisecond
      later it is not. */
  lemma ExpiryInstantIsStillViewable(t: int)
    ensures !IsShareExpired(Some(t), t)
    ensures IsShareExpired(Some(t), t + 1)
    ensures forall now :: !IsShareExpired(None, now)
  {
  }

  /** The table. */
  class ShareStore {
    var records: seq<ShareRecord>

    predicate Valid()
      reads this
    {
      UniqueShareIds(records)
    }

    constructor ()
      ensures Valid() && records == []
    {
      records := [];
    }

    /** `prisma.jsonShare.create({ data: { content, userId, expiresAt } })`:
        the new row gets the generated `id`, `shareId` and creation time
        (also its first `updatedAt`). A generated share id that is already
        taken violates the unique constraint and fails with P2002; a failed
        insert leaves the table as it was. */
    method Create(data: NewShare, outcome: InsertOutcome)
      returns (r: Result<ShareRecord, DbError>)
      requires Valid()
      modifies this
      ensures Valid()
      ensures r.Success? <==> outcome.Generated? && !HasShareId(old(records), outcome.shareId)
      ensures r.Success? ==>
                r.value == ShareRecord(outcome.id, outcome.shareId, data.content, data.userId, data.expiresAt,
                                       outcome.createdAt, outcome.createdAt) &&
                records == old(records) + [r.value]
      ensures r.Failure? ==> records == old(records)
      ensures r.Failure? && outcome.Generated? ==> r.error == DbError(DuplicateKeyCode, DuplicateKeyMessage)
      ensures r.Failure? && outcome.Rejected? ==> r.error == outcome.error
    {
      match outcome
      case Rejected(e) =>
        r := Failure(e);
      case Generated(id, shareId, createdAt) =>
        if HasShareId(records, shareId) {
          r := Failure(DbError(DuplicateKeyCode, DuplicateKeyMessage));
        } else {
          var record := ShareRecord(id, shareId, data.content, data.userId, data.expiresAt, createdAt, createdAt);
          records := records + [record];
          r := Success(record);
        }
    }
  }

  /** Appending a record with a fresh share id keeps the ids unique, and the
      new record is then what a lookup of its id finds. */
  lemma AppendFreshKeepsUnique(records: seq<ShareRecord>, record: ShareRecord)
    requires UniqueShareIds(records)
    requires !HasShareId(records, record.shareId)
    ensures UniqueShareIds(records + [record])
    ensures FindByShareId(records + [record], record.shareId) == Some(record)
  {
    var rs := records + [record];
    assert rs[|records|] == record;
    FindByShareIdIsTheRecord(rs, |records|);
  }
}
