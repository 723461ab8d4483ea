/** The request pieces the creation handlers read through the framework:
    the `X-User-ID` header and the parts of a multipart form. Reading them
    is left to the framework; here they are plain values. */
module Multipart {
  import opened Wrappers
  import opened ApiResponse

  /** A part's payload: its length in bytes and its UTF-8 decoding, which
      is what `data.toString()` yields. */
  datatype Buffer = Buffer(length: nat, text: string)

  /** No bytes decode to the empty text, and any byte decodes to at least one
      character (a malformed sequence becomes U+FFFD). */
  predicate DecodesConsistently(b: Buffer) {
    b.length == 0 <==> b.text == ""
  }

  /** One part of `readMultipartFormData`'s array. */
  datatype FormPart = FormPart(name: Option<string>, filename: Option<string>, data: Option<Buffer>)

  /** What `readMultipartFormData` did: threw, returned `undefined` (no
      multipart body), or returned the parts. */
  datatype FormRead = FormThrew(error: Thrown) | NoForm | Form(parts: seq<FormPart>)

  /** `!userId`: the header is missing or empty. */
  predicate MissingUserId(userId: Option<string>) {
    userId.None? || userId.value == ""
  }

  /** Part `i` is the first part named `expiryDays`. */
  predicate FirstExpiryPart(parts: seq<FormPart>, i: int) {
    && 0 <= i < |parts|
    && parts[i].name == Some("expiryDays")
    && forall j :: 0 <= j < i ==> parts[j].name != Some("expiryDays")
  }

  /** `formData.find(item => item.name === 'expiryDays')?.data?.toString()`:
      the text of the first part named `expiryDays`, or `undefined` when no
      part has that name or the first one has no data. */
  function ExpiryField(parts: seq<FormPart>): (r: Option<string>)
    ensures forall i :: FirstExpiryPart(parts, i) ==>
              r == (if parts[i].data.Some? then Some(parts[i].data.value.text) else None)
    ensures (forall i :: 0 <= i < |parts| ==> parts[i].name != Some("expiryDays")) ==> r.None?
  {
    if parts == [] then None
    else if parts[0].name == Some("expiryDays") then
      (if parts[0].data.Some? then Some(parts[0].data.value.text) else None)
    else
      var r := ExpiryField(parts[1..]);
      assert forall i :: FirstExpiryPart(parts, i) ==> i > 0 && FirstExpiryPart(parts[1..], i - 1);
      r
  }
}
