/** The Auth module's log collection: an append-only list of documents searched by
    `identity_hash`. Documents come back exactly as stored (store dates stay store dates). */
module AuthModuleLog {
  import opened Common

  class LogCollection {
    var docs: seq<Doc>

    /** A collection over the documents already stored. */
    constructor (initial: seq<Doc>)
      ensures docs == initial
    {
      docs := initial;
    }

    /** `insertOne` of the details with every `DateTime` mapped to a store date. `accepted`
        is the store's answer: whether it reports one inserted document. The result is
        true exactly when one document was inserted. */
    method AddLog(details: Doc, accepted: bool) returns (ok: bool)
      modifies this
      ensures ok <==> accepted
      ensures accepted ==> docs == old(docs) + [DocToStore(details)]
      ensures !accepted ==> docs == old(docs)
    {
      if accepted {
        docs := docs + [DocToStore(details)];
      }
      ok := accepted;
    }

    /** `findOne` on `identity_hash`: null when no log has that hash; otherwise some
        matching document as stored. */
    method GetLogByIdentityHash(hash: string) returns (r: Option<Doc>)
      ensures r.None? <==> forall i :: 0 <= i < |docs| ==> !HasIdentityHash(docs[i], hash)
      ensures r.Some? ==> r.value in docs && HasIdentityHash(r.value, hash)
    {
      if exists i :: 0 <= i < |docs| && HasIdentityHash(docs[i], hash) {
        var i :| 0 <= i < |docs| && HasIdentityHash(docs[i], hash);
        r := Some(docs[i]);
      } else {
        r := None;
      }
    }
  }

  /** A logged `DateTime` is found again as a store date, and every other field as given. */
  lemma StoredLogKeepsFields(details: Doc, hash: string)
    requires HasIdentityHash(details, hash)
    ensures HasIdentityHash(DocToStore(details), hash)
    ensures forall k :: k in details && details[k].DateTime? ==> DocToStore(details)[k] == StoreDate(details[k].t)
    ensures forall k :: k in details && !details[k].DateTime? ==> DocToStore(details)[k] == details[k]
  {
  }
}
