/** The API module's view of the auth log collection: the same append-only list of
    documents, but lookups map store dates back to `DateTime` values. */
module ApiAuthLog {
  import opened Common

  class AuthLogCollection {
    var docs: seq<Doc>

    constructor (initial: seq<Doc>)
      ensures docs == initial
    {
      docs := initial;
    }

    /** `insertOne` of the details with dates mapped; true exactly when the store reports
        one inserted document (`accepted`), false when it reports none. */
    method AddLog(details: Doc, accepted: bool) returns (ok: bool)
      modifies this
      ensures ok <==> accepted
      ensures accepted ==> docs == old(docs) + [DocToStore(details)]
      ensures !accepted ==> docs == old(docs)
    {
      if accepted {
        docs := docs + [DocToStore(details)];
      }
      ok := accepted;
    }

    /** null when no log has the hash; otherwise some matching document with every store
        date mapped back to a `DateTime`. */
    method GetLogByIdentityHash(hash: string) returns (r: Option<Doc>)
      ensures r.None? <==> forall i :: 0 <= i < |docs| ==> !HasIdentityHash(docs[i], hash)
      ensures r.Some? ==> exists i :: 0 <= i < |docs| && HasIdentityHash(docs[i], hash) && r.value == DocFromStore(docs[i])
      ensures r.Some? ==> HasIdentityHash(r.value, hash)
    {
      if exists i :: 0 <= i < |docs| && HasIdentityHash(docs[i], hash) {
        var i :| 0 <= i < |docs| && HasIdentityHash(docs[i], hash);
        r := Some(DocFromStore(docs[i]));
      } else {
        r := None;
      }
    }
  }

  /** When no earlier log has the hash, a lookup after `AddLog` of PHP values can only
      find the new log, and it reads back as exactly the values given. */
  lemma LoggedDetailsReadBack(docs: seq<Doc>, details: Doc, hash: string)
    requires NoStoreDates(details) && HasIdentityHash(details, hash)
    requires forall j :: 0 <= j < |docs| ==> !HasIdentityHash(docs[j], hash)
    ensures forall i :: 0 <= i < |docs| + 1 && HasIdentityHash((docs + [DocToStore(details)])[i], hash) ==> i == |docs|
    ensures DocFromStore(DocToStore(details)) == details
  {
    StoreRoundTrip(details);
  }
}
