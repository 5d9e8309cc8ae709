/** The shared part of the version-1 REST resources: the route user and the LPA a request
    works on, the access check made before every operation, and the optimistic-concurrency
    write that saves a loaded document only if nobody has saved it since it was loaded.
    The Mongo collections these resources write are versioned maps: each stored document
    carries the `updatedAt` marker that the conditional write compares. */
module RestResource {
  import opened Common

  /** The exceptions the resources raise: the two "not set" RuntimeExceptions, the two
      UnauthorizedExceptions of the access check, and the failed conditional write. */
  datatype Failure =
    | RouteUserNotSet
    | LpaNotSet
    | Unauthenticated
    | Forbidden
    | StaleWrite

  datatype Result<+T> = Ok(value: T) | Err(failure: Failure)

  /** What the authorization service answers for the current identity: whether it is
      authenticated, and the user ids it is authorized to manage. */
  datatype Authorization = Authorization(authenticated: bool, manages: set<UserId>)

  /** The route user (a `Users\Entity`), known here by its user id. */
  datatype RouteUser = RouteUser(userId: UserId)

  // ---------------------------------------------------------------------------
  // Versioned documents and the conditional write

  /** A stored document together with its `updatedAt` marker. */
  datatype Versioned<D> = Versioned(updatedAt: int, body: D)

  /** The store after `update({_id: id, updatedAt: marker}, doc, {upsert: false})`: the
      document is replaced only when both the id and the marker match; nothing is created. */
  function CasStore<K, D>(m: map<K, Versioned<D>>, id: K, marker: int, doc: Versioned<D>): (r: map<K, Versioned<D>>)
    ensures r.Keys == m.Keys
    ensures forall k :: k in m && k != id ==> r[k] == m[k]
    ensures id in m && m[id].updatedAt == marker ==> r[id] == doc
    ensures id in m && m[id].updatedAt != marker ==> r == m
  {
    if id in m && m[id].updatedAt == marker then m[id := doc] else m
  }

  /** The `nModified` of that write is 1 exactly when a document matched and differed
      from the replacement. */
  predicate CasModified<K, D(==)>(m: map<K, Versioned<D>>, id: K, marker: int, doc: Versioned<D>)
  {
    id in m && m[id].updatedAt == marker && m[id] != doc
  }

  /** `nModified` reports exactly whether the store changed. */
  lemma CasModifiedIffChanged<K, D>(m: map<K, Versioned<D>>, id: K, marker: int, doc: Versioned<D>)
    ensures CasModified(m, id, marker, doc) <==> CasStore(m, id, marker, doc) != m
  {
    if CasModified(m, id, marker, doc) {
      assert CasStore(m, id, marker, doc)[id] != m[id];
    }
  }

  /** A writer whose marker is stale (someone saved since it loaded) changes nothing and
      is told so. */
  lemma StaleMarkerChangesNothing<K, D>(m: map<K, Versioned<D>>, id: K, loaded: int, doc: Versioned<D>)
    requires id in m && m[id].updatedAt != loaded
    ensures CasStore(m, id, loaded, doc) == m
    ensures !CasModified(m, id, loaded, doc)
  {
  }

  /** Two writers that loaded the same version, each stamping a new marker: once the first
      has succeeded, the second is refused and the first one's document stays. */
  lemma SecondWriterLoses<K, D>(m: map<K, Versioned<D>>, id: K, loaded: int, first: Versioned<D>, second: Versioned<D>)
    requires id in m && m[id].updatedAt == loaded
    requires first.updatedAt != loaded
    ensures CasModified(m, id, loaded, first)
    ensures !CasModified(CasStore(m, id, loaded, first), id, loaded, second)
    ensures CasStore(CasStore(m, id, loaded, first), id, loaded, second)[id] == first
  {
    var m1 := CasStore(m, id, loaded, first);
    assert m1[id] == first;
    StaleMarkerChangesNothing(m1, id, loaded, second);
  }

  /** A Mongo collection of versioned documents keyed by `_id`. */
  class VersionedCollection<K(==), D(==)> {
    var docs: map<K, Versioned<D>>

    constructor (initial: map<K, Versioned<D>>)
      ensures docs == initial
    {
      docs := initial;
    }

    /** `findOne({_id: id})`. */
    method FindOne(id: K) returns (r: Option<Versioned<D>>)
      ensures r.Some? <==> id in docs
      ensures r.Some? ==> r.value == docs[id]
    {
      r := if id in docs then Some(docs[id]) else None;
    }

    /** `insert(doc)`: a duplicate `_id` is refused and nothing is written. */
    method Insert(id: K, doc: Versioned<D>) returns (inserted: bool)
      modifies this
      ensures inserted <==> id !in old(docs)
      ensures inserted ==> docs == old(docs)[id := doc]
      ensures !inserted ==> docs == old(docs)
    {
      inserted := id !in docs;
      if inserted {
        docs := docs[id := doc];
      }
    }

    /** The conditional write, reporting `nModified`. */
    method Update(id: K, marker: int, doc: Versioned<D>) returns (nModified: int)
      modifies this
      ensures docs == CasStore(old(docs), id, marker, doc)
      ensures nModified == (if CasModified(old(docs), id, marker, doc) then 1 else 0)
    {
      nModified := if CasModified(docs, id, marker, doc) then 1 else 0;
      docs := CasStore(docs, id, marker, doc);
    }

    /** `remove({_id: id}, {justOne: true})`. */
    method Remove(id: K)
      modifies this
      ensures docs == old(docs) - {id}
    {
      docs := docs - {id};
    }
  }

  // ---------------------------------------------------------------------------
  // The LPA as the version-1 resources see it

  /** A person to notify; its fields other than the id are opaque here. */
  datatype Person = Person(id: int, details: Doc)

  /** The LPA document: the people to notify, and its other fields. */
  datatype LpaDocument = LpaDocument(peopleToNotify: seq<Person>, other: Doc)

  /** What `toMongoArray()` stores for an LPA besides `_id` and `updatedAt`. */
  datatype LpaBody = LpaBody(user: UserId, document: LpaDocument, other: Doc)

  /** A loaded LPA object. Callers hold it by reference, so the resources' changes to it
      are visible to them. */
  class Lpa {
    const id: int
    var updatedAt: int
    var user: UserId
    var document: LpaDocument
    var other: Doc

    constructor (id: int, updatedAt: int, user: UserId, document: LpaDocument, other: Doc)
      ensures this.id == id && this.updatedAt == updatedAt && this.user == user
      ensures this.document == document && this.other == other
    {
      this.id := id;
      this.updatedAt := updatedAt;
      this.user := user;
      this.document := document;
      this.other := other;
    }

    /** `toMongoArray()`. */
    function ToMongo(): Versioned<LpaBody>
      reads this
    {
      Versioned(updatedAt, LpaBody(user, document, other))
    }
  }

  // ---------------------------------------------------------------------------
  // The resource base

  class Resource {
    var lpa: Lpa?
    var routeUser: Option<RouteUser>
    const auth: Authorization
    const lpas: VersionedCollection<int, LpaBody>

    constructor (auth: Authorization, lpas: VersionedCollection<int, LpaBody>)
      ensures lpa == null && routeUser == None
      ensures this.auth == auth && this.lpas == lpas
    {
      lpa := null;
      routeUser := None;
      this.auth := auth;
      this.lpas := lpas;
    }

    method SetRouteUser(user: RouteUser)
      modifies this
      ensures routeUser == Some(user) && lpa == old(lpa)
    {
      routeUser := Some(user);
    }

    method SetLpa(l: Lpa)
      modifies this
      ensures lpa == l && routeUser == old(routeUser)
    {
      lpa := l;
    }

    /** Throws 'Route User not set' until a route user has been set. */
    function GetRouteUser(): (r: Result<RouteUser>)
      reads this
      ensures r.Ok? <==> routeUser.Some?
      ensures r.Ok? ==> r.value == routeUser.value
      ensures r.Err? ==> r.failure == RouteUserNotSet
    {
      if routeUser.Some? then Ok(routeUser.value) else Err(RouteUserNotSet)
    }

    /** Throws 'LPA not set' until an LPA has been set. */
    function GetLpa(): (r: Result<Lpa>)
      reads this
      ensures r.Ok? <==> lpa != null
      ensures r.Ok? ==> r.value == lpa
      ensures r.Err? ==> r.failure == LpaNotSet
    {
      if lpa != null then Ok(lpa) else Err(LpaNotSet)
    }

    /** `checkAccess($userId)`: a missing user id means the route user's, and asking for
        it throws when there is none; then being authenticated is checked before being
        allowed to manage that user. `None` means access is granted. */
    function CheckAccess(userId: Option<UserId>): (r: Option<Failure>)
      reads this
      ensures r == Some(RouteUserNotSet) <==> userId.None? && routeUser.None?
      ensures r == Some(Unauthenticated) <==> (userId.Some? || routeUser.Some?) && !auth.authenticated
      ensures r == Some(Forbidden) <==>
        && auth.authenticated
        && ((userId.Some? && userId.value !in auth.manages)
            || (userId.None? && routeUser.Some? && routeUser.value.userId !in auth.manages))
      ensures r.None? <==>
        && auth.authenticated
        && ((userId.Some? && userId.value in auth.manages)
            || (userId.None? && routeUser.Some? && routeUser.value.userId in auth.manages))
    {
      var subject :=
        if userId.Some? then Ok(userId.value)
        else match GetRouteUser()
          case Ok(u) => Ok(u.userId)
          case Err(f) => Err(f);
      if subject.Err? then Some(subject.failure)
      else if !auth.authenticated then Some(Unauthenticated)
      else if subject.value !in auth.manages then Some(Forbidden)
      else None
    }

    /** `updateLpa($lpa)`: after the access check, the loaded marker is kept, the object's
        `updatedAt` becomes `now` (even if the write then fails), and the object is written
        only over the stored version carrying the loaded marker. Anything other than one
        modified document is a failure; there is no retry. */
    method UpdateLpa(l: Lpa, now: int) returns (r: Option<Failure>)
      modifies l, lpas
      ensures CheckAccess(None).Some? ==>
        r == CheckAccess(None) && unchanged(l) && lpas.docs == old(lpas.docs)
      ensures CheckAccess(None).None? ==>
        && l.updatedAt == now
        && l.user == old(l.user) && l.document == old(l.document) && l.other == old(l.other)
        && lpas.docs == CasStore(old(lpas.docs), l.id, old(l.updatedAt), l.ToMongo())
        && (r.None? <==> CasModified(old(lpas.docs), l.id, old(l.updatedAt), l.ToMongo()))
        && (r.Some? ==> r == Some(StaleWrite))
    {
      r := CheckAccess(None);
      if r.Some? {
        return;
      }
      var lastUpdated := l.updatedAt;
      l.updatedAt := now;
      var n := lpas.Update(l.id, lastUpdated, l.ToMongo());
      if n != 1 {
        r := Some(StaleWrite);
      }
    }
  }
}
