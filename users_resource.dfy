/** The version-1 users resource: the "about me" record of an API user. Reading a user
    that does not exist yet creates it; saving merges the client's fields over the stored
    ones, except the fields the client may never set, and writes back with the conditional
    write on `updatedAt`. The user's email always comes from the authenticated identity. */
module UsersResource {
  import opened Common
  import opened RestResource

  /** What the users collection stores besides `_id` and `updatedAt`. */
  datatype UserBody = UserBody(createdAt: int, email: string, details: Doc)

  /** A `User` data-model object. */
  datatype User = User(id: UserId, createdAt: int, updatedAt: int, email: string, details: Doc)

  /** The outcome of `save`: the user, a validation problem, or an exception. */
  datatype SaveResult = Saved(user: User) | Invalid | Failed(failure: Failure)

  /** The keys the client may never set. */
  const PROTECTED: set<string> := {"id", "email", "createdAt", "updatedAt"}

  /** The client's data without the protected keys. */
  function Unprotected(data: Doc): (r: Doc)
    ensures r.Keys == data.Keys - PROTECTED
    ensures forall k :: k in r ==> r[k] == data[k]
  {
    map k | k in data && k !in PROTECTED :: data[k]
  }

  /** The user `save` builds before validating: a new user stamped `now`, or the stored
      one with the client's fields merged over it; the email is the identity's. */
  function Build(id: UserId, stored: Option<Versioned<UserBody>>, data: Doc, email: string, now: int): (u: User)
    ensures u.id == id && u.email == email
    ensures stored.None? ==> u.createdAt == now && u.updatedAt == now
    ensures stored.Some? ==> u.createdAt == stored.value.body.createdAt && u.updatedAt == stored.value.updatedAt
    ensures forall k :: k in data && k !in PROTECTED ==> k in u.details && u.details[k] == data[k]
    ensures stored.None? ==> u.details.Keys == data.Keys - PROTECTED
    ensures stored.Some? ==> u.details.Keys == stored.value.body.details.Keys + (data.Keys - PROTECTED)
    ensures stored.Some? ==> forall k :: k in stored.value.body.details && k !in data ==>
      u.details[k] == stored.value.body.details[k]
  {
    match stored
    case None => User(id, now, now, email, Unprotected(data))
    case Some(s) => User(id, s.body.createdAt, s.updatedAt, email, s.body.details + Unprotected(data))
  }

  /** Whatever the client sends under a protected key makes no difference to the user. */
  lemma ProtectedKeysIgnored(id: UserId, stored: Option<Versioned<UserBody>>, data: Doc, k: string, v: Value, email: string, now: int)
    requires k in PROTECTED
    ensures Build(id, stored, data[k := v], email, now) == Build(id, stored, data, email, now)
  {
    assert Unprotected(data[k := v]) == Unprotected(data);
  }

  /** `toMongoArray()` of a user. */
  function UserToMongo(u: User): Versioned<UserBody>
  {
    Versioned(u.updatedAt, UserBody(u.createdAt, u.email, u.details))
  }

  /** A saved user reads back as it was written. */
  lemma SavedUserReadsBack(u: User)
    ensures Build(u.id, Some(UserToMongo(u)), map[], u.email, 0) == u
  {
    assert u.details + Unprotected(map[]) == u.details;
  }

  class UsersResource {
    const base: Resource
    const users: VersionedCollection<UserId, UserBody>

    constructor (base: Resource, users: VersionedCollection<UserId, UserBody>)
      ensures this.base == base && this.users == users
    {
      this.base := base;
      this.users := users;
    }

    /** `save($id, $data)`: a new user is inserted; an existing one is written with the
        conditional write on the `updatedAt` it was read with, stamped `now`, and anything
        but one modified document is a failure. A user that fails validation is not
        written. `valid` is the data model's validation. */
    method Save(id: UserId, data: Option<Doc>, email: string, now: int, valid: User -> bool) returns (r: SaveResult)
      modifies users
      ensures base.CheckAccess(Some(id)).Some? ==>
        r == Failed(base.CheckAccess(Some(id)).value) && users.docs == old(users.docs)
      ensures base.CheckAccess(Some(id)).None? ==>
        var built := Build(id, if id in old(users.docs) then Some(old(users.docs)[id]) else None,
                           if data.Some? then data.value else map[], email, now);
        && (r == Invalid <==> !valid(built))
        && (r == Invalid ==> users.docs == old(users.docs))
        && (valid(built) && id !in old(users.docs) ==>
              r == Saved(built) && users.docs == old(users.docs)[id := UserToMongo(built)])
        && (valid(built) && id in old(users.docs) ==>
              && users.docs == old(users.docs)[id := UserToMongo(built.(updatedAt := now))]
              && (r == Saved(built.(updatedAt := now)) <==> old(users.docs)[id] != UserToMongo(built.(updatedAt := now)))
              && (r != Saved(built.(updatedAt := now)) ==> r == Failed(StaleWrite)))
    {
      var denied := base.CheckAccess(Some(id));
      if denied.Some? {
        return Failed(denied.value);
      }
      var stored := users.FindOne(id);
      var clientData := if data.Some? then data.value else map[];
      var user := Build(id, stored, clientData, email, now);
      if !valid(user) {
        return Invalid;
      }
      if stored.None? {
        var _ := users.Insert(id, UserToMongo(user));
        r := Saved(user);
      } else {
        var lastUpdated := user.updatedAt;
        user := user.(updatedAt := now);
        var n := users.Update(user.id, lastUpdated, UserToMongo(user));
        if n != 1 {
          return Failed(StaleWrite);
        }
        r := Saved(user);
      }
    }

    /** `fetch($id)`: a stored user comes back with the identity's email and becomes the
        route user; a missing one is created by `save` first. */
    method Fetch(id: UserId, email: string, now: int, valid: User -> bool) returns (r: SaveResult)
      modifies base, users
      ensures base.lpa == old(base.lpa)
      ensures old(base.CheckAccess(Some(id))).Some? ==>
        r == Failed(old(base.CheckAccess(Some(id))).value) && users.docs == old(users.docs)
      ensures old(base.CheckAccess(Some(id))).None? && id in old(users.docs) ==>
        && r == Saved(Build(id, Some(old(users.docs)[id]), map[], email, now))
        && users.docs == old(users.docs)
      ensures old(base.CheckAccess(Some(id))).None? && id !in old(users.docs) ==>
        var built := Build(id, None, map[], email, now);
        && (valid(built) ==> r == Saved(built) && users.docs == old(users.docs)[id := UserToMongo(built)])
        && (!valid(built) ==> r == Invalid && users.docs == old(users.docs))
      ensures r.Saved? ==> base.routeUser == Some(RouteUser(id))
      ensures !r.Saved? ==> base.routeUser == old(base.routeUser)
    {
      var denied := base.CheckAccess(Some(id));
      if denied.Some? {
        return Failed(denied.value);
      }
      var stored := users.FindOne(id);
      if stored.None? {
        r := Save(id, None, email, now, valid);
      } else {
        r := Saved(Build(id, stored, map[], email, now));
      }
      if r.Saved? {
        base.SetRouteUser(RouteUser(id));
      }
    }

    /** `update($data, $id)`: anything `save` returns other than a user is passed through
        unchanged; a saved user becomes the route user. */
    method Update(data: Option<Doc>, id: UserId, email: string, now: int, valid: User -> bool) returns (r: SaveResult)
      modifies base, users
      ensures base.lpa == old(base.lpa)
      ensures old(base.CheckAccess(Some(id))).Some? ==>
        r == Failed(old(base.CheckAccess(Some(id))).value) && users.docs == old(users.docs)
      ensures old(base.CheckAccess(Some(id))).None? ==>
        var built := Build(id, if id in old(users.docs) then Some(old(users.docs)[id]) else None,
                           if data.Some? then data.value else map[], email, now);
        && (r == Invalid <==> !valid(built))
        && (r == Invalid ==> users.docs == old(users.docs))
        && (valid(built) && id !in old(users.docs) ==>
              r == Saved(built) && users.docs == old(users.docs)[id := UserToMongo(built)])
        && (valid(built) && id in old(users.docs) ==>
              && users.docs == old(users.docs)[id := UserToMongo(built.(updatedAt := now))]
              && (r == Saved(built.(updatedAt := now)) <==> old(users.docs)[id] != UserToMongo(built.(updatedAt := now)))
              && (r != Saved(built.(updatedAt := now)) ==> r == Failed(StaleWrite)))
      ensures r.Saved? ==> r.user.id == id && r.user.email == email && base.routeUser == Some(RouteUser(id))
      ensures !r.Saved? ==> base.routeUser == old(base.routeUser)
    {
      var denied := base.CheckAccess(Some(id));
      if denied.Some? {
        return Failed(denied.value);
      }
      r := Save(id, data, email, now, valid);
      if r.Saved? {
        base.SetRouteUser(RouteUser(id));
      }
    }

    /** `delete($id)`: removes the user's record and answers true. */
    method Delete(id: UserId) returns (r: Option<Failure>)
      modifies users
      ensures base.CheckAccess(Some(id)).Some? ==>
        r == base.CheckAccess(Some(id)) && users.docs == old(users.docs)
      ensures base.CheckAccess(Some(id)).None? ==> r.None? && users.docs == old(users.docs) - {id}
    {
      r := base.CheckAccess(Some(id));
      if r.None? {
        users.Remove(id);
      }
    }
  }
}
