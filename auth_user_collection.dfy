/** The auth user collection: one Mongo document per account, keyed by `_id`.
    Every mutator is a single `updateOne`/`replaceOne`/`insertOne` on one document,
    and every lookup a single filtered `findOne` or `find`. */
module AuthUsers {
  import opened Common

  /** `auth_token` sub-document. `extendAuthToken` on an account without a token creates
      one holding only `updatedAt` and `expiresAt`, hence the optional parts. */
  datatype AuthToken = AuthToken(token: Option<string>, createdAt: Option<int>, updatedAt: int, expiresAt: int)

  /** Token details as stored for a password reset or an email change. */
  datatype TokenDetails = TokenDetails(token: string, expiresIn: int, expiresAt: int)

  /** `email_update_request`: the token details and the pending new identity. */
  datatype EmailUpdateRequest = EmailUpdateRequest(token: TokenDetails, email: string)

  /** The `active` field: `true`, the legacy string `'Y'`, `false`, or absent. */
  datatype Activation = ActiveTrue | ActiveY | ActiveFalse | ActiveAbsent

  /** `last_login` is a store date, or an integer timestamp in older documents. */
  datatype LoginTime = LoginDate(at: int) | LoginTimestamp(at: int)

  /** One stored document, without its `_id` (the key of the collection map).
      An absent `inactivity_flags` field is the empty set; an absent
      `failed_login_attempts` field is 0 (the only update to it is `$inc` or a reset). */
  datatype Account = Account(
    identity: Option<string>,
    passwordHash: Option<string>,
    active: Activation,
    activationToken: Option<string>,
    activated: Option<int>,
    created: Option<int>,
    lastLogin: Option<LoginTime>,
    lastFailedLogin: Option<int>,
    lastUpdated: Option<int>,
    failedLoginAttempts: int,
    inactivityFlags: set<string>,
    authToken: Option<AuthToken>,
    resetToken: Option<TokenDetails>,
    emailUpdate: Option<EmailUpdateRequest>,
    deletedAt: Option<int>)

  /** What the collection hands back: the `User` wrapper around one document. */
  datatype User = User(id: UserId, account: Account)

  type Store = map<UserId, Account>

  // ---------------------------------------------------------------------------
  // Filters used by the queries

  function AuthTokenValue(a: Account): Option<string>
  {
    if a.authToken.Some? then a.authToken.value.token else None
  }

  /** `['auth_token.token' => $token]` (no expiry check). */
  predicate HoldsAuthToken(a: Account, token: string)
  {
    AuthTokenValue(a) == Some(token)
  }

  /** `password_reset_token.token == $token` and `password_reset_token.expiresAt > now`. */
  predicate HoldsLiveResetToken(a: Account, token: string, now: int)
  {
    a.resetToken.Some? && a.resetToken.value.token == token && a.resetToken.value.expiresAt > now
  }

  /** `email_update_request.token.token == $token` and its `expiresAt > now`. */
  predicate HoldsLiveEmailToken(a: Account, token: string, now: int)
  {
    a.emailUpdate.Some? && a.emailUpdate.value.token.token == token
    && a.emailUpdate.value.token.expiresAt > now
  }

  /** `last_login < $since`, whether stored as a date or as an integer timestamp. */
  predicate LoggedInBefore(a: Account, since: int)
  {
    a.lastLogin.Some? && a.lastLogin.value.at < since
  }

  /** The filter of `getAccountsInactiveSince($since, $excludeFlag)`. */
  predicate InactiveSince(a: Account, since: int, excludeFlag: Option<string>)
  {
    LoggedInBefore(a, since) && (excludeFlag.Some? ==> excludeFlag.value !in a.inactivityFlags)
  }

  /** The filter of `getAccountsUnactivatedOlderThan`: `active != true` (absent matches)
      and `created < $olderThan` (absent does not match). */
  predicate UnactivatedOlderThan(a: Account, olderThan: int)
  {
    a.active != ActiveTrue && a.created.Some? && a.created.value < olderThan
  }

  /** Not deleted: `identity` exists. */
  predicate IsLive(a: Account)
  {
    a.identity.Some?
  }

  /** Activated in the sense of `countActivatedAccounts`: `true` or the legacy `'Y'`. */
  predicate IsActivated(a: Account)
  {
    a.active == ActiveTrue || a.active == ActiveY
  }

  /** The store's unique index on `auth_token.token`. */
  ghost predicate AuthTokensUnique(m: Store)
  {
    forall a, b :: a in m && b in m && a != b && AuthTokenValue(m[a]).Some?
      ==> AuthTokenValue(m[a]) != AuthTokenValue(m[b])
  }

  /** `u` is an answer `findOne` may give for filter `p` on `m`. */
  ghost predicate FoundOne(m: Store, u: Option<User>, p: Account -> bool)
  {
    match u
    case Some(x) => x.id in m && m[x.id] == x.account && p(x.account)
    case None => forall id :: id in m ==> !p(m[id])
  }

  /** The documents `find` returns for filter `p`. */
  function Select(m: Store, p: Account -> bool): (r: Store)
    ensures forall id :: id in r <==> id in m && p(m[id])
    ensures forall id :: id in r ==> r[id] == m[id]
  {
    map id | id in m && p(m[id]) :: m[id]
  }

  /** The documents `getAccountsInactiveSince($since, $excludeFlag)` returns. */
  function InactiveAccounts(m: Store, since: int, excludeFlag: Option<string>): (r: Store)
    ensures forall id :: id in r <==> id in m && InactiveSince(m[id], since, excludeFlag)
    ensures forall id :: id in r ==> r[id] == m[id]
  {
    Select(m, (a: Account) => InactiveSince(a, since, excludeFlag))
  }

  /** The documents `getAccountsUnactivatedOlderThan($olderThan)` returns. */
  function UnactivatedAccounts(m: Store, olderThan: int): (r: Store)
    ensures forall id :: id in r <==> id in m && UnactivatedOlderThan(m[id], olderThan)
    ensures forall id :: id in r ==> r[id] == m[id]
  {
    Select(m, (a: Account) => UnactivatedOlderThan(a, olderThan))
  }

  // ---------------------------------------------------------------------------
  // The updates, one function per `updateOne` document

  /** `$set last_login = now`, `$unset inactivity_flags`. */
  function LoggedIn(a: Account, now: int): Account
  {
    a.(lastLogin := Some(LoginDate(now)), inactivityFlags := {})
  }

  /** `$set failed_login_attempts = 0`. */
  function FailedLoginsReset(a: Account): Account
  {
    a.(failedLoginAttempts := 0)
  }

  /** `$inc failed_login_attempts`, `$set last_failed_login = now`. */
  function FailedLoginCounted(a: Account, now: int): Account
  {
    a.(failedLoginAttempts := a.failedLoginAttempts + 1, lastFailedLogin := Some(now))
  }

  /** The replacement document of `delete`: only `_id` (the key) and `deletedAt`. */
  function Tombstone(now: int): Account
  {
    Account(None, None, ActiveAbsent, None, None, None, None, None, None, 0, {}, None, None, None, Some(now))
  }

  /** `$set active, activated, last_updated`, `$unset activation_token`. */
  function Activated(a: Account, now: int): Account
  {
    a.(active := ActiveTrue, activated := Some(now), lastUpdated := Some(now), activationToken := None)
  }

  /** `$set password_hash, last_updated`, `$unset auth_token`. */
  function PasswordSet(a: Account, hash: string, now: int): Account
  {
    a.(passwordHash := Some(hash), lastUpdated := Some(now), authToken := None)
  }

  /** `$unset auth_token`. */
  function AuthTokenRemoved(a: Account): Account
  {
    a.(authToken := None)
  }

  /** `modifyAuthToken`: always `auth_token.updatedAt = now` and `auth_token.expiresAt`;
      with a new token also `auth_token.token` and `auth_token.createdAt = now`. */
  function AuthTokenModified(a: Account, expires: int, now: int, newToken: Option<string>): Account
  {
    var prev := a.authToken;
    var token := if newToken.Some? then newToken else if prev.Some? then prev.value.token else None;
    var createdAt := if newToken.Some? then Some(now) else if prev.Some? then prev.value.createdAt else None;
    a.(authToken := Some(AuthToken(token, createdAt, now, expires)))
  }

  /** `$set password_reset_token`. */
  function ResetTokenAdded(a: Account, details: TokenDetails): Account
  {
    a.(resetToken := Some(details))
  }

  /** The update of `updatePasswordUsingToken`. */
  function PasswordSetFromToken(a: Account, hash: string, now: int): Account
  {
    a.(passwordHash := Some(hash), lastUpdated := Some(now), resetToken := None, authToken := None)
  }

  /** `$set email_update_request = {token, email}`. */
  function EmailRequestAdded(a: Account, details: TokenDetails, email: string): Account
  {
    a.(emailUpdate := Some(EmailUpdateRequest(details, email)))
  }

  /** The update of `updateEmailUsingToken`: identity becomes the pending email. */
  function IdentityChanged(a: Account, email: string, now: int): Account
  {
    a.(identity := Some(email), lastUpdated := Some(now), emailUpdate := None)
  }

  /** `$addToSet inactivity_flags`. */
  function FlagAdded(a: Account, flag: string): Account
  {
    a.(inactivityFlags := a.inactivityFlags + {flag})
  }

  /** Mongo's modified count for that update: the document existed and actually changed. */
  predicate Modified(m: Store, id: UserId, a: Account)
  {
    id in m && m[id] != a
  }

  // ---------------------------------------------------------------------------
  // Counting (the `count` queries)

  function LiveIds(m: Store): set<UserId>
  {
    set id | id in m && IsLive(m[id])
  }

  function DeletedIds(m: Store): set<UserId>
  {
    set id | id in m && !IsLive(m[id])
  }

  /** `countAccounts` and `countDeletedAccounts` split the collection on "identity exists". */
  lemma CountsPartition(m: Store)
    ensures |LiveIds(m)| + |DeletedIds(m)| == |m|
  {
    assert LiveIds(m) !! DeletedIds(m);
    assert LiveIds(m) + DeletedIds(m) == m.Keys;
    assert |m.Keys| == |m|;
  }

  /** Deleting a live account moves exactly one document from one count to the other. */
  lemma DeleteMovesCount(m: Store, id: UserId, now: int)
    requires id in m && IsLive(m[id])
    ensures |LiveIds(m[id := Tombstone(now)])| == |LiveIds(m)| - 1
    ensures |DeletedIds(m[id := Tombstone(now)])| == |DeletedIds(m)| + 1
  {
    var m' := m[id := Tombstone(now)];
    assert LiveIds(m') == LiveIds(m) - {id};
    assert DeletedIds(m') == DeletedIds(m) + {id};
  }

  /** A deleted document matches none of the collection's lookups or scans. */
  lemma TombstoneMatchesNothing(now: int, token: string, since: int, flag: Option<string>, t: int)
    ensures !IsLive(Tombstone(now)) && !IsActivated(Tombstone(now))
    ensures !HoldsAuthToken(Tombstone(now), token)
    ensures !HoldsLiveResetToken(Tombstone(now), token, t)
    ensures !HoldsLiveEmailToken(Tombstone(now), token, t)
    ensures !InactiveSince(Tombstone(now), since, flag)
    ensures !UnactivatedOlderThan(Tombstone(now), since)
  {
  }

  // ---------------------------------------------------------------------------
  // Token lifecycle properties

  /** A successful password reset leaves no usable reset token and no auth token on that
      account; if no other account held the same reset token, the token is now useless. */
  lemma ResetTokenSingleUse(m: Store, id: UserId, token: string, hash: string, now: int, later: int)
    requires id in m && HoldsLiveResetToken(m[id], token, now)
    requires forall o :: o in m && o != id ==> !HoldsLiveResetToken(m[o], token, later)
    ensures var m' := m[id := PasswordSetFromToken(m[id], hash, now)];
      && m'[id].authToken.None?
      && m'[id].passwordHash == Some(hash)
      && forall o :: o in m' ==> !HoldsLiveResetToken(m'[o], token, later)
  {
    var m' := m[id := PasswordSetFromToken(m[id], hash, now)];
    forall o | o in m' ensures !HoldsLiveResetToken(m'[o], token, later) {
      if o != id { assert m'[o] == m[o]; }
    }
  }

  /** Issuing a new auth token for an account makes its previous token unusable. */
  lemma NewAuthTokenRevokesOld(m: Store, id: UserId, oldToken: string, newToken: string, expires: int, now: int)
    requires AuthTokensUnique(m)
    requires id in m && HoldsAuthToken(m[id], oldToken) && oldToken != newToken
    ensures var m' := m[id := AuthTokenModified(m[id], expires, now, Some(newToken))];
      forall o :: o in m' ==> !HoldsAuthToken(m'[o], oldToken)
  {
    var m' := m[id := AuthTokenModified(m[id], expires, now, Some(newToken))];
    forall o | o in m' ensures !HoldsAuthToken(m'[o], oldToken) {
      if o != id {
        assert AuthTokenValue(m[id]) != AuthTokenValue(m[o]);
      }
    }
  }

  /** Extending keeps the token and its creation time; only `updatedAt` and `expiresAt` change. */
  lemma ExtendKeepsToken(a: Account, expires: int, now: int)
    requires a.authToken.Some?
    ensures var t := AuthTokenModified(a, expires, now, None).authToken.value;
      t.token == a.authToken.value.token && t.createdAt == a.authToken.value.createdAt
      && t.updatedAt == now && t.expiresAt == expires
  {
  }

  /** `$addToSet` has set semantics: adding a flag twice is adding it once. */
  lemma FlagAddedIdempotent(a: Account, flag: string)
    ensures FlagAdded(FlagAdded(a, flag), flag) == FlagAdded(a, flag)
  {
  }

  /** Once flagged, an account is excluded from every scan that excludes that flag, and a
      login clears the flags so the scans see it again. */
  lemma FlagExcludesFromScan(a: Account, flag: string, since: int, now: int)
    ensures !InactiveSince(FlagAdded(a, flag), since, Some(flag))
    ensures flag !in LoggedIn(a, now).inactivityFlags
  {
  }

  // ---------------------------------------------------------------------------
  // The collection object

  class AuthUserCollection {
    var docs: Store

    ghost predicate Valid()
      reads this
    {
      AuthTokensUnique(docs)
    }

    constructor (initial: Store)
      requires AuthTokensUnique(initial)
      ensures Valid() && docs == initial
    {
      docs := initial;
    }

    /** `findOne` with filter `p`: some matching document, or null when none matches. */
    method FindOne(p: Account -> bool) returns (u: Option<User>)
      ensures FoundOne(docs, u, p)
    {
      if exists id :: id in docs && p(docs[id]) {
        var id :| id in docs && p(docs[id]);
        u := Some(User(id, docs[id]));
      } else {
        u := None;
      }
    }

    method GetByUsername(username: string) returns (u: Option<User>)
      ensures FoundOne(docs, u, (a: Account) => a.identity == Some(username))
    {
      u := FindOne((a: Account) => a.identity == Some(username));
    }

    method GetById(id: UserId) returns (u: Option<User>)
      ensures u.Some? <==> id in docs
      ensures u.Some? ==> u.value == User(id, docs[id])
    {
      u := if id in docs then Some(User(id, docs[id])) else None;
    }

    /** No expiry check here: that is the authentication service's job. */
    method GetByAuthToken(token: string) returns (u: Option<User>)
      ensures FoundOne(docs, u, (a: Account) => HoldsAuthToken(a, token))
    {
      u := FindOne((a: Account) => HoldsAuthToken(a, token));
    }

    /** The stored expiry must be strictly after `now`. */
    method GetByResetToken(token: string, now: int) returns (u: Option<User>)
      ensures FoundOne(docs, u, (a: Account) => HoldsLiveResetToken(a, token, now))
    {
      u := FindOne((a: Account) => HoldsLiveResetToken(a, token, now));
    }

    method UpdateLastLoginTime(id: UserId, now: int)
      requires Valid()
      modifies this
      ensures Valid()
      ensures id in old(docs) ==> docs == old(docs)[id := LoggedIn(old(docs)[id], now)]
      ensures id !in old(docs) ==> docs == old(docs)
    {
      if id in docs { docs := docs[id := LoggedIn(docs[id], now)]; }
    }

    method ResetFailedLoginCounter(id: UserId)
      requires Valid()
      modifies this
      ensures Valid()
      ensures id in old(docs) ==> docs == old(docs)[id := FailedLoginsReset(old(docs)[id])]
      ensures id !in old(docs) ==> docs == old(docs)
    {
      if id in docs { docs := docs[id := FailedLoginsReset(docs[id])]; }
    }

    method IncrementFailedLoginCounter(id: UserId, now: int)
      requires Valid()
      modifies this
      ensures Valid()
      ensures id in old(docs) ==> docs == old(docs)[id := FailedLoginCounted(old(docs)[id], now)]
      ensures id !in old(docs) ==> docs == old(docs)
    {
      if id in docs { docs := docs[id := FailedLoginCounted(docs[id], now)]; }
    }

    /** `insertOne`; an `_id` clash or a clash on the auth token index is caught: false. */
    method Create(id: UserId, details: Account) returns (ok: bool)
      requires Valid()
      modifies this
      ensures Valid()
      ensures ok <==>
        && id !in old(docs)
        && (AuthTokenValue(details).Some? ==> forall o :: o in old(docs) ==> AuthTokenValue(old(docs)[o]) != AuthTokenValue(details))
      ensures docs == if ok then old(docs)[id := details] else old(docs)
    {
      if id in docs || (AuthTokenValue(details).Some? && exists o :: o in docs && AuthTokenValue(docs[o]) == AuthTokenValue(details)) {
        ok := false;
      } else {
        docs := docs[id := details];
        ok := true;
      }
    }

    /** Soft delete: null for an unknown id; otherwise the document becomes `{_id, deletedAt}`. */
    method Delete(id: UserId, now: int) returns (r: Option<bool>)
      requires Valid()
      modifies this
      ensures Valid()
      ensures r == None <==> id !in old(docs)
      ensures r != None ==> r == Some(true) && docs == old(docs)[id := Tombstone(now)]
      ensures r == None ==> docs == old(docs)
    {
      if id !in docs {
        r := None;
      } else {
        docs := docs[id := Tombstone(now)];
        r := Some(true);
      }
    }

    /** null when no account holds the activation token; otherwise "exactly one modified". */
    method Activate(token: string, now: int) returns (r: Option<bool>)
      requires Valid()
      modifies this
      ensures Valid()
      ensures r.None? ==> docs == old(docs) && forall id :: id in docs ==> docs[id].activationToken != Some(token)
      ensures r.Some? ==>
        exists id ::
          && id in old(docs) && old(docs)[id].activationToken == Some(token)
          && docs == old(docs)[id := Activated(old(docs)[id], now)]
          && (r.value <==> Modified(old(docs), id, Activated(old(docs)[id], now)))
    {
      var u := FindOne((a: Account) => a.activationToken == Some(token));
      if u.None? {
        r := None;
      } else {
        var id := u.value.id;
        var a := Activated(docs[id], now);
        r := Some(Modified(docs, id, a));
        docs := docs[id := a];
      }
    }

    /** Replaces the hash and always removes the auth token; nothing else changes. */
    method SetNewPassword(id: UserId, hash: string, now: int) returns (ok: bool)
      requires Valid()
      modifies this
      ensures Valid()
      ensures id in old(docs) ==> docs == old(docs)[id := PasswordSet(old(docs)[id], hash, now)]
      ensures id !in old(docs) ==> docs == old(docs)
      ensures ok <==> id in old(docs) && Modified(old(docs), id, PasswordSet(old(docs)[id], hash, now))
    {
      if id in docs {
        var a := PasswordSet(docs[id], hash, now);
        ok := Modified(docs, id, a);
        docs := docs[id := a];
      } else {
        ok := false;
      }
    }

    /** Unsets `auth_token` on the account holding the token (at most one, by the index);
        reports only that the write was acknowledged. */
    method RemoveAuthToken(token: string) returns (ok: bool)
      requires Valid()
      modifies this
      ensures Valid() && ok
      ensures (forall id :: id in old(docs) ==> !HoldsAuthToken(old(docs)[id], token)) ==> docs == old(docs)
      ensures forall id ::
          id in old(docs) && HoldsAuthToken(old(docs)[id], token)
          ==> docs == old(docs)[id := AuthTokenRemoved(old(docs)[id])]
    {
      var u := FindOne((a: Account) => HoldsAuthToken(a, token));
      if u.Some? {
        var id := u.value.id;
        docs := docs[id := AuthTokenRemoved(docs[id])];
        assert forall o :: o in old(docs) && HoldsAuthToken(old(docs)[o], token) ==> o == id;
      }
      ok := true;
    }

    /** Shared by `setAuthToken` and `extendAuthToken`: true only when exactly one document
        was modified; a clash on the token index is caught and gives false. */
    method ModifyAuthToken(id: UserId, expires: int, now: int, newToken: Option<string>) returns (ok: bool)
      requires Valid()
      modifies this
      ensures Valid()
      ensures var clash := newToken.Some? && exists o :: o in old(docs) && o != id && AuthTokenValue(old(docs)[o]) == newToken;
        && (clash || id !in old(docs) ==> docs == old(docs) && !ok)
        && (!clash && id in old(docs) ==>
              docs == old(docs)[id := AuthTokenModified(old(docs)[id], expires, now, newToken)]
              && (ok <==> Modified(old(docs), id, AuthTokenModified(old(docs)[id], expires, now, newToken))))
    {
      var clash := newToken.Some? && exists o :: o in docs && o != id && AuthTokenValue(docs[o]) == newToken;
      if clash || id !in docs {
        ok := false;
      } else {
        var a := AuthTokenModified(docs[id], expires, now, newToken);
        ok := Modified(docs, id, a);
        docs := docs[id := a];
        forall x, y | x in docs && y in docs && x != y && AuthTokenValue(docs[x]).Some?
          ensures AuthTokenValue(docs[x]) != AuthTokenValue(docs[y])
        {
          if x != id && y != id {
            assert AuthTokenValue(old(docs)[x]) != AuthTokenValue(old(docs)[y]);
          }
        }
      }
    }

    /** Overwrites token and `createdAt`, and sets `updatedAt` and `expiresAt`. */
    method SetAuthToken(id: UserId, expires: int, token: string, now: int) returns (ok: bool)
      requires Valid()
      modifies this
      ensures Valid()
      ensures var clash := exists o :: o in old(docs) && o != id && AuthTokenValue(old(docs)[o]) == Some(token);
        && (clash || id !in old(docs) ==> docs == old(docs) && !ok)
        && (!clash && id in old(docs) ==>
              docs == old(docs)[id := AuthTokenModified(old(docs)[id], expires, now, Some(token))]
              && (ok <==> Modified(old(docs), id, AuthTokenModified(old(docs)[id], expires, now, Some(token)))))
    {
      ok := ModifyAuthToken(id, expires, now, Some(token));
    }

    /** Changes only `updatedAt` and `expiresAt` of the token. */
    method ExtendAuthToken(id: UserId, expires: int, now: int) returns (ok: bool)
      requires Valid()
      modifies this
      ensures Valid()
      ensures id !in old(docs) ==> docs == old(docs) && !ok
      ensures id in old(docs) ==>
        docs == old(docs)[id := AuthTokenModified(old(docs)[id], expires, now, None)]
        && (ok <==> Modified(old(docs), id, AuthTokenModified(old(docs)[id], expires, now, None)))
    {
      ok := ModifyAuthToken(id, expires, now, None);
    }

    method AddPasswordResetToken(id: UserId, details: TokenDetails)
      requires Valid()
      modifies this
      ensures Valid()
      ensures id in old(docs) ==> docs == old(docs)[id := ResetTokenAdded(old(docs)[id], details)]
      ensures id !in old(docs) ==> docs == old(docs)
    {
      if id in docs { docs := docs[id := ResetTokenAdded(docs[id], details)]; }
    }

    /** 'invalid-token' and no change without a live reset token; otherwise the password
        update, reported as "exactly one modified". */
    method UpdatePasswordUsingToken(token: string, hash: string, now: int) returns (r: TokenUpdate)
      requires Valid()
      modifies this
      ensures Valid()
      ensures r == InvalidToken <==> forall id :: id in old(docs) ==> !HoldsLiveResetToken(old(docs)[id], token, now)
      ensures r == InvalidToken ==> docs == old(docs)
      ensures r.Updated? ==>
        exists id ::
          && id in old(docs) && HoldsLiveResetToken(old(docs)[id], token, now)
          && docs == old(docs)[id := PasswordSetFromToken(old(docs)[id], hash, now)]
          && (r.modified <==> Modified(old(docs), id, PasswordSetFromToken(old(docs)[id], hash, now)))
    {
      var u := GetByResetToken(token, now);
      if u.None? {
        r := InvalidToken;
      } else {
        var id := u.value.id;
        var a := PasswordSetFromToken(docs[id], hash, now);
        r := Updated(Modified(docs, id, a));
        docs := docs[id := a];
      }
    }

    method AddEmailUpdateTokenAndNewEmail(id: UserId, details: TokenDetails, email: string)
      requires Valid()
      modifies this
      ensures Valid()
      ensures id in old(docs) ==> docs == old(docs)[id := EmailRequestAdded(old(docs)[id], details, email)]
      ensures id !in old(docs) ==> docs == old(docs)
    {
      if id in docs { docs := docs[id := EmailRequestAdded(docs[id], details, email)]; }
    }

    /** 'invalid-token' without an unexpired match; 'username-already-exists' (no change) if
        any account has the pending email as identity; otherwise identity becomes the
        pending email and the request is removed. On success the pre-update user is returned. */
    method UpdateEmailUsingToken(token: string, now: int) returns (r: EmailChange)
      requires Valid()
      modifies this
      ensures Valid()
      ensures r == EmailInvalidToken <==> forall id :: id in old(docs) ==> !HoldsLiveEmailToken(old(docs)[id], token, now)
      ensures r == EmailInvalidToken || r == EmailUsernameTaken ==> docs == old(docs)
      ensures r == EmailUsernameTaken ==>
        exists id, o ::
          && id in old(docs) && o in old(docs)
          && HoldsLiveEmailToken(old(docs)[id], token, now)
          && old(docs)[o].identity == Some(old(docs)[id].emailUpdate.value.email)
      ensures r.EmailChanged? || r.EmailNotModified? ==>
        exists id ::
          && id in old(docs)
          && HoldsLiveEmailToken(old(docs)[id], token, now)
          && (forall o :: o in old(docs) ==> old(docs)[o].identity != Some(old(docs)[id].emailUpdate.value.email))
          && docs == old(docs)[id := IdentityChanged(old(docs)[id], old(docs)[id].emailUpdate.value.email, now)]
          && (r.EmailChanged? <==> Modified(old(docs), id, docs[id]))
          && (r.EmailChanged? ==> r.user == User(id, old(docs)[id]))
    {
      var u := FindOne((a: Account) => HoldsLiveEmailToken(a, token, now));
      if u.None? {
        return EmailInvalidToken;
      }
      var id := u.value.id;
      var email := u.value.account.emailUpdate.value.email;
      var clash := FindOne((a: Account) => a.identity == Some(email));
      if clash.Some? {
        return EmailUsernameTaken;
      }
      var a := IdentityChanged(docs[id], email, now);
      var modified := Modified(docs, id, a);
      docs := docs[id := a];
      r := if modified then EmailChanged(u.value) else EmailNotModified;
      assert AuthTokenValue(a) == AuthTokenValue(old(docs)[id]);
    }

    /** The accounts last logged into before `since`, less those carrying `excludeFlag`. */
    method GetAccountsInactiveSince(since: int, excludeFlag: Option<string>) returns (r: Store)
      ensures r == InactiveAccounts(docs, since, excludeFlag)
    {
      r := InactiveAccounts(docs, since, excludeFlag);
    }

    /** `$addToSet`: set semantics; reports only that the write was acknowledged. */
    method SetInactivityFlag(id: UserId, flag: string) returns (ok: bool)
      requires Valid()
      modifies this
      ensures Valid() && ok
      ensures id in old(docs) ==> docs == old(docs)[id := FlagAdded(old(docs)[id], flag)]
      ensures id !in old(docs) ==> docs == old(docs)
    {
      if id in docs { docs := docs[id := FlagAdded(docs[id], flag)]; }
      ok := true;
    }

    method GetAccountsUnactivatedOlderThan(olderThan: int) returns (r: Store)
      ensures r == UnactivatedAccounts(docs, olderThan)
    {
      r := UnactivatedAccounts(docs, olderThan);
    }

    method CountAccounts() returns (n: nat)
      ensures n == |LiveIds(docs)|
      ensures n + |DeletedIds(docs)| == |docs|
    {
      CountsPartition(docs);
      n := |LiveIds(docs)|;
    }

    /** Live accounts whose `active` is `true` or `'Y'`, optionally activated since `since`. */
    method CountActivatedAccounts(since: Option<int>) returns (n: nat)
      ensures n == |set id | id in docs && IsLive(docs[id]) && IsActivated(docs[id])
                 && (since.Some? ==> docs[id].activated.Some? && docs[id].activated.value >= since.value)|
      ensures n <= |LiveIds(docs)|
    {
      var s := set id | id in docs && IsLive(docs[id]) && IsActivated(docs[id])
                 && (since.Some? ==> docs[id].activated.Some? && docs[id].activated.value >= since.value);
      SubsetCardinality(s, LiveIds(docs));
      n := |s|;
    }

    method CountDeletedAccounts() returns (n: nat)
      ensures n == |DeletedIds(docs)|
      ensures n + |LiveIds(docs)| == |docs|
    {
      CountsPartition(docs);
      n := |DeletedIds(docs)|;
    }
  }

  /** Result of `updatePasswordUsingToken`: the string 'invalid-token' or the modified flag. */
  datatype TokenUpdate = InvalidToken | Updated(modified: bool)

  /** Result of `updateEmailUsingToken`: 'invalid-token', 'username-already-exists',
      the (pre-update) user, or false when nothing was modified. */
  datatype EmailChange = EmailInvalidToken | EmailUsernameTaken | EmailChanged(user: User) | EmailNotModified
}
