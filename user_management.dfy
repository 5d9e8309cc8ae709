/** The Auth module's user management service: lookups by id and by username, soft delete
    with an audit log entry, and the identity hash that keys that log. */
module UserManagement {
  import opened Common
  import opened AuthUsers
  import opened AuthModuleLog

  // ---------------------------------------------------------------------------
  // Identity normalisation: `strtolower(trim($identity))`

  /** The characters PHP's `trim` strips by default: space, tab, newline, carriage return,
      NUL and vertical tab. */
  predicate IsBlank(c: char)
  {
    c == ' ' || c == '\t' || c == '\n' || c == '\r' || c == '\0' || c == '\U{0B}'
  }

  predicate AllBlank(s: string)
  {
    forall i :: 0 <= i < |s| ==> IsBlank(s[i])
  }

  /** Leading blanks removed: a suffix of `s`, everything cut is blank, and it does not
      start with a blank. */
  function TrimLeft(s: string): (r: string)
    ensures |r| <= |s| && r == s[|s| - |r|..]
    ensures AllBlank(s[..|s| - |r|])
    ensures r == [] || !IsBlank(r[0])
  {
    if s != [] && IsBlank(s[0]) then TrimLeft(s[1..]) else s
  }

  /** Trailing blanks removed: a prefix of `s`, everything cut is blank, and it does not
      end with a blank. */
  function TrimRight(s: string): (r: string)
    ensures |r| <= |s| && r == s[..|r|]
    ensures AllBlank(s[|r|..])
    ensures r == [] || !IsBlank(r[|r| - 1])
  {
    if s != [] && IsBlank(s[|s| - 1]) then TrimRight(s[..|s| - 1]) else s
  }

  /** `trim`: no blank at either end, and a string with none there is left as it is. */
  function Trim(s: string): (r: string)
    ensures |r| <= |s|
    ensures r == [] || (!IsBlank(r[0]) && !IsBlank(r[|r| - 1]))
    ensures s != [] && !IsBlank(s[0]) && !IsBlank(s[|s| - 1]) ==> r == s
  {
    TrimRight(TrimLeft(s))
  }

  /** `strtolower` on one character: ASCII upper case only. */
  function LowerChar(c: char): (r: char)
    ensures IsBlank(r) <==> IsBlank(c)
    ensures 'A' <= c <= 'Z' ==> 'a' <= r <= 'z' && r as int == c as int + 32
    ensures !('A' <= c <= 'Z') ==> r == c
  {
    if 'A' <= c <= 'Z' then (c as int + 32) as char else c
  }

  function Lower(s: string): (r: string)
    ensures |r| == |s|
    ensures forall i :: 0 <= i < |s| ==> r[i] == LowerChar(s[i])
  {
    seq(|s|, i requires 0 <= i < |s| => LowerChar(s[i]))
  }

  /** The form identities are compared in: trimmed and without upper-case letters. */
  function Normalise(identity: string): (r: string)
    ensures |r| <= |identity|
    ensures r == [] || (!IsBlank(r[0]) && !IsBlank(r[|r| - 1]))
    ensures forall i :: 0 <= i < |r| ==> !('A' <= r[i] <= 'Z')
  {
    Lower(Trim(identity))
  }

  /** `hash('sha512', strtolower(trim($identity)))`; the digest function is a parameter. */
  function HashIdentity(sha512: string -> string, identity: string): string
  {
    sha512(Normalise(identity))
  }

  lemma {:induction false} TrimLeftBlankPrefix(w: string, s: string)
    requires AllBlank(w)
    ensures TrimLeft(w + s) == TrimLeft(s)
    decreases |w|
  {
    if w == [] {
      assert w + s == s;
    } else {
      assert (w + s)[0] == w[0];
      assert (w + s)[1..] == w[1..] + s;
      TrimLeftBlankPrefix(w[1..], s);
    }
  }

  lemma {:induction false} TrimRightBlankSuffix(s: string, w: string)
    requires AllBlank(w)
    ensures TrimRight(s + w) == TrimRight(s)
    decreases |w|
  {
    if w == [] {
      assert s + w == s;
    } else {
      assert (s + w)[|s + w| - 1] == w[|w| - 1];
      assert (s + w)[..|s + w| - 1] == s + w[..|w| - 1];
      TrimRightBlankSuffix(s, w[..|w| - 1]);
    }
  }

  /** Appending after a string whose left trim is non-empty does not change where the
      left trim starts; after an all-blank string the left trim starts in the appendix. */
  lemma {:induction false} TrimLeftAppend(s: string, t: string)
    ensures TrimLeft(s) != [] ==> TrimLeft(s + t) == TrimLeft(s) + t
    ensures TrimLeft(s) == [] ==> TrimLeft(s + t) == TrimLeft(t)
    decreases |s|
  {
    if s == [] {
      assert s + t == t;
    } else if IsBlank(s[0]) {
      assert (s + t)[1..] == s[1..] + t;
      TrimLeftAppend(s[1..], t);
    } else {
      assert (s + t)[0] == s[0];
    }
  }

  /** Surrounding blanks never change the trimmed identity. */
  lemma TrimIgnoresPadding(w1: string, s: string, w2: string)
    requires AllBlank(w1) && AllBlank(w2)
    ensures Trim(w1 + s + w2) == Trim(s)
  {
    assert w1 + s + w2 == w1 + (s + w2);
    TrimLeftBlankPrefix(w1, s + w2);
    TrimLeftAppend(s, w2);
    if TrimLeft(s) != [] {
      TrimRightBlankSuffix(TrimLeft(s), w2);
    } else {
      TrimLeftBlankPrefix(w2, []);
      assert w2 + [] == w2;
    }
  }

  lemma {:induction false} TrimLeftLower(s: string)
    ensures TrimLeft(Lower(s)) == Lower(TrimLeft(s))
    decreases |s|
  {
    if s != [] {
      assert Lower(s)[1..] == Lower(s[1..]);
      TrimLeftLower(s[1..]);
    }
  }

  lemma {:induction false} TrimRightLower(s: string)
    ensures TrimRight(Lower(s)) == Lower(TrimRight(s))
    decreases |s|
  {
    if s != [] {
      assert Lower(s)[..|s| - 1] == Lower(s[..|s| - 1]);
      TrimRightLower(s[..|s| - 1]);
    }
  }

  /** Lower-casing and trimming commute, because no blank is an upper-case letter. */
  lemma TrimLower(s: string)
    ensures Trim(Lower(s)) == Lower(Trim(s))
  {
    TrimLeftLower(s);
    TrimRightLower(TrimLeft(s));
  }

  /** Two usernames that differ only in ASCII case and in surrounding blanks have the same
      identity hash, whatever the digest function. */
  lemma HashIgnoresCaseAndPadding(sha512: string -> string, w1: string, a: string, w2: string, b: string)
    requires AllBlank(w1) && AllBlank(w2) && Lower(a) == Lower(b)
    ensures HashIdentity(sha512, w1 + a + w2) == HashIdentity(sha512, b)
  {
    TrimIgnoresPadding(w1, a, w2);
    TrimLower(a);
    TrimLower(b);
  }

  /** Trimming twice is trimming once. */
  lemma TrimIdempotent(s: string)
    ensures Trim(Trim(s)) == Trim(s)
  {
    TrimLeftOfTrimmed(TrimLeft(s));
  }

  /** Lower-casing twice is lower-casing once. */
  lemma LowerIdempotent(s: string)
    ensures Lower(Lower(s)) == Lower(s)
  {
    forall i | 0 <= i < |s|
      ensures Lower(Lower(s))[i] == Lower(s)[i]
    {
      assert LowerChar(LowerChar(s[i])) == LowerChar(s[i]);
    }
  }

  /** Normalising twice is normalising once. */
  lemma NormaliseIdempotent(s: string)
    ensures Normalise(Normalise(s)) == Normalise(s)
  {
    var t := Trim(s);
    TrimLower(t);
    TrimIdempotent(s);
    LowerIdempotent(t);
  }

  /** Trimming a left-trimmed string on the right leaves it left-trimmed. */
  lemma TrimLeftOfTrimmed(s: string)
    requires s == [] || !IsBlank(s[0])
    ensures TrimLeft(TrimRight(s)) == TrimRight(s)
    ensures TrimRight(TrimRight(s)) == TrimRight(s)
  {
  }

  // ---------------------------------------------------------------------------
  // The service

  /** The username a stored account reports; a deleted account has none, and PHP's `trim`
      turns that null into the empty string. */
  function UsernameOf(a: Account): string
  {
    if a.identity.Some? then a.identity.value else ""
  }

  /** The audit log entry written on deletion, before the date mapping. */
  function DeletionLog(hash: string, reason: Value, now: int): (d: Doc)
    ensures HasIdentityHash(d, hash)
    ensures !reason.StoreDate? ==> NoStoreDates(d)
  {
    map["identity_hash" := Text(hash), "type" := Text("account-deleted"), "reason" := reason, "loggedAt" := DateTime(now)]
  }

  /** Result of `get`: 'user-not-found' or the user's array. */
  datatype GetResult = GetUserNotFound | GetFound(user: User)

  /** Result of `getByUsername`: the live user's array, the deletion summary
      `{isDeleted: true, deletedAt, reason}`, or false. `LogUnreadable` is the PHP error
      raised when the matching log has no store date under `loggedAt`. */
  datatype UsernameResult =
    | Live(user: User)
    | WasDeleted(deletedAt: int, reason: Value)
    | NotFound
    | LogUnreadable

  /** Result of `delete`: 'user-not-found' or true. */
  datatype DeleteResult = DeleteUserNotFound | DeleteDone

  /** What `getByUsername` makes of the deletion log it found. */
  function DeletionSummary(log: Doc): (r: UsernameResult)
    ensures r.WasDeleted? <==> "loggedAt" in log && log["loggedAt"].StoreDate?
    ensures r.WasDeleted? ==>
      r.deletedAt == log["loggedAt"].t && r.reason == (if "reason" in log then log["reason"] else Null)
    ensures !r.WasDeleted? ==> r == LogUnreadable
  {
    if "loggedAt" in log && log["loggedAt"].StoreDate? then
      WasDeleted(log["loggedAt"].t, if "reason" in log then log["reason"] else Null)
    else
      LogUnreadable
  }

  /** Once an account is deleted, its stored log carries the hash of any spelling of its
      username that normalises the same way, and reads back as a deletion at `now` for
      the given reason (as stored). */
  lemma DeletionIsFoundByUsername(sha512: string -> string, username: string, asked: string, reason: Value, now: int)
    requires Normalise(asked) == Normalise(username)
    ensures HasIdentityHash(DocToStore(DeletionLog(HashIdentity(sha512, username), reason, now)), HashIdentity(sha512, asked))
    ensures DeletionSummary(DocToStore(DeletionLog(HashIdentity(sha512, username), reason, now))) == WasDeleted(now, ToStore(reason))
  {
    var h := HashIdentity(sha512, username);
    assert h == HashIdentity(sha512, asked);
    StoredDeletionLog(h, reason, now);
  }

  /** The stored deletion log carries its hash and reads back as a deletion at `now`. */
  lemma StoredDeletionLog(h: string, reason: Value, now: int)
    ensures HasIdentityHash(DocToStore(DeletionLog(h, reason, now)), h)
    ensures DeletionSummary(DocToStore(DeletionLog(h, reason, now))) == WasDeleted(now, ToStore(reason))
  {
    var d := DeletionLog(h, reason, now);
    var e := DocToStore(d);
    assert d["identity_hash"] == Text(h) && d["loggedAt"] == DateTime(now) && d["reason"] == reason;
    assert e["identity_hash"] == Text(h);
    assert e["loggedAt"] == StoreDate(now);
    assert e["reason"] == ToStore(reason);
  }

  class UserManagementService {
    const users: AuthUserCollection
    const logs: LogCollection

    constructor (users: AuthUserCollection, logs: LogCollection)
      ensures this.users == users && this.logs == logs
    {
      this.users := users;
      this.logs := logs;
    }

    method Get(userId: UserId) returns (r: GetResult)
      ensures r == GetUserNotFound <==> userId !in users.docs
      ensures r.GetFound? ==> r.user == User(userId, users.docs[userId])
    {
      var u := users.GetById(userId);
      r := if u.None? then GetUserNotFound else GetFound(u.value);
    }

    /** A live account with that identity wins; otherwise a deletion log under the hashed
        username gives the deletion summary; otherwise false. */
    method GetByUsername(sha512: string -> string, username: string) returns (r: UsernameResult)
      ensures r.Live? ==>
        r.user.id in users.docs && users.docs[r.user.id] == r.user.account && r.user.account.identity == Some(username)
      ensures r.Live? <==> exists id :: id in users.docs && users.docs[id].identity == Some(username)
      ensures r == NotFound <==>
        && (forall id :: id in users.docs ==> users.docs[id].identity != Some(username))
        && (forall i :: 0 <= i < |logs.docs| ==> !HasIdentityHash(logs.docs[i], HashIdentity(sha512, username)))
      ensures r.WasDeleted? || r == LogUnreadable ==>
        exists i :: 0 <= i < |logs.docs| && HasIdentityHash(logs.docs[i], HashIdentity(sha512, username))
          && r == DeletionSummary(logs.docs[i])
    {
      var u := users.GetByUsername(username);
      if u.Some? {
        return Live(u.value);
      }
      var log := logs.GetLogByIdentityHash(HashIdentity(sha512, username));
      if log.None? {
        return NotFound;
      }
      r := DeletionSummary(log.value);
    }

    /** 'user-not-found' (nothing written) for an unknown id; otherwise the account is
        soft-deleted and one log `{identity_hash, type, reason, loggedAt}` is appended
        (when the log store accepts it), and the result is true. */
    method Delete(sha512: string -> string, userId: UserId, reason: Value, now: int, logAccepted: bool) returns (r: DeleteResult)
      requires users.Valid()
      modifies users, logs
      ensures users.Valid()
      ensures userId !in old(users.docs) ==>
        r == DeleteUserNotFound && users.docs == old(users.docs) && logs.docs == old(logs.docs)
      ensures userId in old(users.docs) ==>
        && r == DeleteDone
        && users.docs == old(users.docs)[userId := Tombstone(now)]
        && logs.docs == old(logs.docs)
             + (if logAccepted then [DocToStore(DeletionLog(HashIdentity(sha512, UsernameOf(old(users.docs)[userId])), reason, now))] else [])
    {
      var u := users.GetById(userId);
      if u.None? {
        return DeleteUserNotFound;
      }
      var result := users.Delete(userId, now);
      if result != Some(true) {
        return DeleteUserNotFound;
      }
      var details := DeletionLog(HashIdentity(sha512, UsernameOf(u.value.account)), reason, now);
      var _ := logs.AddLog(details, logAccepted);
      r := DeleteDone;
    }
  }
}
