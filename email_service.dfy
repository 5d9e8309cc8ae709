/** The email-change service: issuing an email-update token after a chain of guards, and
    redeeming it through the account store. Email syntax validation, the random bytes
    and their base-62 encoding are inputs (`emailValid`, `token`, `strong`). */
module EmailService {
  import opened Common
  import opened AuthUsers

  /** Lifetime of an email-update token, in seconds (24 hours). */
  const TOKEN_TTL: int := 86400

  /** Result of `generateToken`: one of the error strings, the PHP error raised when the
      email is taken but the requesting user does not exist (`Fault`), the exception
      thrown for a weak random source, or the issued token details. */
  datatype TokenResult =
    | InvalidEmail
    | SameAsCurrent
    | AlreadyExists
    | UserNotFound
    | Fault
    | WeakRandomness
    | Issued(details: TokenDetails)

  /** The guard chain of `generateToken`, given the two lookups' answers: syntax first,
      then the holder of the new email, then the user's existence, then the randomness. */
  function TokenDecision(emailValid: bool, user: Option<User>, holder: Option<User>, strong: bool, token: string, now: int): (r: TokenResult)
    ensures r == InvalidEmail <==> !emailValid
    ensures r == SameAsCurrent <==> emailValid && holder.Some? && user.Some? && holder.value.id == user.value.id
    ensures r == AlreadyExists <==> emailValid && holder.Some? && user.Some? && holder.value.id != user.value.id
    ensures r == Fault <==> emailValid && holder.Some? && user.None?
    ensures r == UserNotFound <==> emailValid && holder.None? && user.None?
    ensures r == WeakRandomness <==> emailValid && holder.None? && user.Some? && !strong
    ensures r.Issued? <==> emailValid && holder.None? && user.Some? && strong
    ensures r.Issued? ==> r.details == TokenDetails(token, TOKEN_TTL, now + TOKEN_TTL)
  {
    if !emailValid then InvalidEmail
    else if holder.Some? then
      if user.None? then Fault
      else if holder.value.id == user.value.id then SameAsCurrent
      else AlreadyExists
    else if user.None? then UserNotFound
    else if !strong then WeakRandomness
    else Issued(TokenDetails(token, TOKEN_TTL, now + TOKEN_TTL))
  }

  /** Some account other than `userId` has `email` as its identity. */
  ghost predicate TakenByOther(m: Store, userId: UserId, email: string)
  {
    exists o :: o in m && o != userId && m[o].identity == Some(email)
  }

  /** A token issued at `now` is redeemable exactly until `now + TOKEN_TTL` (exclusive). */
  lemma IssuedTokenLifetime(token: string, now: int, later: int, a: Account, email: string)
    ensures HoldsLiveEmailToken(EmailRequestAdded(a, TokenDetails(token, TOKEN_TTL, now + TOKEN_TTL), email), token, later)
      <==> later < now + TOKEN_TTL
  {
  }

  class EmailService {
    const users: AuthUserCollection

    constructor (users: AuthUserCollection)
      ensures this.users == users
    {
      this.users := users;
    }

    /** Stores the token details with the new email against the user only when every guard
        passes, and then returns exactly the details stored. */
    method GenerateToken(userId: UserId, newEmail: string, emailValid: bool, token: string, strong: bool, now: int)
      returns (r: TokenResult)
      requires users.Valid()
      modifies users
      ensures users.Valid()
      ensures r == InvalidEmail <==> !emailValid
      ensures r == UserNotFound <==>
        emailValid && userId !in old(users.docs)
        && forall o :: o in old(users.docs) ==> old(users.docs)[o].identity != Some(newEmail)
      ensures r == Fault <==>
        emailValid && userId !in old(users.docs)
        && exists o :: o in old(users.docs) && old(users.docs)[o].identity == Some(newEmail)
      ensures r == WeakRandomness <==>
        && emailValid && !strong && userId in old(users.docs)
        && forall o :: o in old(users.docs) ==> old(users.docs)[o].identity != Some(newEmail)
      ensures r == SameAsCurrent ==> userId in old(users.docs) && old(users.docs)[userId].identity == Some(newEmail)
      ensures r == AlreadyExists ==> userId in old(users.docs) && TakenByOther(old(users.docs), userId, newEmail)
      ensures (emailValid && userId in old(users.docs) && old(users.docs)[userId].identity != Some(newEmail)
               && TakenByOther(old(users.docs), userId, newEmail)) ==> r == AlreadyExists
      ensures (emailValid && userId in old(users.docs) && old(users.docs)[userId].identity == Some(newEmail)
               && !TakenByOther(old(users.docs), userId, newEmail)) ==> r == SameAsCurrent
      ensures (emailValid && userId in old(users.docs) && old(users.docs)[userId].identity == Some(newEmail)
               && TakenByOther(old(users.docs), userId, newEmail)) ==> r == SameAsCurrent || r == AlreadyExists
      ensures r.Issued? <==>
        && emailValid && strong && userId in old(users.docs)
        && forall o :: o in old(users.docs) ==> old(users.docs)[o].identity != Some(newEmail)
      ensures r.Issued? ==>
        && r.details == TokenDetails(token, TOKEN_TTL, now + TOKEN_TTL)
        && users.docs == old(users.docs)[userId := EmailRequestAdded(old(users.docs)[userId], r.details, newEmail)]
      ensures !r.Issued? ==> users.docs == old(users.docs)
    {
      if !emailValid {
        return InvalidEmail;
      }
      var user := users.GetById(userId);
      var holder := users.GetByUsername(newEmail);
      r := TokenDecision(emailValid, user, holder, strong, token, now);
      if r.Issued? {
        users.AddEmailUpdateTokenAndNewEmail(userId, r.details, newEmail);
      }
    }

    /** Passes the store's answer through unchanged. */
    method UpdateEmailUsingToken(token: string, now: int) returns (r: EmailChange)
      requires users.Valid()
      modifies users
      ensures users.Valid()
      ensures r == EmailInvalidToken <==>
        forall id :: id in old(users.docs) ==> !HoldsLiveEmailToken(old(users.docs)[id], token, now)
      ensures r == EmailInvalidToken || r == EmailUsernameTaken ==> users.docs == old(users.docs)
      ensures r == EmailUsernameTaken ==>
        exists id, o :: id in old(users.docs) && o in old(users.docs)
          && HoldsLiveEmailToken(old(users.docs)[id], token, now)
          && old(users.docs)[o].identity == Some(old(users.docs)[id].emailUpdate.value.email)
      ensures r.EmailChanged? || r.EmailNotModified? ==>
        exists id :: id in old(users.docs) && HoldsLiveEmailToken(old(users.docs)[id], token, now)
          && (forall o :: o in old(users.docs) ==> old(users.docs)[o].identity != Some(old(users.docs)[id].emailUpdate.value.email))
          && users.docs == old(users.docs)[id := IdentityChanged(old(users.docs)[id], old(users.docs)[id].emailUpdate.value.email, now)]
          && (r.EmailChanged? <==> Modified(old(users.docs), id, users.docs[id]))
          && (r.EmailChanged? ==> r.user == User(id, old(users.docs)[id]))
    {
      r := users.UpdateEmailUsingToken(token, now);
    }
  }
}
