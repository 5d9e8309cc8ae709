/** The password service: changing a password, issuing a reset token, and redeeming it.
    Its behaviour is fixed by its tests; password rules, hashing, verification and the
    random token are inputs (`passwordValid`, `hash`, `verify`, `token`). */
module PasswordService {
  import opened Common
  import opened AuthUsers

  /** Lifetime of a password-reset token, in seconds (24 hours). */
  const TOKEN_TTL: int := 86400

  /** Result of `changePassword`: an error string, or the answer of the authentication
      service's `withPassword(identity, newPassword, true)`. */
  datatype ChangeResult =
    | ChangeUserNotFound
    | InvalidNewPassword
    | InvalidCredentials
    | Reauthenticated(identity: Option<string>, password: string)

  /** Result of `generateToken`: 'user-not-found', `{activation_token}` for an account
      that is not active, or the stored reset-token details. */
  datatype ResetTokenResult =
    | ResetUserNotFound
    | NotActivated(activationToken: Option<string>)
    | ResetIssued(details: TokenDetails)

  /** Result of `updatePasswordUsingToken`: 'invalid-password', 'invalid-token' or the
      store's boolean. */
  datatype RedeemResult = InvalidPassword | RedeemInvalidToken | Redeemed(ok: bool)

  class PasswordService {
    const users: AuthUserCollection

    constructor (users: AuthUserCollection)
      ensures this.users == users
    {
      this.users := users;
    }

    /** Guards in order: the user exists, the new password is acceptable, the current
        password verifies. Only then is the hash of the new password stored (which also
        revokes the auth token) and the user re-authenticated with the new password. */
    method ChangePassword(userId: UserId, current: string, newPassword: string, now: int,
                          passwordValid: string -> bool, verify: (string, Option<string>) -> bool,
                          hash: string -> string)
      returns (r: ChangeResult)
      requires users.Valid()
      modifies users
      ensures users.Valid()
      ensures r == ChangeUserNotFound <==> userId !in old(users.docs)
      ensures r == InvalidNewPassword <==> userId in old(users.docs) && !passwordValid(newPassword)
      ensures r == InvalidCredentials <==>
        userId in old(users.docs) && passwordValid(newPassword)
        && !verify(current, old(users.docs)[userId].passwordHash)
      ensures r.Reauthenticated? ==>
        && userId in old(users.docs)
        && r == Reauthenticated(old(users.docs)[userId].identity, newPassword)
        && users.docs == old(users.docs)[userId := PasswordSet(old(users.docs)[userId], hash(newPassword), now)]
      ensures !r.Reauthenticated? ==> users.docs == old(users.docs)
    {
      var u := users.GetById(userId);
      if u.None? {
        return ChangeUserNotFound;
      }
      if !passwordValid(newPassword) {
        return InvalidNewPassword;
      }
      if !verify(current, u.value.account.passwordHash) {
        return InvalidCredentials;
      }
      var _ := users.SetNewPassword(userId, hash(newPassword), now);
      r := Reauthenticated(u.value.account.identity, newPassword);
    }

    /** An unknown username gives 'user-not-found'; an account that is not active gets its
        activation token back and no reset token; an active account gets a reset token,
        valid for `TOKEN_TTL` seconds, stored and returned. */
    method GenerateToken(username: string, token: string, now: int) returns (r: ResetTokenResult)
      requires users.Valid()
      modifies users
      ensures users.Valid()
      ensures r == ResetUserNotFound <==>
        forall id :: id in old(users.docs) ==> old(users.docs)[id].identity != Some(username)
      ensures r.NotActivated? ==>
        && users.docs == old(users.docs)
        && exists id :: id in old(users.docs) && old(users.docs)[id].identity == Some(username)
             && old(users.docs)[id].active != ActiveTrue
             && r.activationToken == old(users.docs)[id].activationToken
      ensures r.ResetIssued? ==>
        && r.details == TokenDetails(token, TOKEN_TTL, now + TOKEN_TTL)
        && exists id :: id in old(users.docs) && old(users.docs)[id].identity == Some(username)
             && old(users.docs)[id].active == ActiveTrue
             && users.docs == old(users.docs)[id := ResetTokenAdded(old(users.docs)[id], r.details)]
      ensures r == ResetUserNotFound ==> users.docs == old(users.docs)
    {
      var u := users.GetByUsername(username);
      if u.None? {
        return ResetUserNotFound;
      }
      if u.value.account.active != ActiveTrue {
        return NotActivated(u.value.account.activationToken);
      }
      var details := TokenDetails(token, TOKEN_TTL, now + TOKEN_TTL);
      users.AddPasswordResetToken(u.value.id, details);
      r := ResetIssued(details);
    }

    /** The password rule comes before any lookup; an unknown or expired token gives
        'invalid-token'; only when the store reports the update does the failed-login
        counter get reset. */
    method UpdatePasswordUsingToken(token: string, password: string, now: int,
                                    passwordValid: string -> bool, hash: string -> string)
      returns (r: RedeemResult)
      requires users.Valid()
      modifies users
      ensures users.Valid()
      ensures r == InvalidPassword <==> !passwordValid(password)
      ensures r == RedeemInvalidToken <==>
        passwordValid(password)
        && forall id :: id in old(users.docs) ==> !HoldsLiveResetToken(old(users.docs)[id], token, now)
      ensures r == InvalidPassword || r == RedeemInvalidToken || r == Redeemed(false) ==>
        users.docs == old(users.docs)
      ensures r == Redeemed(true) ==>
        && (exists id :: id in old(users.docs) && HoldsLiveResetToken(old(users.docs)[id], token, now)
              && id in users.docs && users.docs[id].passwordHash == Some(hash(password))
              && users.docs[id].resetToken.None? && users.docs[id].authToken.None?)
        && (exists id :: id in old(users.docs) && HoldsLiveResetToken(old(users.docs)[id], token, now)
              && id in users.docs && users.docs[id].failedLoginAttempts == 0)
      ensures r == Redeemed(true) ==>
        exists id, uid ::
          && id in old(users.docs) && HoldsLiveResetToken(old(users.docs)[id], token, now)
          && uid in old(users.docs) && HoldsLiveResetToken(old(users.docs)[uid], token, now)
          && var written := old(users.docs)[id := PasswordSetFromToken(old(users.docs)[id], hash(password), now)];
             users.docs == written[uid := FailedLoginsReset(written[uid])]
    {
      if !passwordValid(password) {
        return InvalidPassword;
      }
      var u := users.GetByResetToken(token, now);
      if u.None? {
        return RedeemInvalidToken;
      }
      ghost var before := users.docs;
      var result := users.UpdatePasswordUsingToken(token, hash(password), now);
      if result == Updated(true) {
        ghost var mid := users.docs;
        ghost var id :| id in before && HoldsLiveResetToken(before[id], token, now)
          && mid == before[id := PasswordSetFromToken(before[id], hash(password), now)];
        users.ResetFailedLoginCounter(u.value.id);
        assert users.docs == mid[u.value.id := FailedLoginsReset(mid[u.value.id])];
        assert id in users.docs && users.docs[id].passwordHash == Some(hash(password));
        assert u.value.id in users.docs && users.docs[u.value.id].failedLoginAttempts == 0;
        r := Redeemed(true);
      } else if result == InvalidToken {
        r := RedeemInvalidToken;
      } else {
        r := Redeemed(false);
      }
    }
  }
}
