/** Three places where the handlers do not do what their code evidently
    means to do. Each is shown on the deployed behaviour (`AsWritten`) and
    then proved absent from the corrected reading (`Corrected`). */
module Findings {
  import opened Wrappers
  import opened StatusCodes
  import opened Validation
  import opened Entity
  import opened Store
  import opened UserController
  import opened HandlerProperties

  /** Whether the claimed session exists and belongs to the claimed subject. */
  predicate OwnsSession(s: Store, claims: RefreshClaims) {
    claims.session in s.sessions && s.sessions[claims.session] == claims.sub
  }

  /* ---- refresh: the identifier check sets a reply and falls through ---- */

  /** As written, a refresh token carrying an outdated password identifier
      still buys a fresh access token. */
  lemma StaleRefreshAccepted(s: Store, claims: RefreshClaims)
    requires claims.sub in Ids(s.users)
    requires var u := FindById(s.users, claims.sub).value;
      u.verified && OwnsSession(s, claims) && claims.pwId != u.passwordIdentifier
    ensures var u := FindById(s.users, claims.sub).value;
      Refresh(AsWritten, s, claims).reply == Reply(200, Token(AccessClaims(claims.sub, u.role, "jwt", 1200)))
  {
  }

  /** Corrected, a refresh token whose identifier is not the user's current
      one is refused with 401 INVALID_TOKEN. */
  lemma StaleIdentifierRefused(s: Store, claims: RefreshClaims)
    requires claims.sub in Ids(s.users)
    requires claims.pwId != FindById(s.users, claims.sub).value.passwordIdentifier
    ensures Refresh(Corrected, s, claims).reply == LoginStatus(401, InvalidToken)
  {
  }

  /** Corrected, refresh answers 200 exactly when the user exists, the
      identifier is current, the session is the user's and the user is
      verified; it never crashes, and a stale identifier gets 401. */
  lemma RefreshChecksIdentifier(s: Store, claims: RefreshClaims)
    ensures var step := Refresh(Corrected, s, claims);
      var u := FindById(s.users, claims.sub);
      && step.reply.Reply?
      && (step.reply.status == 200 <==>
            u.Some? && claims.pwId == u.value.passwordIdentifier && OwnsSession(s, claims) && u.value.verified)
      && (u.None? ==> step.reply == LoginStatus(400, UserNotFound))
      && (u.Some? && claims.pwId != u.value.passwordIdentifier ==> step.reply == LoginStatus(401, InvalidToken))
  {
  }

  /** After a successful reset, looking the owner up by id finds the new
      version of its row, and the sessions are as they were. */
  lemma ResetOwnerFound(rev: Revision, s: Store, form: ResetForm, o: Oracle)
    requires Consistent(s)
    requires form.token in s.resetTokens && ResetOwner(s, form.token).Some?
    requires !Expired(rev, s.resetTokens[form.token].createdAtMs, o.nowMs)
    requires form.password == form.passwordAgain
    requires var owner := ResetOwner(s, form.token).value;
      Validate(Candidate(Some(owner.username), Some(owner.email), form.password), Login, ContextOf(s, o)) == []
    ensures form.password.Some?
    ensures var owner := ResetOwner(s, form.token).value;
      var after := ResetPassword(rev, s, form, o).store;
      && after.sessions == s.sessions
      && FindById(after.users, owner.id) ==
           Some(owner.(password := o.hasher.hash(form.password.value), passwordIdentifier := RandomHex(o, 5)))
  {
    var owner := ResetOwner(s, form.token).value;
    ResetPasswordSucceeds(rev, s, form, o);
    var updated := owner.(password := o.hasher.hash(form.password.value), passwordIdentifier := RandomHex(o, 5));
    var after := ResetPassword(rev, s, form, o).store;
    assert after.users == UpdateUser(s.users, updated);
    var i :| 0 <= i < |s.users| && s.users[i] == owner;
    assert after.users[i] == updated;
    SaveKeepsKeys(s.users, owner, updated);
    FindByIdIsTheRow(after.users, i);
  }

  /** The conditions of a successful reset of `owner`'s password, for a
      refresh claim issued before it under the old identifier. */
  predicate ResetsPasswordOf(rev: Revision, s: Store, form: ResetForm, o: Oracle, claims: RefreshClaims)
    requires form.token in s.resetTokens && ResetOwner(s, form.token).Some?
  {
    var owner := ResetOwner(s, form.token).value;
    && !Expired(rev, s.resetTokens[form.token].createdAtMs, o.nowMs)
    && form.password == form.passwordAgain
    && Validate(Candidate(Some(owner.username), Some(owner.email), form.password), Login, ContextOf(s, o)) == []
    && claims.sub == owner.id && claims.pwId == owner.passwordIdentifier
    && RandomHex(o, PasswordIdentifierBytes) != owner.passwordIdentifier
  }

  /** As written, the refresh tokens issued before a password reset stay
      good after it. */
  lemma PasswordResetKeepsStaleRefresh(s: Store, form: ResetForm, o: Oracle, claims: RefreshClaims, after: Store)
    requires Consistent(s)
    requires form.token in s.resetTokens && ResetOwner(s, form.token).Some?
    requires ResetsPasswordOf(AsWritten, s, form, o, claims)
    requires after == ResetPassword(AsWritten, s, form, o).store
    requires OwnsSession(s, claims) && ResetOwner(s, form.token).value.verified
    ensures Refresh(AsWritten, after, claims).reply.Reply? && Refresh(AsWritten, after, claims).reply.status == 200
  {
    ResetOwnerFound(AsWritten, s, form, o);
    var u := FindById(after.users, claims.sub).value;
    assert u.verified && u.passwordIdentifier != claims.pwId;
    assert OwnsSession(after, claims);
    StaleRefreshAccepted(after, claims);
  }

  /** Corrected, they are refused with 401 INVALID_TOKEN. */
  lemma PasswordResetRevokesRefresh(s: Store, form: ResetForm, o: Oracle, claims: RefreshClaims, after: Store)
    requires Consistent(s)
    requires form.token in s.resetTokens && ResetOwner(s, form.token).Some?
    requires ResetsPasswordOf(Corrected, s, form, o, claims)
    requires after == ResetPassword(Corrected, s, form, o).store
    ensures Refresh(Corrected, after, claims).reply == LoginStatus(401, InvalidToken)
  {
    ResetOwnerFound(Corrected, s, form, o);
    StaleIdentifierRefused(after, claims);
  }

  /* ---- logout: the same fall-through ---- */

  /** As written, logout with an outdated password identifier still ends
      the session. */
  lemma StaleLogoutAccepted(s: Store, claims: RefreshClaims)
    requires claims.sub in Ids(s.users)
    requires OwnsSession(s, claims)
    requires claims.pwId != FindById(s.users, claims.sub).value.passwordIdentifier
    ensures Logout(AsWritten, s, claims) ==
      Step(s.(sessions := s.sessions - {claims.session}), LoginStatus(200, LoggedOut), None)
  {
  }

  /** Corrected, logout ends the session exactly when the user exists, the
      identifier is current and the session is the user's; it never crashes. */
  lemma LogoutChecksIdentifier(s: Store, claims: RefreshClaims)
    ensures var step := Logout(Corrected, s, claims);
      var u := FindById(s.users, claims.sub);
      && step.reply.Reply?
      && (step.reply.status == 200 <==> u.Some? && claims.pwId == u.value.passwordIdentifier && OwnsSession(s, claims))
      && (step.reply.status == 200 ==> step.store == s.(sessions := s.sessions - {claims.session}))
      && (step.reply.status != 200 ==> step.store == s)
      && (u.Some? && claims.pwId != u.value.passwordIdentifier ==> step.reply == LoginStatus(401, InvalidToken))
  {
  }

  /* ---- reset-password: the expiry test ---- */

  /** As written, the expiry test compares seconds with milliseconds and in
      the wrong direction: for any token created after the first 601 ms of
      the epoch and read no earlier than it was created, it never fires. */
  lemma AsWrittenExpiryNeverFires(createdAtMs: int, nowMs: int)
    requires 601 <= createdAtMs <= nowMs
    ensures !Expired(AsWritten, createdAtMs, nowMs)
  {
    assert createdAtMs + ResetTokenLifetimeMs < 1000 * createdAtMs;
  }

  /** So a reset token created on 13 September 2020 is still accepted a
      year later. */
  lemma YearOldResetTokenAccepted(s: Store, form: ResetForm, o: Oracle)
    requires form.token in s.resetTokens
    requires s.resetTokens[form.token].createdAtMs == 1600000000000
    requires o.nowMs == 1600000000000 + 365 * 24 * 60 * 60 * 1000
    requires form.password == form.passwordAgain
    ensures ResetPassword(AsWritten, s, form, o).reply != VerifyStatus(400, TokenExpired)
    ensures ResetPassword(AsWritten, s, form, o).store.resetTokens == s.resetTokens ||
      ResetPassword(AsWritten, s, form, o).reply == Reply(200, Text("Password Changed"))
  {
    AsWrittenExpiryNeverFires(1600000000000, o.nowMs);
  }

  /** Corrected, a token is expired exactly when more than ten minutes have
      passed since it was created. */
  lemma CorrectedExpiry(createdAtMs: int, nowMs: int)
    ensures Expired(Corrected, createdAtMs, nowMs) <==> nowMs - createdAtMs > 10 * 60 * 1000
  {
  }

  /** Corrected, a token older than ten minutes is refused with
      TOKEN_EXPIRED and deleted, so that trying again finds nothing. */
  lemma ExpiredTokenRefusedThenGone(s: Store, form: ResetForm, o: Oracle, again: Oracle)
    requires form.token in s.resetTokens
    requires o.nowMs - s.resetTokens[form.token].createdAtMs > 10 * 60 * 1000
    ensures var first := ResetPassword(Corrected, s, form, o);
      && first.reply == VerifyStatus(400, TokenExpired)
      && ResetPassword(Corrected, first.store, form, again).reply == VerifyStatus(400, TokenNotFound)
  {
    ResetPasswordGuards(Corrected, s, form, o);
  }
}
