/** What each handler promises, one request at a time: which guard wins,
    what the reply is, and what the store looks like afterwards. */
module HandlerProperties {
  import opened Wrappers
  import opened StatusCodes
  import opened Validation
  import opened Entity
  import opened Store
  import opened UserController

  /* ---------------- register ---------------- */

  /** A rejected registration answers 400 with, per field, the code of its
      first failing rule, and changes nothing. */
  lemma RegisterRejectsInvalid(s: Store, body: Candidate, o: Oracle)
    requires Validate(body, Register, ContextOf(s, o)) != []
    ensures var ctx := ContextOf(s, o);
      CreateUser(s, body, o) == Step(s, Reply(400, FieldCodes(
        FieldCode(Username, Register, body, ctx).Ordinal(),
        FieldCode(Email, Register, body, ctx).Ordinal(),
        FieldCode(Password, Register, body, ctx).Ordinal())), None)
  {
    var ctx := ContextOf(s, o);
    GetErrorsOfValidate(body, Register, ctx, Username);
    GetErrorsOfValidate(body, Register, ctx, Email);
    GetErrorsOfValidate(body, Register, ctx, Password);
  }

  /** The mail goes out before anything is saved, so a failed send leaves
      no user and no token behind. */
  lemma RegisterMailFailurePersistsNothing(s: Store, body: Candidate, o: Oracle)
    requires Validate(body, Register, ContextOf(s, o)) == []
    requires !o.mailDelivered
    ensures var step := CreateUser(s, body, o);
      && step.store == s
      && step.reply == Thrown(500, "InternalServerError")
      && step.mail.Some? && step.mail.value.template == RegisterMail && Some(step.mail.value.to) == body.email
  {
    RegisterAccepted(body, ContextOf(s, o));
  }

  /** A successful registration appends one unverified user holding the
      password's hash and a fresh identifier, adds one verify token owned
      by it, and answers 201 with the user minus its secrets. */
  lemma RegisterSucceeds(s: Store, body: Candidate, o: Oracle)
    requires Validate(body, Register, ContextOf(s, o)) == []
    requires o.mailDelivered
    ensures var step := CreateUser(s, body, o);
      && |step.store.users| == |s.users| + 1
      && step.store.users[..|s.users|] == s.users
      && var u := step.store.users[|s.users|];
      && u.id == o.newUserId
      && Some(u.username) == body.username && u.username !in Usernames(s.users)
      && Some(u.email) == body.email && u.email !in Emails(s.users)
      && body.password.Some? && u.password == o.hasher.hash(body.password.value)
      && u.passwordIdentifier == RandomHex(o, 5) && |u.passwordIdentifier| == 2 * |o.randomBytes(5)|
      && (ExactBytes(o) ==> |u.passwordIdentifier| == 10 && |RandomHex(o, 3)| == 6)
      && !u.verified && u.role == "user"
      && step.store.verifyTokens == s.verifyTokens[RandomHex(o, 3) := u.id]
      && step.store.sessions == s.sessions && step.store.resetTokens == s.resetTokens
      && step.reply == Reply(201, Record(PublicUser(u.id, u.username, u.email, false, "user", None)))
      && step.mail == Some(Mail(RegisterMail, u.email, RandomHex(o, 3)))
  {
    RegisterAccepted(body, ContextOf(s, o));
  }

  /** The same for verify tokens: drawn from bytes no stored token decodes
      to, a registration's token is new, so no other user's pending
      verification is overwritten. */
  lemma RegisterKeepsOtherVerifyTokens(s: Store, body: Candidate, o: Oracle)
    requires Validate(body, Register, ContextOf(s, o)) == [] && o.mailDelivered
    requires forall t :: t in s.verifyTokens ==> Hex.Decode(t) != Some(o.randomBytes(VerifyTokenBytes))
    ensures var after := CreateUser(s, body, o).store;
      && s.verifyTokens.Keys < after.verifyTokens.Keys
      && forall t :: t in s.verifyTokens ==> after.verifyTokens[t] == s.verifyTokens[t]
  {
    RegisterSucceeds(s, body, o);
    Hex.DecodeEncode(o.randomBytes(VerifyTokenBytes));
    assert RandomHex(o, VerifyTokenBytes) !in s.verifyTokens;
  }

  /** With a sound hasher, the password given at registration matches the
      stored hash. */
  lemma RegisteredPasswordMatches(s: Store, body: Candidate, o: Oracle)
    requires Validate(body, Register, ContextOf(s, o)) == []
    requires o.mailDelivered && Sound(o.hasher)
    ensures body.password.Some?
    ensures CompareHash(CreateUser(s, body, o).store.users[|s.users|], body.password.value, o.hasher)
  {
    RegisterSucceeds(s, body, o);
  }

  /* ---------------- login ---------------- */

  /** The user a login request names. */
  function LoginTarget(s: Store, body: Candidate): Option<User> {
    FindByEmailOrUsername(s.users, body.email, body.username)
  }

  /** Unknown user and wrong password get the same 400 INVALID_CREDENTIALS
      and create no session, so the reply does not tell them apart. */
  lemma LoginEnumerationSafe(s: Store, body: Candidate, o: Oracle)
    requires Validate(body, Login, ContextOf(s, o)) == []
    requires LoginTarget(s, body).None? ||
      (body.password.Some? && !CompareHash(LoginTarget(s, body).value, body.password.value, o.hasher))
    ensures LoginUser(s, body, o) == Step(s, LoginStatus(400, InvalidCredentials), None)
  {
  }

  /** The right password for an unverified user gets 401 and no session. */
  lemma LoginUnverified(s: Store, body: Candidate, o: Oracle)
    requires Validate(body, Login, ContextOf(s, o)) == []
    requires LoginTarget(s, body).Some? && !LoginTarget(s, body).value.verified
    requires body.password.Some? && CompareHash(LoginTarget(s, body).value, body.password.value, o.hasher)
    ensures LoginUser(s, body, o) == Step(s, LoginStatus(401, UserNotVerified), None)
  {
  }

  /** The right password for a verified user adds exactly one session and
      issues a 20-minute access claim and a one-year refresh claim bound to
      that session and to the user's current password identifier. */
  lemma LoginSucceeds(s: Store, body: Candidate, o: Oracle)
    requires Validate(body, Login, ContextOf(s, o)) == []
    requires LoginTarget(s, body).Some? && LoginTarget(s, body).value.verified
    requires body.password.Some? && CompareHash(LoginTarget(s, body).value, body.password.value, o.hasher)
    ensures var u := LoginTarget(s, body).value;
      var session := RandomHex(o, 3);
      LoginUser(s, body, o) == Step(
        s.(sessions := s.sessions[session := u.id]),
        Reply(200, Tokens(
          AccessClaims(u.id, u.role, "jwt", 1200),
          RefreshClaims(u.id, session, u.passwordIdentifier, "refresh", 31557600))),
        None)
  {
  }

  /** Conversely, a login is granted only to a validated request naming a
      verified user whose password matches. */
  lemma LoginGrantedOnlyToVerifiedOwner(s: Store, body: Candidate, o: Oracle)
    requires LoginUser(s, body, o).reply.status == 200
    ensures Validate(body, Login, ContextOf(s, o)) == []
    ensures LoginTarget(s, body).Some? && LoginTarget(s, body).value.verified
    ensures body.password.Some? && CompareHash(LoginTarget(s, body).value, body.password.value, o.hasher)
  {
    if Validate(body, Login, ContextOf(s, o)) == [] {
      LoginAccepted(body, ContextOf(s, o));
    }
  }

  /** A session token is stored as the hex text of its random bytes. When
      no stored session token decodes to the bytes drawn for a login, the
      new token is not among them, so a successful login adds a session and
      leaves every existing session with its owner. */
  lemma LoginKeepsOtherSessions(s: Store, body: Candidate, o: Oracle)
    requires LoginUser(s, body, o).reply.status == 200
    requires forall t :: t in s.sessions ==> Hex.Decode(t) != Some(o.randomBytes(SessionTokenBytes))
    ensures var after := LoginUser(s, body, o).store;
      && s.sessions.Keys < after.sessions.Keys
      && forall t :: t in s.sessions ==> after.sessions[t] == s.sessions[t]
  {
    LoginGrantedOnlyToVerifiedOwner(s, body, o);
    LoginSucceeds(s, body, o);
    Hex.DecodeEncode(o.randomBytes(SessionTokenBytes));
    assert RandomHex(o, SessionTokenBytes) !in s.sessions;
  }

  /** Two logins that draw different bytes hold two different sessions:
      the second does not end the first. */
  lemma SecondLoginKeepsFirst(s: Store, body: Candidate, o: Oracle, body2: Candidate, o2: Oracle)
    requires LoginUser(s, body, o).reply.status == 200
    requires LoginUser(LoginUser(s, body, o).store, body2, o2).reply.status == 200
    requires o.randomBytes(SessionTokenBytes) != o2.randomBytes(SessionTokenBytes)
    ensures var first := LoginUser(s, body, o);
      var second := LoginUser(first.store, body2, o2);
      && first.reply.body.Tokens?
      && first.reply.body.refreshToken.session in second.store.sessions
      && second.store.sessions[first.reply.body.refreshToken.session] == first.reply.body.refreshToken.sub
  {
    var first := LoginUser(s, body, o);
    var t1 := RandomHex(o, SessionTokenBytes);
    LoginGrantedOnlyToVerifiedOwner(s, body, o);
    LoginSucceeds(s, body, o);
    var owner := LoginTarget(s, body).value;
    assert first.store.sessions[t1] == owner.id;
    assert first.reply.body.refreshToken == RefreshClaims(owner.id, t1, owner.passwordIdentifier, "refresh", 31557600);
    var t2 := RandomHex(o2, SessionTokenBytes);
    Hex.EncodeInjective(o.randomBytes(SessionTokenBytes), o2.randomBytes(SessionTokenBytes));
    assert t1 != t2;
    LoginGrantedOnlyToVerifiedOwner(first.store, body2, o2);
    LoginSucceeds(first.store, body2, o2);
    var second := LoginUser(first.store, body2, o2);
    assert second.store.sessions == first.store.sessions[t2 := LoginTarget(first.store, body2).value.id];
  }

  /* ---------------- refresh ---------------- */

  /** As written, the password identifier in the claim makes no difference:
      its reply is always overwritten by the session checks. */
  lemma RefreshIgnoresPasswordIdentifier(s: Store, claims: RefreshClaims, pwId: string)
    ensures Refresh(AsWritten, s, claims) == Refresh(AsWritten, s, claims.(pwId := pwId))
  {
  }

  /** For an existing user, refresh answers 200 exactly when the claimed
      session exists, belongs to that user, and the user is verified. */
  lemma RefreshOutcome(s: Store, claims: RefreshClaims)
    requires claims.sub in Ids(s.users)
    ensures var step := Refresh(AsWritten, s, claims);
      var u := FindById(s.users, claims.sub).value;
      var owned := claims.session in s.sessions && s.sessions[claims.session] == claims.sub;
      && step.store == s
      && step.reply.Reply?
      && (step.reply.status == 200 <==> owned && u.verified)
      && (step.reply.status == 200 ==> step.reply.body == Token(AccessClaims(claims.sub, u.role, "jwt", 1200)))
      && (!owned ==> step.reply == LoginStatus(400, InvalidSession))
      && (owned && !u.verified ==> step.reply == LoginStatus(401, UserNotVerified))
  {
  }

  /** For a missing user, refresh crashes reading `user.id` unless the
      claimed session is missing too. */
  lemma RefreshWithoutUser(s: Store, claims: RefreshClaims)
    requires claims.sub !in Ids(s.users)
    ensures Refresh(AsWritten, s, claims).reply ==
      if claims.session in s.sessions then Crashed else LoginStatus(400, InvalidSession)
  {
  }

  /* ---------------- logout ---------------- */

  /** As written, logout ignores the claim's password identifier too. */
  lemma LogoutIgnoresPasswordIdentifier(s: Store, claims: RefreshClaims, pwId: string)
    ensures Logout(AsWritten, s, claims) == Logout(AsWritten, s, claims.(pwId := pwId))
  {
  }

  /** For an existing user, logout succeeds exactly when the claimed
      session is that user's, and then removes that one session. */
  lemma LogoutOutcome(s: Store, claims: RefreshClaims)
    requires claims.sub in Ids(s.users)
    ensures var step := Logout(AsWritten, s, claims);
      var owned := claims.session in s.sessions && s.sessions[claims.session] == claims.sub;
      && (owned ==> step == Step(s.(sessions := s.sessions - {claims.session}), LoginStatus(200, LoggedOut), None))
      && (!owned ==> step == Step(s, LoginStatus(400, InvalidSession), None))
  {
  }

  /** In a store whose sessions all belong to existing users, logout for a
      missing user cannot reach the crash: it answers INVALID_SESSION. */
  lemma LogoutWithoutUser(s: Store, claims: RefreshClaims)
    requires Consistent(s)
    requires claims.sub !in Ids(s.users)
    ensures Logout(AsWritten, s, claims) == Step(s, LoginStatus(400, InvalidSession), None)
  {
    if claims.session in s.sessions {
      assert s.sessions[claims.session] in s.sessions.Values;
    }
  }

  /** Logging out ends exactly that session: a refresh with the same claim
      now fails, and a refresh with any other session is answered as before. */
  lemma LogoutEndsOnlyThatSession(s: Store, claims: RefreshClaims, other: RefreshClaims)
    requires claims.sub in Ids(s.users)
    requires claims.session in s.sessions && s.sessions[claims.session] == claims.sub
    requires other.session != claims.session
    ensures var after := Logout(AsWritten, s, claims).store;
      && Refresh(AsWritten, after, claims).reply == LoginStatus(400, InvalidSession)
      && Refresh(AsWritten, after, other) == Refresh(AsWritten, s, other).(store := after)
  {
    LogoutOutcome(s, claims);
  }

  /* ---------------- verify ---------------- */

  /** An existing token verifies its owner and is consumed; nothing else changes. */
  lemma VerifyConsumesToken(s: Store, token: string)
    requires Consistent(s)
    requires token in s.verifyTokens
    ensures var owner := s.verifyTokens[token];
      var step := Verify(s, token);
      && step.reply == VerifyStatus(200, AccountVerified)
      && step.store.verifyTokens == s.verifyTokens - {token}
      && step.store.sessions == s.sessions && step.store.resetTokens == s.resetTokens
      && |step.store.users| == |s.users|
      && forall i :: 0 <= i < |s.users| ==>
           step.store.users[i] == if s.users[i].id == owner then s.users[i].(verified := true) else s.users[i]
  {
    assert s.verifyTokens[token] in s.verifyTokens.Values;
  }

  /** A token works once: verifying again with it finds nothing. */
  lemma VerifyIsSingleUse(s: Store, token: string)
    requires Consistent(s)
    ensures Verify(Verify(s, token).store, token) ==
      Step(Verify(s, token).store, VerifyStatus(400, TokenNotFound), None)
  {
    if token in s.verifyTokens {
      VerifyConsumesToken(s, token);
    }
  }

  /* ---------------- resend ---------------- */

  /** The user a resend request names. */
  function ResendTarget(s: Store, email: Option<string>): Option<User> {
    FindByEmail(s.users, email)
  }

  /** An already verified user gets 400 and no mail is attempted. */
  lemma ResendToVerifiedUser(s: Store, email: Option<string>, o: Oracle)
    requires Validate(Candidate(None, email, None), Group.Resend, ContextOf(s, o)) == []
    requires ResendTarget(s, email).Some? && ResendTarget(s, email).value.verified
    ensures UserController.Resend(s, email, o) == Step(s, VerifyStatus(400, AccountAlreadyVerified), None)
  {
  }

  /** An unverified user who still has a verify token gets it mailed again;
      the store does not change whether or not the mail goes out. */
  lemma ResendReusesToken(s: Store, email: Option<string>, o: Oracle)
    requires Validate(Candidate(None, email, None), Group.Resend, ContextOf(s, o)) == []
    requires ResendTarget(s, email).Some? && !ResendTarget(s, email).value.verified
    requires ResendTarget(s, email).value.id in s.verifyTokens.Values
    ensures var step := UserController.Resend(s, email, o);
      && step.store == s
      && step.mail.Some? && step.mail.value.template == RegisterMail
      && step.mail.value.to == ResendTarget(s, email).value.email
      && step.mail.value.token in s.verifyTokens
      && s.verifyTokens[step.mail.value.token] == ResendTarget(s, email).value.id
      && step.reply == if o.mailDelivered then VerifyStatus(200, EmailSent) else Thrown(500, InternalServerError.Name())
  {
  }

  /** An unverified user without a verify token gets exactly one new one,
      and only when the mail went out. */
  lemma ResendMintsToken(s: Store, email: Option<string>, o: Oracle)
    requires Validate(Candidate(None, email, None), Group.Resend, ContextOf(s, o)) == []
    requires ResendTarget(s, email).Some? && !ResendTarget(s, email).value.verified
    requires ResendTarget(s, email).value.id !in s.verifyTokens.Values
    ensures var step := UserController.Resend(s, email, o);
      var u := ResendTarget(s, email).value;
      && step.mail == Some(Mail(RegisterMail, u.email, RandomHex(o, 3)))
      && (o.mailDelivered ==>
            step.store == s.(verifyTokens := s.verifyTokens[RandomHex(o, 3) := u.id]) &&
            step.reply == VerifyStatus(200, EmailSent))
      && (!o.mailDelivered ==> step.store == s && step.reply == Thrown(500, InternalServerError.Name()))
  {
  }

  /** Validation failures come back as the raw error array, and an unknown
      email as USER_NOT_FOUND; neither sends mail. */
  lemma ResendRefusals(s: Store, email: Option<string>, o: Oracle)
    ensures var errors := Validate(Candidate(None, email, None), Group.Resend, ContextOf(s, o));
      && (errors != [] ==> UserController.Resend(s, email, o) == Step(s, Reply(400, Errors(errors)), None))
      && (errors == [] && ResendTarget(s, email).None? ==>
            UserController.Resend(s, email, o) == Step(s, LoginStatus(400, UserNotFound), None))
  {
  }

  /* ---------------- send-password-reset ---------------- */

  /** The user a send-reset request names. */
  function ResetTarget(s: Store, body: Candidate): Option<User> {
    FindByEmailOrUsername(s.users, body.email, body.username)
  }

  /** The password is never validated in the send-reset group, so its code
      in a rejection is always 0; unknown and unverified users are refused. */
  lemma SendResetRefusals(s: Store, body: Candidate, o: Oracle, loaded: Option<string>)
    ensures var request := Candidate(body.username, body.email, None);
      var ctx := ContextOf(s, o);
      var step := SendResend(s, body, o, loaded);
      && (Validate(request, SendReset, ctx) != [] ==>
            step == Step(s, Reply(400, FieldCodes(
              FieldCode(Username, SendReset, request, ctx).Ordinal(),
              FieldCode(Email, SendReset, request, ctx).Ordinal(), 0)), None))
      && (Validate(request, SendReset, ctx) == [] && ResetTarget(s, body).None? ==>
            step == Step(s, LoginStatus(400, UserNotFound), None))
      && (Validate(request, SendReset, ctx) == [] && ResetTarget(s, body).Some? && !ResetTarget(s, body).value.verified ==>
            step == Step(s, LoginStatus(400, UserNotVerified), None))
  {
    var request := Candidate(body.username, body.email, None);
    var ctx := ContextOf(s, o);
    GetErrorsOfValidate(request, SendReset, ctx, Username);
    GetErrorsOfValidate(request, SendReset, ctx, Email);
    GetErrorsOfValidate(request, SendReset, ctx, Password);
    PasswordRules(request, SendReset, ctx);
  }

  /** The deployed handler never sees the user's reset token, so for a
      verified user it mints and saves a new one stamped with the clock
      after a successful mail, even when one already exists. */
  lemma SendResetAlwaysMints(s: Store, body: Candidate, o: Oracle)
    requires Validate(Candidate(body.username, body.email, None), SendReset, ContextOf(s, o)) == []
    requires ResetTarget(s, body).Some? && ResetTarget(s, body).value.verified
    ensures var step := SendResend(s, body, o, None);
      var u := ResetTarget(s, body).value;
      && step.mail == Some(Mail(PasswordResetMail, u.email, RandomHex(o, 6)))
      && (o.mailDelivered ==>
            step.store == s.(resetTokens := s.resetTokens[RandomHex(o, 6) := ResetToken(u.id, o.nowMs)]) &&
            step.reply == VerifyStatus(200, EmailSent))
      && (!o.mailDelivered ==> step.store == s && step.reply == Thrown(500, InternalServerError.Name()))
  {
  }

  /** Had the relation been loaded, an existing reset token would be mailed
      again and nothing saved. */
  lemma SendResetReusesLoadedToken(s: Store, body: Candidate, o: Oracle, token: string)
    requires Validate(Candidate(body.username, body.email, None), SendReset, ContextOf(s, o)) == []
    requires ResetTarget(s, body).Some? && ResetTarget(s, body).value.verified
    ensures var step := SendResend(s, body, o, Some(token));
      && step.store == s
      && step.mail == Some(Mail(PasswordResetMail, ResetTarget(s, body).value.email, token))
      && step.reply == if o.mailDelivered then VerifyStatus(200, EmailSent) else Thrown(500, InternalServerError.Name())
  {
  }

  /* ---------------- reset-password ---------------- */

  /** The guards of reset-password in order: unknown token, expired token
      (which is deleted), mismatched fields. */
  lemma ResetPasswordGuards(rev: Revision, s: Store, form: ResetForm, o: Oracle)
    ensures form.token !in s.resetTokens ==>
      ResetPassword(rev, s, form, o) == Step(s, VerifyStatus(400, TokenNotFound), None)
    ensures form.token in s.resetTokens && Expired(rev, s.resetTokens[form.token].createdAtMs, o.nowMs) ==>
      ResetPassword(rev, s, form, o) ==
        Step(s.(resetTokens := s.resetTokens - {form.token}), VerifyStatus(400, TokenExpired), None)
    ensures (form.token in s.resetTokens && !Expired(rev, s.resetTokens[form.token].createdAtMs, o.nowMs) &&
      form.password != form.passwordAgain) ==>
      ResetPassword(rev, s, form, o) ==
        Step(s, Reply(400, PasswordPage(form.token, "Password fields do not match")), None)
  {
  }

  /** The owner of a live reset token. */
  function ResetOwner(s: Store, token: string): Option<User>
    requires token in s.resetTokens
  {
    FindById(s.users, s.resetTokens[token].owner)
  }

  /** A password that passes the login-group rules (checked against the
      owner's stored username and email) replaces the old one: the owner
      now holds its hash and a fresh password identifier, the token is
      consumed, and nothing else changes. */
  lemma ResetPasswordSucceeds(rev: Revision, s: Store, form: ResetForm, o: Oracle)
    requires form.token in s.resetTokens && ResetOwner(s, form.token).Some?
    requires !Expired(rev, s.resetTokens[form.token].createdAtMs, o.nowMs)
    requires form.password == form.passwordAgain
    requires var owner := ResetOwner(s, form.token).value;
      Validate(Candidate(Some(owner.username), Some(owner.email), form.password), Login, ContextOf(s, o)) == []
    ensures form.password.Some?
    ensures var owner := ResetOwner(s, form.token).value;
      var updated := owner.(password := o.hasher.hash(form.password.value), passwordIdentifier := RandomHex(o, 5));
      ResetPassword(rev, s, form, o) == Step(
        s.(users := UpdateUser(s.users, updated), resetTokens := s.resetTokens - {form.token}),
        Reply(200, Text("Password Changed")), None)
  {
    var owner := ResetOwner(s, form.token).value;
    LoginAccepted(Candidate(Some(owner.username), Some(owner.email), form.password), ContextOf(s, o));
  }

  /** A new password that breaks the login-group rules is refused with the
      raw error array and the store is left as it was. */
  lemma ResetPasswordRejectsInvalid(rev: Revision, s: Store, form: ResetForm, o: Oracle)
    requires form.token in s.resetTokens && ResetOwner(s, form.token).Some?
    requires !Expired(rev, s.resetTokens[form.token].createdAtMs, o.nowMs)
    requires form.password == form.passwordAgain
    ensures var owner := ResetOwner(s, form.token).value;
      var errors := Validate(Candidate(Some(owner.username), Some(owner.email), form.password), Login, ContextOf(s, o));
      errors != [] ==> ResetPassword(rev, s, form, o) == Step(s, Reply(400, Errors(errors)), None)
  {
  }
}
