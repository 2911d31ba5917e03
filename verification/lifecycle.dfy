/** The account lifecycle as a whole: one request at a time against one
    store. The router maps each route to its handler; the refresh and
    logout routes receive the claims of an already verified refresh token,
    the profile route the subject of a verified access token. */
module Lifecycle {
  import opened Wrappers
  import opened StatusCodes
  import opened Validation
  import opened Entity
  import opened Store
  import opened UserController
  import opened HandlerProperties

  datatype Request =
    | RegisterRequest(body: Candidate)
    | LoginRequest(body: Candidate)
    | ProfileRequest(sub: UserId)
    | RefreshRequest(claims: RefreshClaims)
    | LogoutRequest(claims: RefreshClaims)
    | VerifyRequest(token: string)
    | ResendRequest(email: Option<string>)
    | SendResetRequest(body: Candidate)
    | ResetPasswordRequest(form: ResetForm)

  /** One request, routed to its handler. Which tables a request may touch
      and which requests send mail follow from the handlers' contracts. */
  ghost function Handle(rev: Revision, s: Store, r: Request, o: Oracle): (step: Step)
    ensures step.store.users != s.users ==>
      r.RegisterRequest? || r.VerifyRequest? || r.ResetPasswordRequest?
    ensures step.store.verifyTokens != s.verifyTokens ==>
      r.RegisterRequest? || r.VerifyRequest? || r.ResendRequest?
    ensures step.store.sessions != s.sessions ==> r.LoginRequest? || r.LogoutRequest?
    ensures step.store.resetTokens != s.resetTokens ==> r.SendResetRequest? || r.ResetPasswordRequest?
    ensures step.mail.Some? ==> r.RegisterRequest? || r.ResendRequest? || r.SendResetRequest?
    ensures KeepsRows(s.users, step.store.users)
    ensures |step.store.users| > |s.users| ==> r.RegisterRequest?
  {
    match r
    case RegisterRequest(body) => CreateUser(s, body, o)
    case LoginRequest(body) => LoginUser(s, body, o)
    case ProfileRequest(sub) => GetProfile(s, sub)
    case RefreshRequest(claims) => Refresh(rev, s, claims)
    case LogoutRequest(claims) => Logout(rev, s, claims)
    case VerifyRequest(token) => Verify(s, token)
    case ResendRequest(email) => UserController.Resend(s, email, o)
    // the lookup at :419-424 loads no relations, so the reset_token test at :444 never sees one
    case SendResetRequest(body) => SendResend(s, body, o, None)
    case ResetPasswordRequest(form) => ResetPassword(rev, s, form, o)
  }

  /* ---------------- the store stays consistent ---------------- */

  lemma RegisterKeepsConsistent(s: Store, body: Candidate, o: Oracle)
    requires Consistent(s) && o.newUserId !in Ids(s.users)
    ensures Consistent(CreateUser(s, body, o).store)
  {
    if Validate(body, Register, ContextOf(s, o)) == [] && o.mailDelivered {
      RegisterSucceeds(s, body, o);
      var after := CreateUser(s, body, o).store;
      var u := after.users[|s.users|];
      assert after.users == s.users + [u];
      AppendUserKeepsKeys(s.users, u);
    }
  }

  lemma LoginKeepsConsistent(s: Store, body: Candidate, o: Oracle)
    requires Consistent(s)
    ensures Consistent(LoginUser(s, body, o).store)
  {
    if LoginUser(s, body, o).reply.status == 200 {
      LoginGrantedOnlyToVerifiedOwner(s, body, o);
      LoginSucceeds(s, body, o);
      var u := LoginTarget(s, body).value;
      assert u.id in Ids(s.users);
    }
  }

  lemma VerifyKeepsConsistent(s: Store, token: string)
    requires Consistent(s)
    ensures Consistent(Verify(s, token).store)
  {
    if token in s.verifyTokens {
      assert s.verifyTokens[token] in s.verifyTokens.Values;
      var owner := FindById(s.users, s.verifyTokens[token]).value;
      SaveKeepsKeys(s.users, owner, owner.(verified := true));
    }
  }

  lemma ResendKeepsConsistent(s: Store, email: Option<string>, o: Oracle)
    requires Consistent(s)
    ensures Consistent(UserController.Resend(s, email, o).store)
  {
    var user := ResendTarget(s, email);
    if Validate(Candidate(None, email, None), Group.Resend, ContextOf(s, o)) == [] && user.Some? && !user.value.verified {
      if user.value.id in s.verifyTokens.Values {
        ResendReusesToken(s, email, o);
      } else {
        ResendMintsToken(s, email, o);
        assert user.value.id in Ids(s.users);
      }
    } else {
      ResendRefusals(s, email, o);
      if Validate(Candidate(None, email, None), Group.Resend, ContextOf(s, o)) == [] && user.Some? {
        ResendToVerifiedUser(s, email, o);
      }
    }
  }

  lemma SendResetKeepsConsistent(s: Store, body: Candidate, o: Oracle)
    requires Consistent(s)
    ensures Consistent(SendResend(s, body, o, None).store)
  {
    var user := ResetTarget(s, body);
    if Validate(Candidate(body.username, body.email, None), SendReset, ContextOf(s, o)) == [] && user.Some? && user.value.verified {
      SendResetAlwaysMints(s, body, o);
      assert user.value.id in Ids(s.users);
    } else {
      SendResetRefusals(s, body, o, None);
    }
  }

  lemma ResetPasswordKeepsConsistent(rev: Revision, s: Store, form: ResetForm, o: Oracle)
    requires Consistent(s)
    ensures Consistent(ResetPassword(rev, s, form, o).store)
  {
    ResetPasswordGuards(rev, s, form, o);
    if form.token in s.resetTokens && !Expired(rev, s.resetTokens[form.token].createdAtMs, o.nowMs)
      && form.password == form.passwordAgain
    {
      var owner := ResetOwner(s, form.token).value;
      var candidate := Candidate(Some(owner.username), Some(owner.email), form.password);
      if Validate(candidate, Login, ContextOf(s, o)) == [] {
        ResetPasswordSucceeds(rev, s, form, o);
        var updated := owner.(password := o.hasher.hash(form.password.value), passwordIdentifier := RandomHex(o, 5));
        SaveKeepsKeys(s.users, owner, updated);
      } else {
        ResetPasswordRejectsInvalid(rev, s, form, o);
      }
    }
  }

  /** Every request, in either revision, keeps the store consistent,
      provided the database hands out an id no row has yet. */
  lemma HandleKeepsConsistent(rev: Revision, s: Store, r: Request, o: Oracle)
    requires Consistent(s)
    requires o.newUserId !in Ids(s.users)
    ensures Consistent(Handle(rev, s, r, o).store)
  {
    match r
    case RegisterRequest(body) => RegisterKeepsConsistent(s, body, o);
    case LoginRequest(body) => LoginKeepsConsistent(s, body, o);
    case ProfileRequest(_) =>
    case RefreshRequest(_) =>
    case LogoutRequest(_) =>
    case VerifyRequest(token) => VerifyKeepsConsistent(s, token);
    case ResendRequest(email) => ResendKeepsConsistent(s, email, o);
    case SendResetRequest(body) => SendResetKeepsConsistent(s, body, o);
    case ResetPasswordRequest(form) => ResetPasswordKeepsConsistent(rev, s, form, o);
  }

  /** A sequence of requests, each with what the world supplied for it.
      No run loses a user: every row keeps its place and its id, and the
      table grows by at most one row per registration. */
  ghost function Run(rev: Revision, s: Store, rs: seq<Request>, os: seq<Oracle>): (end: Store)
    requires |rs| == |os|
    ensures KeepsRows(s.users, end.users)
    ensures |end.users| <= |s.users| + Registrations(rs)
    decreases |rs|
  {
    if rs == [] then s else Run(rev, Handle(rev, s, rs[0], os[0]).store, rs[1..], os[1..])
  }

  /** How many of the requests are registrations. */
  function Registrations(rs: seq<Request>): nat {
    if rs == [] then 0 else (if rs[0].RegisterRequest? then 1 else 0) + Registrations(rs[1..])
  }

  /** Running the first i + 1 requests is running the first one and then
      the next i. */
  lemma RunPrefix(rev: Revision, s: Store, rs: seq<Request>, os: seq<Oracle>, i: nat)
    requires |rs| == |os| && i < |rs|
    ensures Run(rev, s, rs[..i + 1], os[..i + 1]) ==
      Run(rev, Handle(rev, s, rs[0], os[0]).store, rs[1..][..i], os[1..][..i])
  {
    assert rs[..i + 1][0] == rs[0] && os[..i + 1][0] == os[0];
    assert rs[..i + 1][1..] == rs[1..][..i];
    assert os[..i + 1][1..] == os[1..][..i];
  }

  /** Fresh ids at every step keep the store consistent through any run. */
  lemma {:induction false} RunKeepsConsistent(rev: Revision, s: Store, rs: seq<Request>, os: seq<Oracle>)
    requires |rs| == |os|
    requires Consistent(s)
    requires forall i :: 0 <= i < |os| ==> os[i].newUserId !in Ids(Run(rev, s, rs[..i], os[..i]).users)
    ensures Consistent(Run(rev, s, rs, os))
    decreases |rs|
  {
    if rs != [] {
      assert rs[..0] == [] && os[..0] == [];
      assert os[0].newUserId !in Ids(Run(rev, s, rs[..0], os[..0]).users);
      HandleKeepsConsistent(rev, s, rs[0], os[0]);
      var next := Handle(rev, s, rs[0], os[0]).store;
      forall i | 0 <= i < |os[1..]|
        ensures os[1..][i].newUserId !in Ids(Run(rev, next, rs[1..][..i], os[1..][..i]).users)
      {
        RunPrefix(rev, s, rs, os, i);
        assert os[i + 1].newUserId !in Ids(Run(rev, s, rs[..i + 1], os[..i + 1]).users);
      }
      RunKeepsConsistent(rev, next, rs[1..], os[1..]);
    }
  }

  /* ---------------- scenarios ---------------- */

  /** A freshly registered user cannot log in yet: the right password gets
      401 USER_NOT_VERIFIED. */
  lemma FreshUserCannotLogIn(s: Store, body: Candidate, o: Oracle, later: Oracle)
    requires Consistent(s) && o.newUserId !in Ids(s.users)
    requires Validate(body, Register, ContextOf(s, o)) == [] && o.mailDelivered
    requires Sound(o.hasher) && later.hasher == o.hasher && later.isEmail == o.isEmail
    ensures var registered := CreateUser(s, body, o).store;
      LoginUser(registered, body, later) == Step(registered, LoginStatus(401, UserNotVerified), None)
  {
    var registered := CreateUser(s, body, o).store;
    RegisterSucceeds(s, body, o);
    RegisterKeepsConsistent(s, body, o);
    var u := registered.users[|s.users|];
    RegisteredPassesLogin(body, ContextOf(s, o), ContextOf(registered, later));
    var found := LoginTarget(registered, body).value;
    SharedKeySameRow(registered.users, found, u);
    LoginUnverified(registered, body, later);
  }

  /** Register, follow the mailed verify link, log in: the login succeeds
      and opens a session for the new user. */
  lemma RegisterVerifyLogin(s: Store, body: Candidate, o: Oracle, later: Oracle)
    requires Consistent(s) && o.newUserId !in Ids(s.users)
    requires Validate(body, Register, ContextOf(s, o)) == [] && o.mailDelivered
    requires Sound(o.hasher) && later.hasher == o.hasher && later.isEmail == o.isEmail
    ensures CreateUser(s, body, o).mail.Some?
    ensures var registered := CreateUser(s, body, o).store;
      var verified := Verify(registered, CreateUser(s, body, o).mail.value.token);
      var login := LoginUser(verified.store, body, later);
      && verified.reply == VerifyStatus(200, AccountVerified)
      && login.reply.status == 200
      && login.store.sessions == verified.store.sessions[RandomHex(later, SessionTokenBytes) := o.newUserId]
  {
    var registered := CreateUser(s, body, o).store;
    RegisterSucceeds(s, body, o);
    RegisterKeepsConsistent(s, body, o);
    var u := registered.users[|s.users|];
    var token := RandomHex(o, VerifyTokenBytes);
    assert registered.verifyTokens[token] == u.id;
    var owner := FindById(registered.users, u.id).value;
    SharedKeySameRow(registered.users, owner, u);
    VerifyKeepsConsistent(registered, token);
    var verified := Verify(registered, token).store;
    var v := u.(verified := true);
    assert verified.users == UpdateUser(registered.users, v);
    assert verified.users[|s.users|] == v;
    RegisteredPassesLogin(body, ContextOf(s, o), ContextOf(verified, later));
    var found := LoginTarget(verified, body).value;
    SharedKeySameRow(verified.users, found, v);
    HashThenCompare(v.(password := body.password.value), o.hasher);
    LoginSucceeds(verified, body, later);
  }
}
