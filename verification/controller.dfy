/** The handlers of `UserController` (src/controller/user.ts) as pure state
    transitions: each takes the store, the request and what the world
    supplies (an Oracle) and returns the new store, the HTTP reply and the
    email it tried to send.

    Three handlers carry a defect that has a corrected reading; they take a
    Revision, and `AsWritten` is the deployed behaviour. */
module UserController {
  import opened Wrappers
  import opened StatusCodes
  import opened Validation
  import opened Entity
  import opened Store
  import opened Search
  import Hex

  /** What a request consumes that the model does not compute. */
  datatype Oracle = Oracle(
    newUserId: UserId,                 // the uuid the database assigns on insert
    randomBytes: nat -> seq<Hex.byte>, // crypto.randomBytes(n)
    hasher: Hasher,                    // bcrypt hash / compare
    mailDelivered: bool,               // whether email.send resolved
    nowMs: int,                        // moment.now(), milliseconds since the epoch
    isEmail: string -> bool)           // the IsEmail format test

  const PasswordIdentifierBytes: nat := 5
  const VerifyTokenBytes: nat := 3
  const SessionTokenBytes: nat := 3
  const ResetTokenBytes: nat := 6

  /** `expiresIn: '20m'`. */
  const AccessTokenSeconds: nat := 20 * 60
  /** `expiresIn: '1y'`; the time-span parser counts a year as 365.25 days. */
  const RefreshTokenSeconds: nat := 31557600
  /** `add(10, 'minutes')`. */
  const ResetTokenLifetimeMs: nat := 10 * 60 * 1000

  /** What `crypto.randomBytes` promises: asked for n bytes, it gives n. */
  ghost predicate ExactBytes(o: Oracle) {
    forall n: nat :: |o.randomBytes(n)| == n
  }

  /** `crypto.randomBytes(n).toString('hex')`. */
  function RandomHex(o: Oracle, n: nat): string {
    Hex.Encode(o.randomBytes(n))
  }

  /** Two hexadecimal digits per byte drawn, so 2n characters from an
      honest source. */
  lemma RandomHexLength(o: Oracle, n: nat)
    ensures |RandomHex(o, n)| == 2 * |o.randomBytes(n)|
    ensures ExactBytes(o) ==> |RandomHex(o, n)| == 2 * n
  {
  }

  /** The lengths of the tokens the handlers mint: a 10-character password
      identifier, 6-character verify and session tokens, and a 12-character
      reset token. */
  lemma TokenLengths(o: Oracle)
    requires ExactBytes(o)
    ensures |RandomHex(o, PasswordIdentifierBytes)| == 10
    ensures |RandomHex(o, VerifyTokenBytes)| == 6 && |RandomHex(o, SessionTokenBytes)| == 6
    ensures |RandomHex(o, ResetTokenBytes)| == 12
  {
    RandomHexLength(o, PasswordIdentifierBytes);
    RandomHexLength(o, VerifyTokenBytes);
    RandomHexLength(o, ResetTokenBytes);
  }

  /** The payload of the short-lived access token. */
  datatype AccessClaims = AccessClaims(sub: UserId, role: string, kind: string, expiresInSeconds: nat)

  /** The payload of the refresh token; the refresh and logout handlers
      receive it, already verified, as `ctx.state.user`. */
  datatype RefreshClaims = RefreshClaims(sub: UserId, session: string, pwId: string, kind: string, expiresInSeconds: nat)

  function AccessFor(u: User): AccessClaims {
    AccessClaims(u.id, u.role, "jwt", AccessTokenSeconds)
  }

  function RefreshFor(u: User, session: string): RefreshClaims {
    RefreshClaims(u.id, session, u.passwordIdentifier, "refresh", RefreshTokenSeconds)
  }

  datatype Body =
    | Text(text: string)                               // a status-code name, or a fixed sentence
    | FieldCodes(username: nat, email: nat, password: nat)
    | Errors(errors: seq<ValidationError>)             // the validation array: each entry's property and codes
    | Record(user: PublicUser)
    | Tokens(token: AccessClaims, refreshToken: RefreshClaims)
    | Token(token: AccessClaims)
    | PasswordPage(resetToken: string, error: string)  // the rendered reset form, kept opaque

  datatype Reply =
    | Reply(status: nat, body: Body)
    | Thrown(status: nat, message: string)             // ctx.throw(status, message)
    | Crashed                                          // an uncaught TypeError: Koa answers 500

  datatype Template = RegisterMail | PasswordResetMail

  /** A mail the handlers send: its template, its recipient and the token
      its link carries (`locals.token`). */
  datatype Mail = Mail(template: Template, to: string, token: string)

  /** The outcome of one request: the new store, the reply, and the mail the
      handler tried to send (whether or not it was delivered). */
  datatype Step = Step(store: Store, reply: Reply, mail: Option<Mail>)

  datatype Revision = AsWritten | Corrected

  function LoginStatus(status: nat, code: LoginStatusCode): Reply {
    Reply(status, Text(code.Name()))
  }

  function VerifyStatus(status: nat, code: VerifyStatusCode): Reply {
    Reply(status, Text(code.Name()))
  }

  /** The validation context a request sees in a given store. */
  function ContextOf(s: Store, o: Oracle): Context {
    Context(o.isEmail, Usernames(s.users), Emails(s.users))
  }

  /* ---------------- getErrors (:19-23) ---------------- */

  /** `errors.find(e => e.property == field)`, as a position. */
  function Find(errors: seq<ValidationError>, field: Field): Option<nat> {
    FirstMatch(errors, (e: ValidationError) => e.property == field)
  }

  /** `getErrors`: the number in the first message of the field's entry,
      or 0 (VALID) when the field has none. */
  function GetErrors(errors: seq<ValidationError>, field: Field): (code: nat)
    ensures code <= 5
    ensures code == 0 <==> forall i :: 0 <= i < |errors| ==> errors[i].property != field
    ensures code != 0 ==> exists i ::
      && 0 <= i < |errors|
      && errors[i].property == field
      && code == errors[i].constraints[0].Ordinal()
      && forall j :: 0 <= j < i ==> errors[j].property != field
  {
    match Find(errors, field)
    case None => 0
    case Some(i) => errors[i].constraints[0].Ordinal()
  }

  /** The `{ username, email, password }` body of a validation failure. */
  function FieldCodesOf(errors: seq<ValidationError>): Body {
    FieldCodes(GetErrors(errors, Username), GetErrors(errors, Email), GetErrors(errors, Password))
  }

  /** What `getErrors` reports for a validated candidate is the code of the
      field's first failing rule. */
  lemma GetErrorsOfValidate(c: Candidate, g: Group, ctx: Context, f: Field)
    ensures GetErrors(Validate(c, g, ctx), f) == FieldCode(f, g, c, ctx).Ordinal()
  {
    var errors := Validate(c, g, ctx);
    match Find(errors, f)
    case None =>
    case Some(i) =>
  }

  /* ---------------- register (:31-93) ---------------- */

  /** POST /user/register. Validation failures answer 400 with one code per
      field; the verification mail is sent before anything is saved. */
  function CreateUser(s: Store, body: Candidate, o: Oracle): (step: Step)
    ensures step.store.sessions == s.sessions && step.store.resetTokens == s.resetTokens
    ensures step.store == s <==> !(step.reply.Reply? && step.reply.status == 201)
    ensures step.store != s ==> |step.store.users| == |s.users| + 1 && step.store.users[..|s.users|] == s.users
  {
    var pwId := RandomHex(o, PasswordIdentifierBytes);
    var errors := Validate(body, Register, ContextOf(s, o));
    if errors != [] then
      Step(s, Reply(400, FieldCodesOf(errors)), None)
    else
      RegisterAccepted(body, ContextOf(s, o));
      var user := HashPassword(
        User(o.newUserId, body.username.value, body.email.value, body.password.value, pwId, false, DefaultRole, None),
        o.hasher);
      var token := RandomHex(o, VerifyTokenBytes);
      var mail := Some(Mail(RegisterMail, user.email, token));
      if !o.mailDelivered then
        Step(s, Thrown(500, "InternalServerError"), mail)
      else
        var users := s.users + [user];
        assert users[..|s.users|] == s.users;
        Step(s.(users := users, verifyTokens := s.verifyTokens[token := user.id]), Reply(201, Record(Public(user))), mail)
  }

  /* ---------------- login (:103-169) ---------------- */

  /** POST /user/login. Validation, then unknown user, then wrong password,
      then unverified; only then is a session saved and tokens issued. */
  function LoginUser(s: Store, body: Candidate, o: Oracle): (step: Step)
    ensures step.store.users == s.users && step.store.verifyTokens == s.verifyTokens
    ensures step.store.resetTokens == s.resetTokens
    ensures step.mail.None?
    ensures step.reply.Reply?
    ensures step.reply.status != 200 ==> step.store == s
    ensures step.reply.status == 200 ==>
      && step.reply.body.Tokens?
      && step.store.sessions == s.sessions[step.reply.body.refreshToken.session := step.reply.body.token.sub]
  {
    var errors := Validate(body, Login, ContextOf(s, o));
    var user := FindByEmailOrUsername(s.users, body.email, body.username);
    if errors != [] then
      Step(s, Reply(400, FieldCodesOf(errors)), None)
    else if user.None? then
      Step(s, LoginStatus(400, InvalidCredentials), None)
    else
      LoginAccepted(body, ContextOf(s, o));
      if !CompareHash(user.value, body.password.value, o.hasher) then
        Step(s, LoginStatus(400, InvalidCredentials), None)
      else if !user.value.verified then
        Step(s, LoginStatus(401, UserNotVerified), None)
      else
        var session := RandomHex(o, SessionTokenBytes);
        Step(s.(sessions := s.sessions[session := user.value.id]),
             Reply(200, Tokens(AccessFor(user.value), RefreshFor(user.value, session))), None)
  }

  /* ---------------- profile (:177-197) ---------------- */

  /** GET /user/profile, for the subject of a verified access token. */
  function GetProfile(s: Store, sub: UserId): (step: Step)
    ensures step.store == s && step.mail.None?
    ensures step.reply.Reply?
    ensures step.reply.status == 200 <==> sub in Ids(s.users)
    ensures step.reply.status == 200 ==> exists u :: u in s.users && u.id == sub && step.reply.body == Record(Public(u))
    ensures step.reply.status != 200 ==> step.reply == LoginStatus(400, UserNotFound)
  {
    match FindById(s.users, sub)
    case None => Step(s, LoginStatus(400, UserNotFound), None)
    case Some(u) => Step(s, Reply(200, Record(Public(u))), None)
  }

  /* ---------------- refresh (:201-242) ---------------- */

  /** GET /user/refresh. As written, the user and password-identifier
      checks set a reply but do not return; the session checks that follow
      set another one. The corrected revision returns at the first failure. */
  function Refresh(rev: Revision, s: Store, claims: RefreshClaims): (step: Step)
    ensures step.store == s && step.mail.None?
  {
    var user := FindById(s.users, claims.sub);
    var early :=
      if user.None? then Some(LoginStatus(400, UserNotFound))
      else if claims.pwId != user.value.passwordIdentifier then Some(LoginStatus(401, InvalidToken))
      else None;
    if rev == Corrected && early.Some? then
      Step(s, early.value, None)
    else
      var owner := if claims.session in s.sessions then Some(s.sessions[claims.session]) else None;
      var reply :=
        if owner.None? then LoginStatus(400, InvalidSession)
        else if user.None? then Crashed
        else if user.value.id != owner.value then LoginStatus(400, InvalidSession)
        else if !user.value.verified then LoginStatus(401, UserNotVerified)
        else Reply(200, Token(AccessFor(user.value)));
      Step(s, reply, None)
  }

  /* ---------------- logout (:246-287) ---------------- */

  /** GET /user/logout. Same fall-through as refresh; the session is looked
      up by token value and owner together, and removed on success. */
  function Logout(rev: Revision, s: Store, claims: RefreshClaims): (step: Step)
    ensures step.store.users == s.users && step.store.verifyTokens == s.verifyTokens
    ensures step.store.resetTokens == s.resetTokens
    ensures step.mail.None?
    ensures step.store.sessions == s.sessions || step.store.sessions == s.sessions - {claims.session}
  {
    var user := FindById(s.users, claims.sub);
    var early :=
      if user.None? then Some(LoginStatus(400, UserNotFound))
      else if claims.pwId != user.value.passwordIdentifier then Some(LoginStatus(401, InvalidToken))
      else None;
    if rev == Corrected && early.Some? then
      Step(s, early.value, None)
    else
      var found := claims.session in s.sessions && s.sessions[claims.session] == claims.sub;
      if !found then
        Step(s, LoginStatus(400, InvalidSession), None)
      else if user.None? then
        Step(s, Crashed, None)
      else
        // the owner test of :276 cannot fail here: the lookup of :266-274
        // already asked for a session whose owner is the subject

        Step(s.(sessions := s.sessions - {claims.session}), LoginStatus(200, LoggedOut), None)
  }

  /* ---------------- verify (:294-316) ---------------- */

  /** GET /user/verify/{token}: marks the owner verified and consumes the token. */
  function Verify(s: Store, token: string): (step: Step)
    ensures step.store.sessions == s.sessions && step.store.resetTokens == s.resetTokens
    ensures step.mail.None?
    ensures step.store.verifyTokens == s.verifyTokens || step.store.verifyTokens == s.verifyTokens - {token}
    ensures token !in s.verifyTokens ==> step == Step(s, VerifyStatus(400, TokenNotFound), None)
    ensures KeepsRows(s.users, step.store.users) && |step.store.users| == |s.users|
  {
    if token !in s.verifyTokens then
      Step(s, VerifyStatus(400, TokenNotFound), None)
    else
      match FindById(s.users, s.verifyTokens[token])
      case None => Step(s, Crashed, None)
      case Some(owner) =>
        Step(s.(users := UpdateUser(s.users, owner.(verified := true)), verifyTokens := s.verifyTokens - {token}),
             VerifyStatus(200, AccountVerified), None)
  }

  /* ---------------- resend (:320-399) ---------------- */

  /** POST /user/resend { email }. An existing verify token is mailed again;
      otherwise a new one is minted, mailed, and saved after the mail. */
  ghost function Resend(s: Store, email: Option<string>, o: Oracle): (step: Step)
    ensures step.store.users == s.users && step.store.sessions == s.sessions
    ensures step.store.resetTokens == s.resetTokens
    ensures step.store.verifyTokens.Keys <= s.verifyTokens.Keys + {RandomHex(o, VerifyTokenBytes)}
    ensures step.store != s ==> step.mail.Some? && o.mailDelivered
  {
    var errors := Validate(Candidate(None, email, None), Group.Resend, ContextOf(s, o));
    var user := FindByEmail(s.users, email);
    if errors != [] then
      Step(s, Reply(400, Errors(errors)), None)
    else if user.None? then
      Step(s, LoginStatus(400, UserNotFound), None)
    else if user.value.verified then
      Step(s, VerifyStatus(400, AccountAlreadyVerified), None)
    else
      if user.value.id !in s.verifyTokens.Values then
        var token := RandomHex(o, VerifyTokenBytes);
        var mail := Some(Mail(RegisterMail, user.value.email, token));
        if !o.mailDelivered then
          Step(s, Thrown(500, InternalServerError.Name()), mail)
        else
          Step(s.(verifyTokens := s.verifyTokens[token := user.value.id]), VerifyStatus(200, EmailSent), mail)
      else
        var mail := Some(Mail(RegisterMail, user.value.email, TokenOwnedBy(s.verifyTokens, user.value.id)));
        if !o.mailDelivered then
          Step(s, Thrown(500, InternalServerError.Name()), mail)
        else
          Step(s, VerifyStatus(200, EmailSent), mail)
  }

  /* ---------------- send-password-reset (:403-495) ---------------- */

  /** POST /user/send-password-reset { email | username }. `loaded` is what
      `user.reset_token` holds at :444; the query at :419-424 loads no
      relations, so the deployed handler always sees None. */
  function SendResend(s: Store, body: Candidate, o: Oracle, loaded: Option<string>): (step: Step)
    ensures step.store.users == s.users && step.store.sessions == s.sessions
    ensures step.store.verifyTokens == s.verifyTokens
    ensures step.store != s ==> step.mail.Some? && o.mailDelivered && loaded.None?
  {
    var request := Candidate(body.username, body.email, None);
    var errors := Validate(request, SendReset, ContextOf(s, o));
    var user := FindByEmailOrUsername(s.users, body.email, body.username);
    if errors != [] then
      Step(s, Reply(400, FieldCodesOf(errors)), None)
    else if user.None? then
      Step(s, LoginStatus(400, UserNotFound), None)
    else if !user.value.verified then
      Step(s, LoginStatus(400, UserNotVerified), None)
    else
      if loaded.None? then
        var token := RandomHex(o, ResetTokenBytes);
        var mail := Some(Mail(PasswordResetMail, user.value.email, token));
        if !o.mailDelivered then
          Step(s, Thrown(500, InternalServerError.Name()), mail)
        else
          Step(s.(resetTokens := s.resetTokens[token := ResetToken(user.value.id, o.nowMs)]), VerifyStatus(200, EmailSent), mail)
      else
        var mail := Some(Mail(PasswordResetMail, user.value.email, loaded.value));
        if !o.mailDelivered then
          Step(s, Thrown(500, InternalServerError.Name()), mail)
        else
          Step(s, VerifyStatus(200, EmailSent), mail)
  }

  /* ---------------- reset-password (:519-565) ---------------- */

  /** The form posted to /user/reset-password. */
  datatype ResetForm = ResetForm(password: Option<string>, passwordAgain: Option<string>, token: string)

  /** The expiry test of :529. As written it compares the expiry instant in
      seconds (`unix()`) with the clock in milliseconds (`moment.now()`) and
      calls the token expired when the expiry lies in the future. */
  predicate Expired(rev: Revision, createdAtMs: int, nowMs: int)
    ensures rev == AsWritten && 601 <= createdAtMs <= nowMs ==> !Expired(rev, createdAtMs, nowMs)
    ensures rev == Corrected && createdAtMs <= nowMs <= createdAtMs + ResetTokenLifetimeMs ==> !Expired(rev, createdAtMs, nowMs)
    ensures rev == Corrected && nowMs > createdAtMs + ResetTokenLifetimeMs ==> Expired(rev, createdAtMs, nowMs)
  {
    match rev
    case AsWritten =>
      assert 601 <= createdAtMs ==> createdAtMs + ResetTokenLifetimeMs < 1000 * createdAtMs;
      (createdAtMs + ResetTokenLifetimeMs) / 1000 > nowMs
    case Corrected => createdAtMs + ResetTokenLifetimeMs < nowMs
  }

  /** The tail of reset-password (:541-564), once the token is live and the
      two fields agree: validate the new password in the login group, then
      save its hash under a fresh password identifier and consume the token. */
  function ChangePassword(s: Store, form: ResetForm, owner: User, o: Oracle): (step: Step)
    ensures step.store.verifyTokens == s.verifyTokens && step.store.sessions == s.sessions
    ensures step.mail.None?
    ensures step.store == s || step.reply == Reply(200, Text("Password Changed"))
    ensures step.store.resetTokens == s.resetTokens || step.store.resetTokens == s.resetTokens - {form.token}
    ensures KeepsRows(s.users, step.store.users) && |step.store.users| == |s.users|
  {
    var candidate := Candidate(Some(owner.username), Some(owner.email), form.password);
    var errors := Validate(candidate, Login, ContextOf(s, o));
    if errors != [] then
      Step(s, Reply(400, Errors(errors)), None)
    else
      LoginAccepted(candidate, ContextOf(s, o));
      var updated := HashPassword(
        owner.(password := form.password.value, passwordIdentifier := RandomHex(o, PasswordIdentifierBytes)),
        o.hasher);
      Step(s.(users := UpdateUser(s.users, updated), resetTokens := s.resetTokens - {form.token}),
           Reply(200, Text("Password Changed")), None)
  }

  /** POST /user/reset-password: the token must exist, must not be expired
      (an expired one is deleted), and the two password fields must agree. */
  function ResetPassword(rev: Revision, s: Store, form: ResetForm, o: Oracle): (step: Step)
    ensures step.store.verifyTokens == s.verifyTokens && step.store.sessions == s.sessions
    ensures step.mail.None?
    ensures step.store.resetTokens == s.resetTokens || step.store.resetTokens == s.resetTokens - {form.token}
    ensures step.store.users != s.users ==> step.reply == Reply(200, Text("Password Changed"))
    ensures KeepsRows(s.users, step.store.users) && |step.store.users| == |s.users|
  {
    if form.token !in s.resetTokens then
      Step(s, VerifyStatus(400, TokenNotFound), None)
    else
      var row := s.resetTokens[form.token];
      if Expired(rev, row.createdAtMs, o.nowMs) then
        Step(s.(resetTokens := s.resetTokens - {form.token}), VerifyStatus(400, TokenExpired), None)
      else if form.password != form.passwordAgain then
        Step(s, Reply(400, PasswordPage(form.token, "Password fields do not match")), None)
      else
        match FindById(s.users, row.owner)
        case None => Step(s, Crashed, None)
        case Some(owner) => ChangePassword(s, form, owner, o)
  }
}
