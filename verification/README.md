# PotatoSync login service: the user controller in Dafny

PotatoSync's login service is a Koa REST API. It lets a user register an account, confirm the email address through a mailed token, log in for a short-lived access token and a long-lived refresh token, refresh and log out sessions, ask for another verification mail, and reset a forgotten password through a mailed token.

This project models that account lifecycle as pure state transitions over an immutable store, and proves what each handler promises:
- which guard answers first, and with what status and body;
- what is saved, what is deleted, and what mail is attempted;
- how the store's integrity is kept across any sequence of requests.

## Layout

- `wrappers.dfy`: `Option`.
- `search.dfy`: the first-match search behind both `findOne` and `errors.find`.
- `statuscodes.dfy`: the three status-code enums of `src/statuscodes.ts`, with their ordinals and their names as the handlers print them.
- `hex.dfy`: `randomBytes(n).toString('hex')`, the encoding every token and password identifier uses, with its inverse.
- `validation.dfy`: the validation decorators of the `User` entity, evaluated per validation group the way class-validator does, and the first failure code of each property.
- `entity.dfy`: the `User` row, the reply without secrets, and bcrypt's `hash`/`compare` as an abstract hasher.
- `store.dfy`: the user table (a sequence of rows, so `findOne` is "the first match"), the verify-token, session and reset-token tables, the lookups, and the store's integrity predicate `Consistent`.
- `controller.dfy`: `getErrors` and the handlers. Each handler returns the new store, the reply and the mail it tried to send.
- `properties.dfy`: the per-handler properties.
- `lifecycle.dfy`: request dispatch, preservation of `Consistent`, and end-to-end scenarios.
- `findings.dfy`: three defects, shown on the deployed code and proved absent from the corrected reading.

What the world supplies is an `Oracle` parameter:
- the id the database assigns;
- the random bytes;
- the hasher;
- whether the mail was delivered;
- the clock in milliseconds;
- the `IsEmail` format test.

Handlers with a finding take a `Revision`. `AsWritten` is the deployed behaviour; `Corrected` is the evidently intended one.

## Quirks of the code

The model follows the code in each of these cases.
- Register sends the verification mail before saving the user or the token, so a failed mail saves nothing (HandlerProperties.RegisterMailFailurePersistsNothing).
- In refresh and logout, the missing-user and stale-identifier branches set a reply without returning, and the session checks that follow decide the outcome (the first two findings below).
- The reset-token expiry test never fires for a token read after it was created, once the token's timestamp is past 601 ms after the epoch (the third finding).
- Send-password-reset looks the user up without loading the `reset_token` relation (src/controller/user.ts:419-424), so the reuse test at :444 never sees a token and a new one is always minted (HandlerProperties.SendResetAlwaysMints). The reuse branch is modelled as well, as HandlerProperties.SendResetReusesLoadedToken.

## Model

| member | source | states |
|---|---|---|
| StatusCodes.VerifyStatusLayout | src/statuscodes.ts:1-14 | the verify codes are numbered 0..5 in declaration order and have distinct names |
| StatusCodes.VerifyStatusRoundTrip | src/statuscodes.ts:1-14 | looking a verify code up by its ordinal or by its name gives it back |
| StatusCodes.VerifyStatusNameInverse | src/statuscodes.ts:1-14 | a number names a verify code exactly when it is below 6, and that code's ordinal is the number |
| StatusCodes.LoginStatusLayout | src/statuscodes.ts:16-29 | the login codes are numbered 0..5 in declaration order and have distinct names |
| StatusCodes.LoginStatusRoundTrip | src/statuscodes.ts:16-29 | looking a login code up by its ordinal or by its name gives it back |
| StatusCodes.ValidationStatusLayout | src/statuscodes.ts:31-44 | the validation codes carry the explicit values 0..5, and distinct codes have distinct values and names |
| StatusCodes.ValidationStatusRoundTrip | src/statuscodes.ts:31-44 | the code of a number and the number of a code are inverse |
| Hex.Encode | src/controller/user.ts:44 | the hex text of n bytes is 2n lower-case hex digits |
| Hex.DecodeEncode | src/controller/user.ts:44 | decoding the hex text of some bytes gives the bytes back |
| Hex.EncodeDecode | src/controller/user.ts:44 | any text that decodes is the encoding of what it decodes to |
| Hex.EncodeInjective | src/controller/user.ts:44 | different byte strings give different tokens |
| Validation.Decorators | src/entity/user.ts:14-39 | each property opens with its two length bounds, the lower below the upper, both applying in register and login |
| Validation.DecoratorTable | src/entity/user.ts:14-39 | each decorator's message is the code of its rule, so none is MISSING; uniqueness is checked only in register and never on the password; only email is validated in resend |
| Validation.Considered | src/entity/user.ts:18 | a property is skipped only in login and send-reset, and the password never is (`ValidateIf` on username, `IsOptional` on email at :38) |
| Validation.OneIdentifierConsidered | src/entity/user.ts:38 | in login and send-reset exactly one of username and email is validated: email when it is given |
| Validation.Failures | src/entity/user.ts:14-39 | the failure codes of a property are at most one per decorator |
| Validation.FailuresMembers | src/entity/user.ts:14-39 | a code is reported for a property exactly when one of its failing decorators carries it |
| Validation.FailuresAppend | src/entity/user.ts:14-39 | failures keep declared order: those of a split list are those of the first part followed by those of the rest |
| Validation.FailuresOfOne | src/entity/user.ts:14-39 | a single decorator reports its message exactly when it fails |
| Validation.FailuresStartWithFirstFailure | src/entity/user.ts:14-39 | a property fails exactly when it has a first failing rule, and that rule's code comes first |
| Validation.FirstFailureOfFour | src/entity/user.ts:14-39 | the first failure of a short rule list is the first rule, in order, that applies and fails |
| Validation.CheckReportsFieldCode | src/entity/user.ts:14-39 | a property has an error entry exactly when its code is not VALID, and the entry's first message is that code |
| Validation.Concatenated | src/entity/user.ts:14-39 | joining the three per-property entries keeps each property's code and never repeats a property |
| Validation.Validate | src/entity/user.ts:14-39 | every error entry leads with its property's code; every failing property has an entry; no property appears twice |
| Validation.ValidateAccepts | src/entity/user.ts:14-39 | a candidate validates exactly when every property's code is VALID |
| Validation.UsernameRules | src/entity/user.ts:14-19 | username: 3..80 characters in register, login and send-reset, and unique in register; skipped in resend, and in login and send-reset when an email is given |
| Validation.PasswordRules | src/entity/user.ts:22-28 | password: 5..60 characters in register and login only |
| Validation.EmailRules | src/entity/user.ts:33-39 | email: 10..100 characters and a valid format in every group, unique in register; optional in login and send-reset |
| Validation.ReportedCodes | src/entity/user.ts:14-39 | ALREADY_EXISTS comes only from register, never for the password; MISSING is never reported |
| Validation.RegisterAccepted | src/entity/user.ts:14-39 | a register candidate that validates has all three properties, in range, of valid format and not taken |
| Validation.LoginAccepted | src/entity/user.ts:22-28 | a login candidate that validates has a password of 5..60 characters |
| Validation.RegisteredPassesLogin | src/entity/user.ts:14-39 | what register accepted, login accepts |
| Entity.PublicHidesSecrets | src/controller/user.ts:87-88 | two users have the same public view exactly when they differ at most in password and password identifier (the same two deletions serve profile at :191-192) |
| Entity.HashPassword | src/entity/user.ts:61-63 | hashing replaces the password by its hash and changes nothing else |
| Entity.CompareHash | src/entity/user.ts:65-67 | with a sound hasher, a password compares equal to a stored hash of itself |
| Entity.HashThenCompare | src/entity/user.ts:61-67 | with a sound hasher, a password matches its own hash |
| Search.FirstMatch | src/controller/user.ts:20 | the position found is the first element that matches, and none is found only when nothing matches; it serves both `errors.find` and `findOne` (:183) |
| Store.FindById | src/controller/user.ts:183 | a user is found by id exactly when a row has that id, and the row found has it |
| Store.FindByEmail | src/controller/user.ts:336 | a user is found by email exactly when the email is given and some row has it |
| Store.FindByEmailOrUsername | src/controller/user.ts:120-125 | a user is found exactly when a given email or a given username is in the table, and the row found matches one of them |
| Store.UpdateUser | src/controller/user.ts:309 | saving a user replaces the rows with its id and leaves every other row alone, so every row keeps its place and id |
| Store.FindByIdIsTheRow | src/controller/user.ts:183 | with unique ids, the lookup by a row's id finds that row |
| Store.UpdateUserKeepsKeys | src/controller/user.ts:558 | replacing a row by one with the same keys keeps the table's unique columns and key sets |
| Store.AppendUserKeepsKeys | src/controller/user.ts:83 | inserting a row with a new id, username and email keeps the columns unique |
| Store.SharedKeySameRow | src/entity/user.ts:11-14 | with unique columns, rows that share an id, username or email are the same row |
| Store.SaveKeepsKeys | src/controller/user.ts:309 | saving a new version of an existing row keeps the unique columns and the ids |
| UserController.RandomHexLength | src/controller/user.ts:44 | a token is two characters per random byte drawn, so 2n characters when n bytes are drawn |
| UserController.TokenLengths | src/controller/user.ts:44 | password identifiers have 10 characters (also :555), verify and session tokens 6 (:65, :151, :354), reset tokens 12 (:447) |
| UserController.GetErrors | src/controller/user.ts:19-23 | a field's number is 0 when it has no entry, otherwise the first message of its first entry, and never above 5 |
| UserController.GetErrorsOfValidate | src/controller/user.ts:19-23 | the number reported for a validated field is the code of its first failing rule |
| UserController.CreateUser | src/controller/user.ts:31-93 | register touches no session or reset token; the store changes exactly when the reply is 201, and then by one appended user |
| UserController.LoginUser | src/controller/user.ts:103-169 | login sends no mail and changes the store only on 200, and then by exactly the session in the refresh claim |
| UserController.GetProfile | src/controller/user.ts:177-197 | profile answers 200 with the public view of the subject's row exactly when it exists, otherwise 400 USER_NOT_FOUND |
| UserController.Refresh | src/controller/user.ts:201-242 | refresh changes nothing and sends no mail |
| UserController.Logout | src/controller/user.ts:246-287 | logout removes at most the claimed session and touches nothing else |
| UserController.Verify | src/controller/user.ts:294-316 | verify touches no session or reset token; an unknown token gets 400 TOKEN_NOT_FOUND and changes nothing; every row keeps its place and id |
| UserController.Resend | src/controller/user.ts:320-399 | resend adds at most the newly minted verify token, and only after a delivered mail |
| UserController.SendResend | src/controller/user.ts:403-495 | send-reset touches only the reset tokens, and only after a delivered mail when no token was loaded |
| UserController.Expired | src/controller/user.ts:529 | as written, a token is never expired when read after its creation, once created past 601 ms after the epoch; corrected, it is live for ten minutes after its creation and expired from then on |
| UserController.ChangePassword | src/controller/user.ts:541-564 | a password change either changes nothing or answers 200 and consumes at most the reset token; every row keeps its place and id |
| UserController.ResetPassword | src/controller/user.ts:519-566 | reset-password consumes at most the given token and changes a user only when it answers 200; every row keeps its place and id |
| HandlerProperties.RegisterRejectsInvalid | src/controller/user.ts:46-61 | a rejected registration answers 400 with each field's first failure code and changes nothing |
| HandlerProperties.RegisterMailFailurePersistsNothing | src/controller/user.ts:63-86 | a failed verification mail leaves no user and no token behind |
| HandlerProperties.RegisterSucceeds | src/controller/user.ts:40-92 | success appends one unverified user with the password's hash and a fresh 10-character identifier, adds its 6-character verify token, mails that token to the new address, and answers 201 without secrets |
| HandlerProperties.RegisterKeepsOtherVerifyTokens | src/controller/user.ts:65-85 | when no stored verify token decodes to the bytes drawn, registration adds a new token and keeps every other token with its owner |
| HandlerProperties.RegisteredPasswordMatches | src/controller/user.ts:62-83 | the password given at registration matches the stored hash |
| HandlerProperties.LoginEnumerationSafe | src/controller/user.ts:136-143 | an unknown user and a wrong password get the same 400 INVALID_CREDENTIALS and no session |
| HandlerProperties.LoginUnverified | src/controller/user.ts:144-147 | the right password of an unverified user gets 401 USER_NOT_VERIFIED and no session |
| HandlerProperties.LoginSucceeds | src/controller/user.ts:148-168 | a verified user with the right password gets one new session, a 20-minute access claim and a one-year refresh claim bound to session and identifier |
| HandlerProperties.LoginKeepsOtherSessions | src/controller/user.ts:148-153 | when no stored session token decodes to the bytes drawn, a login adds a new session and keeps every other session with its owner |
| HandlerProperties.SecondLoginKeepsFirst | src/controller/user.ts:148-153 | two logins that draw different bytes open different sessions, and the second leaves the first in place |
| HandlerProperties.LoginGrantedOnlyToVerifiedOwner | src/controller/user.ts:127-168 | a 200 login implies a valid request, an existing verified user and a matching password |
| HandlerProperties.RefreshIgnoresPasswordIdentifier | src/controller/user.ts:210-242 | the refresh outcome does not depend on the claim's password identifier |
| HandlerProperties.RefreshOutcome | src/controller/user.ts:221-241 | for an existing user, refresh answers 200 exactly when the session is the user's and the user is verified |
| HandlerProperties.RefreshWithoutUser | src/controller/user.ts:208-224 | for a missing user, refresh crashes when the session exists and answers INVALID_SESSION otherwise |
| HandlerProperties.LogoutIgnoresPasswordIdentifier | src/controller/user.ts:255-287 | the logout outcome does not depend on the claim's password identifier |
| HandlerProperties.LogoutOutcome | src/controller/user.ts:266-286 | for an existing user, logout succeeds exactly when the session is the user's, and then removes that one session |
| HandlerProperties.LogoutWithoutUser | src/controller/user.ts:253-280 | in a consistent store, logout for a missing user answers INVALID_SESSION and cannot crash |
| HandlerProperties.LogoutEndsOnlyThatSession | src/controller/user.ts:276-286 | after logout the same refresh claim is refused and every other session refreshes as before |
| HandlerProperties.VerifyConsumesToken | src/controller/user.ts:300-315 | an existing token marks exactly its owner verified and is removed |
| HandlerProperties.VerifyIsSingleUse | src/controller/user.ts:300-315 | verifying a second time with the same token finds nothing |
| HandlerProperties.ResendToVerifiedUser | src/controller/user.ts:346-349 | an already verified user gets 400 ACCOUNT_ALREADY_VERIFIED and no mail |
| HandlerProperties.ResendReusesToken | src/controller/user.ts:377-397 | the mail carries a stored verify token that the user owns, so the existing token is mailed again, and the store is unchanged |
| HandlerProperties.ResendMintsToken | src/controller/user.ts:351-376 | without a verify token, exactly one is minted and mailed, and saved only after a delivered mail |
| HandlerProperties.ResendRefusals | src/controller/user.ts:338-345 | validation errors come back raw, and an unknown email gets USER_NOT_FOUND, without mail |
| HandlerProperties.SendResetRefusals | src/controller/user.ts:425-441 | rejections carry the username and email codes and password 0; unknown and unverified users are refused |
| HandlerProperties.SendResetAlwaysMints | src/controller/user.ts:442-470 | with the relation unloaded, a verified user is mailed a new reset token, saved with the clock after a delivered mail |
| HandlerProperties.SendResetReusesLoadedToken | src/controller/user.ts:471-493 | a loaded reset token would be mailed again (the mail carries it) with nothing saved |
| HandlerProperties.ResetPasswordGuards | src/controller/user.ts:524-539 | unknown token, then expired token (deleted), then mismatched fields, each with its reply |
| HandlerProperties.ResetPasswordSucceeds | src/controller/user.ts:540-564 | a valid new password is stored hashed under a fresh identifier and the token is consumed |
| HandlerProperties.ResetPasswordRejectsInvalid | src/controller/user.ts:544-553 | an invalid new password gets the raw errors and changes nothing |
| Lifecycle.Handle | src/controller/user.ts:28-566 | only register, verify and reset-password touch users, only register adds one, and no request removes or moves a row; only login and logout touch sessions; only register, resend and send-reset send mail |
| Lifecycle.Run | src/controller/user.ts:28-566 | no run of requests loses a user: every row keeps its place and id, and the table grows by at most one row per registration |
| Lifecycle.RegisterKeepsConsistent | src/controller/user.ts:83-85 | register keeps the store consistent |
| Lifecycle.LoginKeepsConsistent | src/controller/user.ts:148-153 | login keeps the store consistent |
| Lifecycle.VerifyKeepsConsistent | src/controller/user.ts:306-311 | verify keeps the store consistent |
| Lifecycle.ResendKeepsConsistent | src/controller/user.ts:351-373 | resend keeps the store consistent |
| Lifecycle.SendResetKeepsConsistent | src/controller/user.ts:442-468 | send-reset keeps the store consistent |
| Lifecycle.ResetPasswordKeepsConsistent | src/controller/user.ts:529-560 | reset-password keeps the store consistent |
| Lifecycle.HandleKeepsConsistent | src/controller/user.ts:28-566 | every request, in either revision, keeps the store consistent |
| Lifecycle.RunKeepsConsistent | src/controller/user.ts:28-566 | any sequence of requests keeps the store consistent |
| Lifecycle.FreshUserCannotLogIn | src/controller/user.ts:144-147 | a freshly registered user gets 401 USER_NOT_VERIFIED at login |
| Lifecycle.RegisterVerifyLogin | src/controller/user.ts:31-169 | register, verify with the token the register mail carries, log in: the login succeeds and opens a session for the new user |
| Findings.StaleRefreshAccepted | src/controller/user.ts:214-218 | as written, a refresh claim with an outdated password identifier still gets an access token |
| Findings.StaleIdentifierRefused | src/controller/user.ts:214-218 | corrected, an outdated identifier gets 401 INVALID_TOKEN |
| Findings.RefreshChecksIdentifier | src/controller/user.ts:201-242 | corrected, refresh answers 200 exactly when the user exists, the identifier is current, the session is the user's and the user is verified; it never crashes |
| Findings.ResetOwnerFound | src/controller/user.ts:554-558 | in either revision, after a reset the owner's row holds the new hash and identifier and the sessions are unchanged |
| Findings.PasswordResetKeepsStaleRefresh | src/controller/user.ts:214-241 | as written, refresh claims issued before a password reset still work after it |
| Findings.PasswordResetRevokesRefresh | src/controller/user.ts:214-218 | corrected, those claims are refused with 401 INVALID_TOKEN |
| Findings.StaleLogoutAccepted | src/controller/user.ts:259-263 | as written, logout with an outdated identifier still ends the session |
| Findings.LogoutChecksIdentifier | src/controller/user.ts:246-287 | corrected, logout ends the session exactly when the user exists, the identifier is current and the session is the user's |
| Findings.AsWrittenExpiryNeverFires | src/controller/user.ts:529 | as written, the expiry test never fires for a token read after it was created, once its timestamp is past 601 ms after the epoch |
| Findings.YearOldResetTokenAccepted | src/controller/user.ts:529 | as written, a year-old reset token is not refused as expired |
| Findings.CorrectedExpiry | src/controller/user.ts:529 | corrected, a token is expired exactly when more than ten minutes have passed since it was created |
| Findings.ExpiredTokenRefusedThenGone | src/controller/user.ts:529-533 | corrected, an expired token gets TOKEN_EXPIRED and is deleted, so a retry gets TOKEN_NOT_FOUND |

## Left out

- HTTP, routing and documentation: Koa, koa-swagger-decorator and the router are not modelled. A request is a `Request` value, and the refresh, logout and profile routes receive already verified JWT claims.
- JWT signing and verification: the secret, the signature and the expiry check are left out. The model keeps the claims payload and the `expiresIn` values, as seconds.
- bcrypt: `hash` and `compare` are the abstract `Hasher`, and soundness (`compare(p, hash(p))`) is a hypothesis where needed. The salt and the cost factor 10 are not modelled.
- `crypto.randomBytes`: it is an oracle. Its promise to return exactly n bytes is the hypothesis `ExactBytes` wherever a token length is stated; its randomness is not modelled, so token freshness is a hypothesis about the bytes drawn.
- Email delivery: it is one boolean per request. A mail is its template, its recipient and its token; the other template locals (user name, base URL) are not modelled.
- Store.TokenOwnedBy: resend reuses the token that the user's `verify_token` relation loads. The model picks a token the user owns. If a user owned several, which one is mailed is left unspecified; the one-to-one relation allows only one. Because it is a choice, UserController.Resend, Lifecycle.Handle and Lifecycle.Run are ghost functions.
- The 400 bodies of resend and reset-password carry class-validator's raw error array. Only `validationError: { target: false }` is passed (src/controller/user.ts:332, :546), so each entry also carries the submitted `value`: the email at resend, and the new plaintext password at reset-password. It also carries `children`, and its `constraints` is an object keyed by constraint name. The model keeps only each entry's property and its codes in declared order. It drops `value`, the constraint keys and `children`.
- The clock is the oracle's `nowMs`, and the reset-token `createdAt` is the clock when the token is saved.
- The database:
  - unique columns and foreign keys are the `Consistent` predicate, not enforced on write;
  - a unique-constraint violation from two concurrent registrations is not modelled;
  - TypeORM's handling of `undefined` in a `where` clause is not modelled. Login and send-reset validate only one of email and username, so a request that gives only a username passes validation and reaches the lookup `where: [{ email: undefined }, { username }]` (src/controller/user.ts:120-125 and :419-424). The model treats an undefined value as matching no row (Store.FindByEmailOrUsername), so such a request finds the user by username alone.
- Concurrency: the handlers run one at a time. Logout's `remove` is not awaited, and that interleaving is not modelled.
- class-validator:
  - decorators are evaluated in declaration order; the library's own order of constraint keys in `constraints` is not modelled;
  - `IsUniq` is a membership test on the current table, not an asynchronous query;
  - `IsEmail` is the oracle's predicate;
  - lengths count characters, not UTF-16 code units;
  - the `MISSING` messages of `ValidateIf` and `IsOptional` are never reported, as in the library.
- `getErrors`: it parses the first constraint message back into a number. The model reads that number off the failure code directly, since the messages are exactly the code numbers.
- `showPasswordForm` (GET /user/reset-password/{token}) and the rendering of `pages/password-reset.pug`: the rendered page is `PasswordPage(token, error)`.
- The `image_url` and `role` length decorators are not part of any validation group, so they never run.
- Thrown errors: `ctx.throw(500, …)` is `Thrown`. An uncaught `TypeError` from reading a property of an undefined user is `Crashed`, which Koa turns into a 500.
- Store.FindByEmail: an undefined email finds no row. In resend an undefined email always fails validation first, so the lookup's answer for it is never used.
- `src/controller/general.ts`, `src/routes/general.ts` beyond dispatch, and the token entity files are not part of this model. The token tables keep only what the handlers read. Whether the token tables' one-to-one user column would reject a second reset token for the same user is therefore not modelled.
- UserController.Resend: its contract bounds the verify-token keys rather than stating the map, because the exact map is stated per case by HandlerProperties.ResendMintsToken and HandlerProperties.ResendReusesToken.
- UserController.CreateUser: its own contract states only what changes. The reply for each outcome is stated by HandlerProperties.RegisterRejectsInvalid, RegisterMailFailurePersistsNothing and RegisterSucceeds.
- UserController.LoginUser: its own contract states only what changes. The per-guard replies are HandlerProperties.LoginEnumerationSafe, LoginUnverified and LoginSucceeds.
- UserController.Refresh: its own contract states only that nothing changes. Its replies are HandlerProperties.RefreshOutcome and RefreshWithoutUser, and, corrected, Findings.RefreshChecksIdentifier.
- UserController.Logout: its own contract bounds the change to the claimed session. Its replies are HandlerProperties.LogoutOutcome and LogoutWithoutUser, and, corrected, Findings.LogoutChecksIdentifier.
- UserController.Verify: its own contract states the unknown-token case and what may change. Success is HandlerProperties.VerifyConsumesToken.
- UserController.SendResend: its own contract states only what may change. The replies are HandlerProperties.SendResetRefusals, SendResetAlwaysMints and SendResetReusesLoadedToken.
- UserController.ChangePassword: its own contract states only what may change. Its outcomes are HandlerProperties.ResetPasswordSucceeds and ResetPasswordRejectsInvalid.
- UserController.ResetPassword: its own contract states only what may change. The guards are HandlerProperties.ResetPasswordGuards, and success is HandlerProperties.ResetPasswordSucceeds.

## Findings

| source | as written | input that shows it | evidently intended | confidence | as-written member | corrected member |
|---|---|---|---|---|---|---|
| src/controller/user.ts:210-218 | the missing-user and stale-identifier branches of refresh set a reply but do not return, and the session checks overwrite it | a verified user whose session exists, with a refresh claim carrying the password identifier from before a password reset: the reply is 200 with a new access token | return 401 INVALID_TOKEN, so that a password change revokes old refresh tokens | high (not executed) | Findings.PasswordResetKeepsStaleRefresh | Findings.PasswordResetRevokesRefresh |
| src/controller/user.ts:255-263 | logout has the same fall-through | a user's own session with an outdated password identifier in the claim: the session is deleted and LOGGED_OUT returned | return 401 INVALID_TOKEN | high (not executed) | Findings.StaleLogoutAccepted | Findings.LogoutChecksIdentifier |
| src/controller/user.ts:529 | the expiry test takes the deadline (creation plus ten minutes) in whole seconds and asks whether it is greater than the current time in milliseconds: wrong units, and the wrong direction | a token created at 1600000000000 ms and used one year later: not refused as expired | refuse the token once more than ten minutes have passed since it was created | high (not executed) | Findings.YearOldResetTokenAccepted | Findings.ExpiredTokenRefusedThenGone |
