/** The validation rules declared on `User` (src/entity/user.ts) and the
    `validate(entity, { groups: [g] })` call the handlers make.

    Each decorator carries a rule, a message (the numeric ValidationStatusCode
    as text) and the groups it belongs to. When groups are given, decorators
    without groups are ignored, so only the rules on username, password and
    email take part. `ValidateIf` on username and `IsOptional` on email are
    not rules but conditions: when they hold against the candidate, the
    whole property is skipped. Every failing rule of a property that is not
    skipped contributes its message, in declared order. */
module Validation {
  import opened Wrappers
  import opened StatusCodes

  /** The validation groups the handlers pass. */
  datatype Group = Register | Login | Resend | SendReset

  /** The validated properties of `User`, in declaration order. */
  datatype Field = Username | Password | Email

  /** The entity being validated; `None` is an undefined or null property. */
  datatype Candidate = Candidate(username: Option<string>, email: Option<string>, password: Option<string>)
  {
    function Value(f: Field): Option<string> {
      match f
      case Username => username
      case Password => password
      case Email => email
    }
  }

  datatype Rule = MinLength(min: nat) | MaxLength(max: nat) | IsEmail | IsUniq

  /** A code a failing rule can report: every code but VALID. */
  type FailureCode = c: ValidationStatusCode | c != Valid witness TooShort

  /** One decorator: its rule, the code its message holds, and its groups. */
  datatype Decorator = Decorator(rule: Rule, message: FailureCode, groups: set<Group>)

  const AllGroups: set<Group> := {Register, Login, Resend, SendReset}

  /** The code each kind of rule reports when it fails. */
  function RuleCode(r: Rule): FailureCode {
    match r
    case MinLength(_) => TooShort
    case MaxLength(_) => TooLong
    case IsEmail => InvalidFormat
    case IsUniq => AlreadyExists
  }

  /** The decorators of each property, in declared order. Every property
      opens with its two length bounds, the lower below the upper, and the
      length rules apply in register and login alike. */
  function Decorators(f: Field): (ds: seq<Decorator>)
    ensures 2 <= |ds| <= 4 && ds[0].rule.MinLength? && ds[1].rule.MaxLength?
    ensures ds[0].rule.min <= ds[1].rule.max
    ensures ds[0].groups == ds[1].groups && Register in ds[0].groups && Login in ds[0].groups
  {
    match f
    case Username => [
      Decorator(MinLength(3), TooShort, {Register, Login, SendReset}),
      Decorator(MaxLength(80), TooLong, {Register, Login, SendReset}),
      Decorator(IsUniq, AlreadyExists, {Register})]
    case Password => [
      Decorator(MinLength(5), TooShort, {Register, Login}),
      Decorator(MaxLength(60), TooLong, {Register, Login})]
    case Email => [
      Decorator(MinLength(10), TooShort, AllGroups),
      Decorator(MaxLength(100), TooLong, AllGroups),
      Decorator(IsEmail, InvalidFormat, AllGroups),
      Decorator(IsUniq, AlreadyExists, {Register})]
  }

  /** Each decorator reports the code of its rule, so none reports MISSING;
      uniqueness is checked only on register and never on the password; the
      resend group sees only email. */
  lemma DecoratorTable(f: Field)
    ensures forall i :: 0 <= i < |Decorators(f)| ==> Decorators(f)[i].message == RuleCode(Decorators(f)[i].rule)
    ensures forall i :: 0 <= i < |Decorators(f)| && Decorators(f)[i].rule.IsUniq? ==>
      Decorators(f)[i].groups == {Register} && f != Password
    ensures forall i :: 0 <= i < |Decorators(f)| && Resend in Decorators(f)[i].groups ==> f == Email
  {
  }

  /** Whether a property is validated at all: in the login and send-reset
      groups username is validated only when email is undefined
      (`ValidateIf`), and email only when it is defined (`IsOptional`). */
  predicate Considered(f: Field, g: Group, c: Candidate)
    ensures !Considered(f, g, c) ==> g in {Login, SendReset} && f != Password
  {
    match f
    case Username => g in {Login, SendReset} ==> c.email.None?
    case Email => g in {Login, SendReset} ==> c.email.Some?
    case Password => true
  }

  /** In the login and send-reset groups exactly one of username and email
      is validated: email when it is given, username otherwise. */
  lemma OneIdentifierConsidered(g: Group, c: Candidate)
    requires g in {Login, SendReset}
    ensures Considered(Username, g, c) != Considered(Email, g, c)
    ensures Considered(Email, g, c) <==> c.email.Some?
  {
  }

  /** What the rules consult outside the candidate: the email-format
      predicate of `IsEmail`, left uninterpreted, and the values already
      stored in the user table, which `IsUniq` queries. */
  datatype Context = Context(isEmail: string -> bool, usernames: set<string>, emails: set<string>)
  {
    function Taken(f: Field): set<string> {
      match f
      case Username => usernames
      case Email => emails
      case Password => {}
    }
  }

  /** Whether a value satisfies a rule. Length and format checks first test
      that the value is a string, so an undefined value fails them; an
      undefined value is never a duplicate. */
  predicate Passes(r: Rule, f: Field, value: Option<string>, ctx: Context) {
    match value
    case None => r.IsUniq?
    case Some(v) =>
      match r
      case MinLength(n) => |v| >= n
      case MaxLength(n) => |v| <= n
      case IsEmail => ctx.isEmail(v)
      case IsUniq => v !in ctx.Taken(f)
  }

  /** Whether one decorator reports a failure in group g. */
  predicate Fails(d: Decorator, g: Group, f: Field, value: Option<string>, ctx: Context) {
    g in d.groups && !Passes(d.rule, f, value, ctx)
  }

  /** The messages of all failing decorators, in declared order
      (FailuresMembers and FailuresAppend characterise it). */
  function Failures(ds: seq<Decorator>, g: Group, f: Field, value: Option<string>, ctx: Context): (codes: seq<FailureCode>)
    ensures |codes| <= |ds|
  {
    if ds == [] then [] else Report(ds[0], g, f, value, ctx) + Failures(ds[1..], g, f, value, ctx)
  }

  /** What one decorator contributes: its message when it fails. */
  function Report(d: Decorator, g: Group, f: Field, value: Option<string>, ctx: Context): seq<FailureCode> {
    if Fails(d, g, f, value, ctx) then [d.message] else []
  }

  /** A code is reported exactly when some failing decorator carries it. */
  lemma {:induction false} FailuresMembers(ds: seq<Decorator>, g: Group, f: Field, value: Option<string>, ctx: Context, code: FailureCode)
    ensures code in Failures(ds, g, f, value, ctx) <==>
      exists i :: 0 <= i < |ds| && Fails(ds[i], g, f, value, ctx) && ds[i].message == code
  {
    if ds != [] {
      FailuresMembers(ds[1..], g, f, value, ctx, code);
      if exists i :: 0 <= i < |ds| && Fails(ds[i], g, f, value, ctx) && ds[i].message == code {
        var i :| 0 <= i < |ds| && Fails(ds[i], g, f, value, ctx) && ds[i].message == code;
        if i > 0 {
          assert ds[1..][i - 1] == ds[i];
        }
      }
      if code in Failures(ds[1..], g, f, value, ctx) {
        var i :| 0 <= i < |ds[1..]| && Fails(ds[1..][i], g, f, value, ctx) && ds[1..][i].message == code;
        assert ds[i + 1] == ds[1..][i];
      }
    }
  }

  /** Failures keep declared order: the failures of a list of decorators
      are those of its first part followed by those of the rest. */
  lemma {:induction false} FailuresAppend(ds: seq<Decorator>, es: seq<Decorator>, g: Group, f: Field, value: Option<string>, ctx: Context)
    ensures Failures(ds + es, g, f, value, ctx) == Failures(ds, g, f, value, ctx) + Failures(es, g, f, value, ctx)
  {
    if ds == [] {
      assert ds + es == es;
    } else {
      assert (ds + es)[0] == ds[0];
      assert (ds + es)[1..] == ds[1..] + es;
      FailuresAppend(ds[1..], es, g, f, value, ctx);
    }
  }

  /** A single decorator reports its message exactly when it fails. */
  lemma FailuresOfOne(d: Decorator, g: Group, f: Field, value: Option<string>, ctx: Context)
    ensures Fails(d, g, f, value, ctx) ==> Failures([d], g, f, value, ctx) == [d.message]
    ensures !Fails(d, g, f, value, ctx) ==> Failures([d], g, f, value, ctx) == []
  {
    assert [d][1..] == [];
  }

  /** The messages of a reported property: never empty. */
  type Constraints = s: seq<FailureCode> | s != [] witness [TooShort]

  /** One entry of the array `validate` resolves to. */
  datatype ValidationError = ValidationError(property: Field, constraints: Constraints)

  /** The entry for one property, if it has any failure. */
  function Check(f: Field, g: Group, c: Candidate, ctx: Context): seq<ValidationError> {
    var codes := if Considered(f, g, c) then Failures(Decorators(f), g, f, c.Value(f), ctx) else [];
    if codes == [] then [] else [ValidationError(f, codes)]
  }

  /* ---- Reference reading: the code the first failing rule reports ---- */

  /** The message of the first decorator of group g that fails, or VALID. */
  function FirstFailure(ds: seq<Decorator>, g: Group, f: Field, value: Option<string>, ctx: Context): ValidationStatusCode {
    if ds == [] then Valid
    else if Fails(ds[0], g, f, value, ctx) then ds[0].message
    else FirstFailure(ds[1..], g, f, value, ctx)
  }

  /** The first failure of a four-rule list, spelled out. */
  lemma FirstFailureOfFour(ds: seq<Decorator>, g: Group, f: Field, value: Option<string>, ctx: Context)
    requires 1 <= |ds| <= 4
    ensures FirstFailure(ds, g, f, value, ctx) ==
      if Fails(ds[0], g, f, value, ctx) then ds[0].message
      else if |ds| > 1 && Fails(ds[1], g, f, value, ctx) then ds[1].message
      else if |ds| > 2 && Fails(ds[2], g, f, value, ctx) then ds[2].message
      else if |ds| > 3 && Fails(ds[3], g, f, value, ctx) then ds[3].message
      else Valid
  {
    var r1 := ds[1..];
    if |ds| > 1 {
      var r2 := r1[1..];
      if |ds| > 2 {
        var r3 := r2[1..];
        if |ds| > 3 {
          assert r3[1..] == [];
        }
      }
    }
  }

  /** The single code a property gets in group g. */
  function FieldCode(f: Field, g: Group, c: Candidate, ctx: Context): ValidationStatusCode {
    if Considered(f, g, c) then FirstFailure(Decorators(f), g, f, c.Value(f), ctx) else Valid
  }

  /** The failure list is empty exactly when no rule fails, and otherwise
      starts with the first failing rule's message. */
  lemma {:induction false} FailuresStartWithFirstFailure(ds: seq<Decorator>, g: Group, f: Field, value: Option<string>, ctx: Context)
    ensures Failures(ds, g, f, value, ctx) == [] <==> FirstFailure(ds, g, f, value, ctx) == Valid
    ensures Failures(ds, g, f, value, ctx) != [] ==> Failures(ds, g, f, value, ctx)[0] == FirstFailure(ds, g, f, value, ctx)
  {
    if ds != [] {
      FailuresStartWithFirstFailure(ds[1..], g, f, value, ctx);
    }
  }

  /** The entry for a property holds the property and starts with its code. */
  lemma CheckReportsFieldCode(f: Field, g: Group, c: Candidate, ctx: Context)
    ensures |Check(f, g, c, ctx)| <= 1
    ensures Check(f, g, c, ctx) != [] <==> FieldCode(f, g, c, ctx) != Valid
    ensures Check(f, g, c, ctx) != [] ==>
      var e := Check(f, g, c, ctx)[0];
      e.property == f && e.constraints != [] && e.constraints[0] == FieldCode(f, g, c, ctx)
  {
    FailuresStartWithFirstFailure(Decorators(f), g, f, c.Value(f), ctx);
  }

  /** The facts about one property's entry that `Validate` relies on. */
  predicate Reports(entry: seq<ValidationError>, f: Field, code: ValidationStatusCode) {
    && |entry| <= 1
    && (entry != [] <==> code != Valid)
    && (entry != [] ==> entry[0].property == f && entry[0].constraints != [] && entry[0].constraints[0] == code)
  }

  /** Three single-property entries side by side keep their properties apart. */
  lemma Concatenated(u: seq<ValidationError>, p: seq<ValidationError>, e: seq<ValidationError>,
                     cu: ValidationStatusCode, cp: ValidationStatusCode, ce: ValidationStatusCode)
    requires Reports(u, Username, cu) && Reports(p, Password, cp) && Reports(e, Email, ce)
    ensures var errors := u + p + e;
      && (forall i :: 0 <= i < |errors| ==>
            && errors[i].constraints != []
            && errors[i].constraints[0] == (match errors[i].property case Username => cu case Password => cp case Email => ce))
      && (cu != Valid ==> errors[0].property == Username)
      && (cp != Valid ==> errors[|u|].property == Password)
      && (ce != Valid ==> errors[|u| + |p|].property == Email)
      && (forall i, j :: 0 <= i < j < |errors| ==> errors[i].property != errors[j].property)
  {
  }

  /** The facts `Validate` promises, for the three entries side by side. */
  lemma ValidateFacts(c: Candidate, g: Group, ctx: Context)
    ensures var errors := Check(Username, g, c, ctx) + Check(Password, g, c, ctx) + Check(Email, g, c, ctx);
      && (forall i :: 0 <= i < |errors| ==>
            errors[i].constraints != [] && errors[i].constraints[0] == FieldCode(errors[i].property, g, c, ctx))
      && (forall f: Field :: FieldCode(f, g, c, ctx) != Valid ==>
            exists i :: 0 <= i < |errors| && errors[i].property == f)
      && (forall i, j :: 0 <= i < j < |errors| ==> errors[i].property != errors[j].property)
  {
    var u, p, e := Check(Username, g, c, ctx), Check(Password, g, c, ctx), Check(Email, g, c, ctx);
    var cu, cp, ce := FieldCode(Username, g, c, ctx), FieldCode(Password, g, c, ctx), FieldCode(Email, g, c, ctx);
    CheckReportsFieldCode(Username, g, c, ctx);
    CheckReportsFieldCode(Password, g, c, ctx);
    CheckReportsFieldCode(Email, g, c, ctx);
    Concatenated(u, p, e, cu, cp, ce);
    var errors := u + p + e;
    forall i | 0 <= i < |errors|
      ensures errors[i].constraints != [] && errors[i].constraints[0] == FieldCode(errors[i].property, g, c, ctx)
    {
      match errors[i].property
      case Username =>
      case Password =>
      case Email =>
    }
    forall f: Field | FieldCode(f, g, c, ctx) != Valid
      ensures exists i :: 0 <= i < |errors| && errors[i].property == f
    {
      match f
      case Username => assert errors[0].property == f;
      case Password => assert errors[|u|].property == f;
      case Email => assert errors[|u| + |p|].property == f;
    }
  }

  /** `validate(candidate, { groups: [g] })`: one entry per property that is
      considered and fails some rule, in the order username, password, email,
      each starting with the code of that property's first failing rule. */
  function Validate(c: Candidate, g: Group, ctx: Context): (errors: seq<ValidationError>)
    ensures forall i :: 0 <= i < |errors| ==>
      errors[i].constraints != [] && errors[i].constraints[0] == FieldCode(errors[i].property, g, c, ctx)
    ensures forall f: Field :: FieldCode(f, g, c, ctx) != Valid ==>
      exists i :: 0 <= i < |errors| && errors[i].property == f
    ensures forall i, j :: 0 <= i < j < |errors| ==> errors[i].property != errors[j].property
  {
    ValidateFacts(c, g, ctx);
    Check(Username, g, c, ctx) + Check(Password, g, c, ctx) + Check(Email, g, c, ctx)
  }

  /** A candidate is accepted exactly when every property gets VALID. */
  lemma ValidateAccepts(c: Candidate, g: Group, ctx: Context)
    ensures Validate(c, g, ctx) == [] <==> forall f: Field :: FieldCode(f, g, c, ctx) == Valid
  {
    var errors := Validate(c, g, ctx);
    if errors != [] {
      assert FieldCode(errors[0].property, g, c, ctx) != Valid;
    }
  }

  /* ---- The per-property rule tables ---- */

  /** username: 3..80 characters in register, login and send-reset (TOO_SHORT,
      TOO_LONG), unique only in register (ALREADY_EXISTS); never checked in
      resend, nor in login or send-reset when an email is given. */
  lemma UsernameRules(c: Candidate, g: Group, ctx: Context)
    ensures g == Resend ==> FieldCode(Username, g, c, ctx) == Valid
    ensures g in {Login, SendReset} && c.email.Some? ==> FieldCode(Username, g, c, ctx) == Valid
    ensures g != Resend && Considered(Username, g, c) ==>
      var code := FieldCode(Username, g, c, ctx);
      var u := c.username;
      && (code == TooShort <==> u.None? || |u.value| < 3)
      && (code == TooLong <==> u.Some? && 80 < |u.value|)
      && (code == AlreadyExists <==> g == Register && u.Some? && 3 <= |u.value| <= 80 && u.value in ctx.usernames)
      && (code == Valid <==> u.Some? && 3 <= |u.value| <= 80 && (g == Register ==> u.value !in ctx.usernames))
  {
    FirstFailureOfFour(Decorators(Username), g, Username, c.username, ctx);
  }

  /** password: 5..60 characters in register and login only. */
  lemma PasswordRules(c: Candidate, g: Group, ctx: Context)
    ensures g in {Resend, SendReset} ==> FieldCode(Password, g, c, ctx) == Valid
    ensures g in {Register, Login} ==>
      var code := FieldCode(Password, g, c, ctx);
      var p := c.password;
      && (code == TooShort <==> p.None? || |p.value| < 5)
      && (code == TooLong <==> p.Some? && 60 < |p.value|)
      && (code == Valid <==> p.Some? && 5 <= |p.value| <= 60)
  {
    FirstFailureOfFour(Decorators(Password), g, Password, c.password, ctx);
  }

  /** email: 10..100 characters and a valid format in every group, unique
      only in register; skipped in login and send-reset when absent. */
  lemma EmailRules(c: Candidate, g: Group, ctx: Context)
    ensures g in {Login, SendReset} && c.email.None? ==> FieldCode(Email, g, c, ctx) == Valid
    ensures Considered(Email, g, c) ==>
      var code := FieldCode(Email, g, c, ctx);
      var e := c.email;
      && (code == TooShort <==> e.None? || |e.value| < 10)
      && (code == TooLong <==> e.Some? && 100 < |e.value|)
      && (code == InvalidFormat <==> e.Some? && 10 <= |e.value| <= 100 && !ctx.isEmail(e.value))
      && (code == AlreadyExists <==>
            g == Register && e.Some? && 10 <= |e.value| <= 100 && ctx.isEmail(e.value) && e.value in ctx.emails)
      && (code == Valid <==>
            e.Some? && 10 <= |e.value| <= 100 && ctx.isEmail(e.value) && (g == Register ==> e.value !in ctx.emails))
  {
    FirstFailureOfFour(Decorators(Email), g, Email, c.email, ctx);
  }

  /** ALREADY_EXISTS comes only from register, and MISSING, the message of
      the two conditions, is never reported. */
  lemma ReportedCodes(f: Field, c: Candidate, g: Group, ctx: Context)
    ensures FieldCode(f, g, c, ctx) == AlreadyExists ==> g == Register && f != Password
    ensures FieldCode(f, g, c, ctx) != Missing
  {
    match f {
      case Username => UsernameRules(c, g, ctx);
      case Password => PasswordRules(c, g, ctx);
      case Email => EmailRules(c, g, ctx);
    }
  }

  /** A register candidate that validates has every property, in range, of
      valid format and not yet taken. */
  lemma RegisterAccepted(c: Candidate, ctx: Context)
    requires Validate(c, Register, ctx) == []
    ensures c.username.Some? && c.email.Some? && c.password.Some?
    ensures 3 <= |c.username.value| <= 80 && c.username.value !in ctx.usernames
    ensures 10 <= |c.email.value| <= 100 && ctx.isEmail(c.email.value) && c.email.value !in ctx.emails
    ensures 5 <= |c.password.value| <= 60
  {
    ValidateAccepts(c, Register, ctx);
    assert FieldCode(Username, Register, c, ctx) == Valid;
    assert FieldCode(Email, Register, c, ctx) == Valid;
    assert FieldCode(Password, Register, c, ctx) == Valid;
    UsernameRules(c, Register, ctx);
    EmailRules(c, Register, ctx);
    PasswordRules(c, Register, ctx);
  }

  /** A login candidate that validates has a password of 5..60 characters. */
  lemma LoginAccepted(c: Candidate, ctx: Context)
    requires Validate(c, Login, ctx) == []
    ensures c.password.Some? && 5 <= |c.password.value| <= 60
  {
    ValidateAccepts(c, Login, ctx);
    assert FieldCode(Password, Login, c, ctx) == Valid;
    PasswordRules(c, Login, ctx);
  }

  /** What was accepted at registration is accepted at login: the login
      group asks only for the length and format checks register made. */
  lemma RegisteredPassesLogin(c: Candidate, registered: Context, now: Context)
    requires Validate(c, Register, registered) == []
    requires now.isEmail == registered.isEmail
    ensures Validate(c, Login, now) == []
  {
    RegisterAccepted(c, registered);
    forall f: Field
      ensures FieldCode(f, Login, c, now) == Valid
    {
      match f
      case Username => UsernameRules(c, Login, now);
      case Email => EmailRules(c, Login, now);
      case Password => PasswordRules(c, Login, now);
    }
    ValidateAccepts(c, Login, now);
  }
}
