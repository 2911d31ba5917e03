/** The three numeric enumerations that make up the API's responses.

    A TypeScript numeric enum gives its members the values 0, 1, 2, ... in
    declaration order (unless a value is written out), and the compiled
    enum object also maps each value back to the member's name: `E[E.X]`
    is the string "X". The handlers send that name as the response body. */
module StatusCodes {
  import opened Wrappers

  /* ---------------- VerifyStatusCode ---------------- */

  datatype VerifyStatusCode =
    | TokenNotFound
    | TokenExpired
    | AccountVerified
    | AccountAlreadyVerified
    | EmailSent
    | InternalServerError
  {
    /** The numeric value `VerifyStatusCode.X`. */
    function Ordinal(): nat {
      match this
      case TokenNotFound => 0
      case TokenExpired => 1
      case AccountVerified => 2
      case AccountAlreadyVerified => 3
      case EmailSent => 4
      case InternalServerError => 5
    }

    /** The member's identifier, which is what the reverse mapping yields. */
    function Name(): string {
      match this
      case TokenNotFound => "TOKEN_NOT_FOUND"
      case TokenExpired => "TOKEN_EXPIRED"
      case AccountVerified => "ACCOUNT_VERIFIED"
      case AccountAlreadyVerified => "ACCOUNT_ALREADY_VERIFIED"
      case EmailSent => "EMAIL_SENT"
      case InternalServerError => "INTERNAL_SERVER_ERROR"
    }
  }

  /** The members in declaration order. */
  const VerifyStatusCodes: seq<VerifyStatusCode> :=
    [TokenNotFound, TokenExpired, AccountVerified, AccountAlreadyVerified, EmailSent, InternalServerError]

  /** The reverse mapping `VerifyStatusCode[n]` (undefined off the enum). */
  function VerifyStatusName(n: int): Option<string> {
    if 0 <= n < |VerifyStatusCodes| then Some(VerifyStatusCodes[n].Name()) else None
  }

  /** The forward lookup by name, `VerifyStatusCode["X"]`. */
  function VerifyStatusNamed(name: string): Option<VerifyStatusCode> {
    if name == "TOKEN_NOT_FOUND" then Some(TokenNotFound)
    else if name == "TOKEN_EXPIRED" then Some(TokenExpired)
    else if name == "ACCOUNT_VERIFIED" then Some(AccountVerified)
    else if name == "ACCOUNT_ALREADY_VERIFIED" then Some(AccountAlreadyVerified)
    else if name == "EMAIL_SENT" then Some(EmailSent)
    else if name == "INTERNAL_SERVER_ERROR" then Some(InternalServerError)
    else None
  }

  /** Six members, numbered 0..5 in declaration order, with distinct names. */
  lemma VerifyStatusLayout()
    ensures |VerifyStatusCodes| == 6
    ensures forall i :: 0 <= i < |VerifyStatusCodes| ==> VerifyStatusCodes[i].Ordinal() == i
    ensures forall v: VerifyStatusCode :: v.Ordinal() < |VerifyStatusCodes| && VerifyStatusCodes[v.Ordinal()] == v
    ensures forall v: VerifyStatusCode, w: VerifyStatusCode :: v.Name() == w.Name() ==> v == w
  {
    forall v: VerifyStatusCode
      ensures v.Ordinal() < |VerifyStatusCodes| && VerifyStatusCodes[v.Ordinal()] == v
    {
      match v
      case TokenNotFound =>
      case TokenExpired =>
      case AccountVerified =>
      case AccountAlreadyVerified =>
      case EmailSent =>
      case InternalServerError =>
    }
  }

  /** `VerifyStatusCode[VerifyStatusCode.X] == "X"`, and the name leads back to the member. */
  lemma VerifyStatusRoundTrip(v: VerifyStatusCode)
    ensures VerifyStatusName(v.Ordinal()) == Some(v.Name())
    ensures VerifyStatusNamed(v.Name()) == Some(v)
  {
  }

  /** Every name the reverse mapping produces belongs to the member with that value. */
  lemma VerifyStatusNameInverse(n: int)
    ensures VerifyStatusName(n).Some? <==> 0 <= n < 6
    ensures VerifyStatusName(n).Some? ==>
      exists v: VerifyStatusCode :: v.Ordinal() == n && VerifyStatusNamed(VerifyStatusName(n).value) == Some(v)
  {
    if 0 <= n < 6 {
      var v := VerifyStatusCodes[n];
      assert v.Ordinal() == n;
      VerifyStatusRoundTrip(v);
    }
  }

  /* ---------------- LoginStatusCode ---------------- */

  datatype LoginStatusCode =
    | InvalidCredentials
    | UserNotFound
    | UserNotVerified
    | LoggedOut
    | InvalidToken
    | InvalidSession
  {
    /** The numeric value `LoginStatusCode.X`. */
    function Ordinal(): nat {
      match this
      case InvalidCredentials => 0
      case UserNotFound => 1
      case UserNotVerified => 2
      case LoggedOut => 3
      case InvalidToken => 4
      case InvalidSession => 5
    }

    /** The member's identifier, which is what the reverse mapping yields. */
    function Name(): string {
      match this
      case InvalidCredentials => "INVALID_CREDENTIALS"
      case UserNotFound => "USER_NOT_FOUND"
      case UserNotVerified => "USER_NOT_VERIFIED"
      case LoggedOut => "LOGGED_OUT"
      case InvalidToken => "INVALID_TOKEN"
      case InvalidSession => "INVALID_SESSION"
    }
  }

  /** The members in declaration order. */
  const LoginStatusCodes: seq<LoginStatusCode> :=
    [InvalidCredentials, UserNotFound, UserNotVerified, LoggedOut, InvalidToken, InvalidSession]

  /** The reverse mapping `LoginStatusCode[n]`. */
  function LoginStatusName(n: int): Option<string> {
    if 0 <= n < |LoginStatusCodes| then Some(LoginStatusCodes[n].Name()) else None
  }

  /** The forward lookup by name, `LoginStatusCode["X"]`. */
  function LoginStatusNamed(name: string): Option<LoginStatusCode> {
    if name == "INVALID_CREDENTIALS" then Some(InvalidCredentials)
    else if name == "USER_NOT_FOUND" then Some(UserNotFound)
    else if name == "USER_NOT_VERIFIED" then Some(UserNotVerified)
    else if name == "LOGGED_OUT" then Some(LoggedOut)
    else if name == "INVALID_TOKEN" then Some(InvalidToken)
    else if name == "INVALID_SESSION" then Some(InvalidSession)
    else None
  }

  /** Six members, numbered 0..5 in declaration order, with distinct names. */
  lemma LoginStatusLayout()
    ensures |LoginStatusCodes| == 6
    ensures forall i :: 0 <= i < |LoginStatusCodes| ==> LoginStatusCodes[i].Ordinal() == i
    ensures forall v: LoginStatusCode :: v.Ordinal() < |LoginStatusCodes| && LoginStatusCodes[v.Ordinal()] == v
    ensures forall v: LoginStatusCode, w: LoginStatusCode :: v.Name() == w.Name() ==> v == w
  {
    forall v: LoginStatusCode
      ensures v.Ordinal() < |LoginStatusCodes| && LoginStatusCodes[v.Ordinal()] == v
    {
      match v
      case InvalidCredentials =>
      case UserNotFound =>
      case UserNotVerified =>
      case LoggedOut =>
      case InvalidToken =>
      case InvalidSession =>
    }
  }

  /** `LoginStatusCode[LoginStatusCode.X] == "X"`, and the name leads back to the member. */
  lemma LoginStatusRoundTrip(v: LoginStatusCode)
    ensures LoginStatusName(v.Ordinal()) == Some(v.Name())
    ensures LoginStatusNamed(v.Name()) == Some(v)
  {
  }

  /* ---------------- ValidationStatusCode ---------------- */

  datatype ValidationStatusCode =
    | Valid
    | TooShort
    | TooLong
    | InvalidFormat
    | AlreadyExists
    | Missing
  {
    /** The value written out in the declaration (`VALID = 0`, ..., `MISSING = 5`). */
    function Ordinal(): nat {
      match this
      case Valid => 0
      case TooShort => 1
      case TooLong => 2
      case InvalidFormat => 3
      case AlreadyExists => 4
      case Missing => 5
    }

    function Name(): string {
      match this
      case Valid => "VALID"
      case TooShort => "TOO_SHORT"
      case TooLong => "TOO_LONG"
      case InvalidFormat => "INVALID_FORMAT"
      case AlreadyExists => "ALREADY_EXISTS"
      case Missing => "MISSING"
    }
  }

  /** The members in declaration order. */
  const ValidationStatusCodes: seq<ValidationStatusCode> :=
    [Valid, TooShort, TooLong, InvalidFormat, AlreadyExists, Missing]

  /** The numeric lookup `ValidationStatusCode[n]` as a member. */
  function ValidationStatusOf(n: int): Option<ValidationStatusCode> {
    if 0 <= n < |ValidationStatusCodes| then Some(ValidationStatusCodes[n]) else None
  }

  /** The reverse mapping `ValidationStatusCode[n]` as a name. */
  function ValidationStatusName(n: int): Option<string> {
    if 0 <= n < |ValidationStatusCodes| then Some(ValidationStatusCodes[n].Name()) else None
  }

  /** The six values are exactly 0..5 and pairwise distinct, with distinct names. */
  lemma ValidationStatusLayout()
    ensures |ValidationStatusCodes| == 6
    ensures forall i :: 0 <= i < |ValidationStatusCodes| ==> ValidationStatusCodes[i].Ordinal() == i
    ensures forall v: ValidationStatusCode :: v.Ordinal() < |ValidationStatusCodes| && ValidationStatusCodes[v.Ordinal()] == v
    ensures forall v: ValidationStatusCode, w: ValidationStatusCode :: v.Ordinal() == w.Ordinal() ==> v == w
    ensures forall v: ValidationStatusCode, w: ValidationStatusCode :: v.Name() == w.Name() ==> v == w
  {
    forall v: ValidationStatusCode
      ensures v.Ordinal() < |ValidationStatusCodes| && ValidationStatusCodes[v.Ordinal()] == v
    {
      match v
      case Valid =>
      case TooShort =>
      case TooLong =>
      case InvalidFormat =>
      case AlreadyExists =>
      case Missing =>
    }
  }

  /** Value and member determine each other, and the reverse mapping gives the name. */
  lemma ValidationStatusRoundTrip(v: ValidationStatusCode, n: int)
    ensures ValidationStatusOf(v.Ordinal()) == Some(v)
    ensures ValidationStatusName(v.Ordinal()) == Some(v.Name())
    ensures ValidationStatusOf(n).Some? <==> 0 <= n <= 5
    ensures ValidationStatusOf(n).Some? ==> ValidationStatusOf(n).value.Ordinal() == n
  {
  }
}
