/** The `User` record (src/entity/user.ts) and its two behaviours,
    `hashPassword` and `compareHash`, over an abstract password hasher. */
module Entity {
  import opened Wrappers

  /** The generated uuid primary key. */
  type UserId = string

  /** A row of the user table. `password` holds whatever was last assigned:
      the hash once `hashPassword` has run. */
  datatype User = User(
    id: UserId,
    username: string,
    email: string,
    password: string,
    passwordIdentifier: string,
    verified: bool,
    role: string,
    imageUrl: Option<string>)

  /** The column default of `role`. */
  const DefaultRole: string := "user"

  /** A user as handlers return it, after `delete user.password` and
      `delete user.password_identifier`. */
  datatype PublicUser = PublicUser(
    id: UserId,
    username: string,
    email: string,
    verified: bool,
    role: string,
    imageUrl: Option<string>)

  function Public(u: User): PublicUser {
    PublicUser(u.id, u.username, u.email, u.verified, u.role, u.imageUrl)
  }

  /** The returned record depends on nothing but the non-secret columns:
      two users that differ only in password and password identifier look
      the same, and users that look the same agree on every other column. */
  lemma PublicHidesSecrets(u: User, v: User)
    ensures Public(u) == Public(v) <==>
      u.(password := v.password, passwordIdentifier := v.passwordIdentifier) == v
  {
  }

  /** bcrypt, seen from outside: a (salted) hash and a comparison. */
  datatype Hasher = Hasher(hash: string -> string, compare: (string, string) -> bool)

  /** The one promise made about bcrypt: a password matches its own hash. */
  ghost predicate Sound(h: Hasher) {
    forall p: string :: h.compare(p, h.hash(p))
  }

  /** `user.hashPassword()`: the password column now holds the hash. */
  function HashPassword(u: User, h: Hasher): (r: User)
    ensures r.password == h.hash(u.password)
    ensures r.(password := u.password) == u
  {
    u.(password := h.hash(u.password))
  }

  /** `user.compareHash(password)`. */
  function CompareHash(u: User, password: string, h: Hasher): bool
    ensures Sound(h) && u.password == h.hash(password) ==> CompareHash(u, password, h)
  {
    h.compare(password, u.password)
  }

  /** After hashing, the plaintext that was hashed is accepted. */
  lemma HashThenCompare(u: User, h: Hasher)
    requires Sound(h)
    ensures CompareHash(HashPassword(u, h), u.password, h)
  {
  }
}
