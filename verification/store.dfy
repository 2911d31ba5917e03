/** The persistent state the handlers read and write: the user table and
    the three token tables. The user table is a sequence of rows, so that
    `findOne` means "the first row that matches"; the token tables are keyed
    by token value and map each token to what its row holds. */
module Store {
  import opened Wrappers
  import opened Entity
  import opened Search

  /** A password reset token row: its owner and its `createdAt`, in
      milliseconds since the epoch. */
  datatype ResetToken = ResetToken(owner: UserId, createdAtMs: int)

  datatype Store = Store(
    users: seq<User>,
    verifyTokens: map<string, UserId>,
    sessions: map<string, UserId>,
    resetTokens: map<string, ResetToken>)

  /** `repository.findOne(where)`. */
  function FindOne(users: seq<User>, matches: User -> bool): Option<User> {
    match FirstMatch(users, matches)
    case None => None
    case Some(i) => Some(users[i])
  }

  /** `findOne({ id })`. */
  function FindById(users: seq<User>, id: UserId): (u: Option<User>)
    ensures u.None? <==> id !in Ids(users)
    ensures u.Some? ==> u.value in users && u.value.id == id
  {
    FindOne(users, (u: User) => u.id == id)
  }

  /** `findOne({ email })`; an undefined email finds nothing. */
  function FindByEmail(users: seq<User>, email: Option<string>): (u: Option<User>)
    ensures u.None? <==> email.None? || email.value !in Emails(users)
    ensures u.Some? ==> u.value in users && u.value.email == email.value
  {
    if email.None? then None else FindOne(users, (u: User) => u.email == email.value)
  }

  /** `findOne({ where: [{ email }, { username }] })`: the first row whose
      email or username equals the given (defined) one. */
  function FindByEmailOrUsername(users: seq<User>, email: Option<string>, username: Option<string>): (u: Option<User>)
    ensures u.None? <==>
      (email.None? || email.value !in Emails(users)) && (username.None? || username.value !in Usernames(users))
    ensures u.Some? ==>
      u.value in users &&
      ((email.Some? && u.value.email == email.value) || (username.Some? && u.value.username == username.value))
  {
    FindOne(users, (u: User) => (email.Some? && u.email == email.value) || (username.Some? && u.username == username.value))
  }

  function Ids(users: seq<User>): set<UserId> {
    set i | 0 <= i < |users| :: users[i].id
  }

  function Usernames(users: seq<User>): set<string> {
    set i | 0 <= i < |users| :: users[i].username
  }

  function Emails(users: seq<User>): set<string> {
    set i | 0 <= i < |users| :: users[i].email
  }

  /** `repository.save(user)` for a user that already has a row: the row
      with its id is replaced, every other row is left alone. */
  function UpdateUser(users: seq<User>, u: User): (r: seq<User>)
    ensures |r| == |users|
    ensures forall i :: 0 <= i < |users| ==> r[i] == if users[i].id == u.id then u else users[i]
    ensures KeepsRows(users, r)
  {
    seq(|users|, i requires 0 <= i < |users| => if users[i].id == u.id then u else users[i])
  }

  /** The token a user's one-to-one token relation loads: a key of the
      table that the user owns. */
  ghost function TokenOwnedBy(tokens: map<string, UserId>, id: UserId): (t: string)
    requires id in tokens.Values
    ensures t in tokens && tokens[t] == id
  {
    var t :| t in tokens && tokens[t] == id; t
  }

  /** Every row of `before` is still in place in `after` under the same id:
      the store only ever replaces a row by id or appends one. */
  predicate KeepsRows(before: seq<User>, after: seq<User>) {
    |before| <= |after| && forall i :: 0 <= i < |before| ==> after[i].id == before[i].id
  }

  /** The unique constraints of the user table: id, username and email. */
  ghost predicate UniqueRows(users: seq<User>) {
    forall i, j :: 0 <= i < j < |users| ==>
      && users[i].id != users[j].id
      && users[i].username != users[j].username
      && users[i].email != users[j].email
  }

  /** The store's integrity: unique user columns, and every token row
      belongs to a user that exists (the foreign keys). */
  ghost predicate Consistent(s: Store) {
    && UniqueRows(s.users)
    && s.verifyTokens.Values <= Ids(s.users)
    && s.sessions.Values <= Ids(s.users)
    && forall t :: t in s.resetTokens ==> s.resetTokens[t].owner in Ids(s.users)
  }

  /** Under unique ids, the row found by id is the only row with that id. */
  lemma FindByIdIsTheRow(users: seq<User>, i: nat)
    requires UniqueRows(users) && i < |users|
    ensures FindById(users, users[i].id) == Some(users[i])
  {
    var r := FirstMatch(users, (u: User) => u.id == users[i].id);
    assert r.Some?;
    assert r.value == i;
  }

  /** Replacing a row by one with the same id, username and email keeps the
      unique columns, and every set of keys, as they were. */
  lemma UpdateUserKeepsKeys(users: seq<User>, u: User)
    requires UniqueRows(users)
    requires forall i :: 0 <= i < |users| && users[i].id == u.id ==>
      users[i].username == u.username && users[i].email == u.email
    ensures UniqueRows(UpdateUser(users, u))
    ensures Ids(UpdateUser(users, u)) == Ids(users)
    ensures Usernames(UpdateUser(users, u)) == Usernames(users)
    ensures Emails(UpdateUser(users, u)) == Emails(users)
  {
    var r := UpdateUser(users, u);
    assert forall i :: 0 <= i < |users| ==>
      r[i].id == users[i].id && r[i].username == users[i].username && r[i].email == users[i].email;
    assert Ids(r) == Ids(users) by {
      forall x | x in Ids(users) ensures x in Ids(r) {
        var i :| 0 <= i < |users| && users[i].id == x;
        assert r[i].id == x;
      }
    }
    assert Usernames(r) == Usernames(users) by {
      forall x | x in Usernames(users) ensures x in Usernames(r) {
        var i :| 0 <= i < |users| && users[i].username == x;
        assert r[i].username == x;
      }
    }
    assert Emails(r) == Emails(users) by {
      forall x | x in Emails(users) ensures x in Emails(r) {
        var i :| 0 <= i < |users| && users[i].email == x;
        assert r[i].email == x;
      }
    }
  }

  /** Appending a row whose id, username and email are all new keeps the
      columns unique and adds exactly its id. */
  lemma AppendUserKeepsKeys(users: seq<User>, u: User)
    requires UniqueRows(users)
    requires u.id !in Ids(users) && u.username !in Usernames(users) && u.email !in Emails(users)
    ensures UniqueRows(users + [u])
    ensures Ids(users + [u]) == Ids(users) + {u.id}
  {
    var r := users + [u];
    forall i, j | 0 <= i < j < |r|
      ensures r[i].id != r[j].id && r[i].username != r[j].username && r[i].email != r[j].email
    {
      if j == |users| {
        assert r[i] == users[i];
        assert users[i].id in Ids(users) && users[i].username in Usernames(users) && users[i].email in Emails(users);
      }
    }
    assert Ids(r) == Ids(users) + {u.id} by {
      assert r[|users|].id == u.id;
      forall x | x in Ids(users) ensures x in Ids(r) {
        var i :| 0 <= i < |users| && users[i].id == x;
        assert r[i].id == x;
      }
    }
  }

  /** Under the unique constraints, two rows that share an id, a username
      or an email are the same row. */
  lemma SharedKeySameRow(users: seq<User>, v: User, w: User)
    requires UniqueRows(users)
    requires v in users && w in users
    requires v.id == w.id || v.username == w.username || v.email == w.email
    ensures v == w
  {
    var i :| 0 <= i < |users| && users[i] == v;
    var j :| 0 <= j < |users| && users[j] == w;
    if i < j {
      assert false;
    } else if j < i {
      assert false;
    }
  }

  /** Rows whose key columns are carried over unchanged by a new version of
      an existing row. */
  predicate SameKeys(u: User, v: User) {
    u.id == v.id && u.username == v.username && u.email == v.email
  }

  /** Saving a new version of an existing row, with the same keys, keeps
      the unique columns and the key sets. */
  lemma SaveKeepsKeys(users: seq<User>, row: User, updated: User)
    requires UniqueRows(users) && row in users && SameKeys(row, updated)
    ensures UniqueRows(UpdateUser(users, updated))
    ensures Ids(UpdateUser(users, updated)) == Ids(users)
  {
    forall i | 0 <= i < |users| && users[i].id == updated.id
      ensures users[i].username == updated.username && users[i].email == updated.email
    {
      SharedKeySameRow(users, users[i], row);
    }
    UpdateUserKeepsKeys(users, updated);
  }
}
