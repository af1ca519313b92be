/**
 * The user repository: login by credentials, lookups, update keyed by email and
 * insert, over the `users` table.
 */
module UserActions {
  import opened Prelude
  import opened Models
  import opened Store
  import Sql

  /** `login`: the first row whose email AND password both equal the request's. */
  function Login(t: UserTable, user: NewUser): (r: Option<User>)
    reads t
    ensures r.Some? <==> exists i | 0 <= i < |t.rows| :: t.rows[i].email == user.email && t.rows[i].password == user.password
    ensures r.Some? ==> r.value.email == user.email && r.value.password == user.password
    ensures r.Some? ==> exists i | 0 <= i < |t.rows| :: t.rows[i] == r.value &&
                          forall j | 0 <= j < i :: !(t.rows[j].email == user.email && t.rows[j].password == user.password)
  {
    Sql.First(t.rows, HasCredentials(user.email, user.password))
  }

  /** A known email with a password no row under that email carries does not log in. */
  lemma WrongPasswordRejected(t: UserTable, user: NewUser)
    requires forall i | 0 <= i < |t.rows| && t.rows[i].email == user.email :: t.rows[i].password != user.password
    ensures Login(t, user).None?
  {
  }

  /** `find_all`: every user row in scan order; the empty list for an empty table. */
  function FindAll(t: UserTable): (r: seq<User>)
    reads t
    ensures r == t.rows
  {
    t.rows
  }

  /** `find_by_id`: the row with id `uid`, or `None`. */
  function FindById(t: UserTable, uid: int): (r: Option<User>)
    reads t
    ensures r.Some? <==> exists i | 0 <= i < |t.rows| :: t.rows[i].id == uid
    ensures r.Some? ==> r.value in t.rows && r.value.id == uid
  {
    Sql.First(t.rows, UserHasId(uid))
  }

  /** `find_by_email`: the first row with that email, or `None`. */
  function FindByEmail(t: UserTable, email: string): (r: Option<User>)
    reads t
    ensures r.Some? <==> exists i | 0 <= i < |t.rows| :: t.rows[i].email == email
    ensures r.Some? ==> r.value in t.rows && r.value.email == email
    ensures r.Some? ==> exists i | 0 <= i < |t.rows| :: t.rows[i] == r.value && forall j | 0 <= j < i :: t.rows[j].email != email
  {
    Sql.First(t.rows, HasEmail(email))
  }

  /**
   * `update`: every row with `user.email` takes all five columns of `user` (a `None`
   * column becomes null), keeping its id; the first such row is returned, or
   * `NotFound` when the email is unknown.
   */
  method Update(t: UserTable, user: NewUser) returns (r: Result<User, DbError>)
    requires t.Valid()
    modifies t
    ensures t.Valid() && t.nextId == old(t.nextId)
    ensures |t.rows| == |old(t.rows)|
    ensures forall i | 0 <= i < |t.rows| :: t.rows[i].id == old(t.rows)[i].id
    ensures forall i | 0 <= i < |t.rows| ::
      t.rows[i] == if old(t.rows)[i].email == user.email then UserRow(old(t.rows)[i].id, user) else old(t.rows)[i]
    ensures r.Ok? <==> exists i | 0 <= i < |old(t.rows)| :: old(t.rows)[i].email == user.email
    ensures r.Ok? ==> old(FindByEmail(t, user.email)).Some? && r.value == UserRow(old(FindByEmail(t, user.email)).value.id, user)
    ensures r.Err? ==> r.error == NotFound && t.rows == old(t.rows)
  {
    ghost var before := t.rows;
    var updated := t.SetWhereEmail(user.email, user);
    Sql.FirstOfUpdate(before, HasEmail(user.email), Assign(user));
    var found := Sql.First(t.rows, HasEmail(user.email));
    r := if found.Some? then Ok(found.value) else Err(NotFound);
  }

  /**
   * `add`: insert, then re-read the first row with the new email. When the email was
   * new, that is the inserted row with every submitted column.
   */
  method Add(t: UserTable, n: NewUser) returns (r: User)
    requires t.Valid()
    modifies t
    ensures t.Valid() && t.nextId == old(t.nextId) + 1
    ensures t.rows == old(t.rows) + [UserRow(old(t.nextId), n)]
    ensures FindByEmail(t, n.email) == Some(r) && r.email == n.email
    ensures old(FindByEmail(t, n.email)).None? ==> r == UserRow(old(t.nextId), n)
    ensures old(FindByEmail(t, n.email)).Some? ==> r == old(FindByEmail(t, n.email)).value
  {
    ghost var before := t.rows;
    t.Insert(n);
    Sql.FirstOfAppend(before, UserRow(old(t.nextId), n), HasEmail(n.email));
    r := Sql.First(t.rows, HasEmail(n.email)).value;
  }
}
