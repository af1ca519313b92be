/**
 * The SQLite database behind the server, as the two tables the actions touch.
 * Each table is its rows in scan order plus the rowid the next insert receives;
 * the methods are the single statements the actions execute.
 */
module Store {
  import opened Prelude
  import opened Models
  import Sql

  function GiftIdeaKey(g: GiftIdea): int { g.id }

  function UserKey(u: User): int { u.id }

  /** The filter `gift_ideas::id.eq(gid)`. */
  function HasId(gid: int): GiftIdea -> bool { (g: GiftIdea) => g.id == gid }

  /** The filter `gift_ideas::title.eq(title)`. */
  function HasTitle(title: string): GiftIdea -> bool { (g: GiftIdea) => g.title == title }

  /** The filter `users::id.eq(uid)`. */
  function UserHasId(uid: int): User -> bool { (u: User) => u.id == uid }

  /** The filter `users::email.eq(email)`. */
  function HasEmail(email: string): User -> bool { (u: User) => u.email == email }

  /** The two filters of a login: `users::email.eq(..)` and then `users::password.eq(..)`. */
  function HasCredentials(email: string, password: string): User -> bool { (u: User) => u.email == email && u.password == password }

  /** The row the store builds from an insert, with the id it assigns. */
  function GiftIdeaRow(id: int, n: NewGiftIdea): GiftIdea
  {
    GiftIdea(id, n.title, n.description, n.price, n.url, n.date_added, n.date_last_modified, n.date_reserved,
             n.owner_id, n.recipient_user_id, n.reserved_by_user_id)
  }

  /** The row with id `id` holding every column of `n`. */
  function UserRow(id: int, n: NewUser): User
  {
    User(id, n.email, n.password, n.first_name, n.last_name, n.phone)
  }

  /** `.set(changes)` with a `GiftIdea` changeset: every column but the primary key is written. */
  function Overwrite(changes: GiftIdea): (f: GiftIdea -> GiftIdea)
    ensures forall g: GiftIdea :: f(g).id == g.id && f(g).(id := changes.id) == changes
  {
    (g: GiftIdea) => changes.(id := g.id)
  }

  /** `.set(changes)` with a `NewUser` changeset: all five columns, `None` written as null. */
  function Assign(changes: NewUser): (f: User -> User)
    ensures forall u: User :: f(u).id == u.id && f(u).email == changes.email && f(u).password == changes.password
    ensures forall u: User ::
      f(u).first_name == changes.first_name && f(u).last_name == changes.last_name && f(u).phone == changes.phone
  {
    (u: User) => UserRow(u.id, changes)
  }

  class GiftIdeaTable {
    var rows: seq<GiftIdea>
    var nextId: int

    /** The primary key ascends in scan order and stays below the next rowid. */
    ghost predicate Valid()
      reads this
    {
      && Sql.Ascending(rows, GiftIdeaKey)
      && forall i | 0 <= i < |rows| :: rows[i].id < nextId
    }

    constructor ()
      ensures Valid() && rows == [] && nextId == 1
    {
      rows := [];
      nextId := 1;
    }

    /** `diesel::insert_into(gift_ideas).values(n).execute(conn)`. */
    method Insert(n: NewGiftIdea)
      requires Valid()
      modifies this
      ensures Valid()
      ensures rows == old(rows) + [GiftIdeaRow(old(nextId), n)] && nextId == old(nextId) + 1
    {
      rows := rows + [GiftIdeaRow(nextId, n)];
      nextId := nextId + 1;
    }

    /** `diesel::update(gift_ideas.filter(id.eq(gid))).set(changes).execute(conn)`: the number of rows written. */
    method SetWhereId(gid: int, changes: GiftIdea) returns (count: nat)
      requires Valid()
      modifies this
      ensures Valid() && nextId == old(nextId)
      ensures rows == Sql.UpdateWhere(old(rows), HasId(gid), Overwrite(changes))
      ensures count == Sql.Count(old(rows), HasId(gid))
    {
      count := Sql.Count(rows, HasId(gid));
      rows := Sql.UpdateWhere(rows, HasId(gid), Overwrite(changes));
    }

    /** `diesel::delete(gift_ideas.filter(id.eq(gid))).execute(conn)`: the number of rows removed. */
    method DeleteWhereId(gid: int) returns (count: nat)
      requires Valid()
      modifies this
      ensures Valid() && nextId == old(nextId)
      ensures rows == Sql.DeleteWhere(old(rows), HasId(gid))
      ensures count == Sql.Count(old(rows), HasId(gid))
    {
      count := Sql.Count(rows, HasId(gid));
      Sql.DeleteKeepsAscending(rows, HasId(gid), GiftIdeaKey);
      var survivors := Sql.DeleteWhere(rows, HasId(gid));
      forall i | 0 <= i < |survivors| ensures survivors[i].id < nextId {
        assert survivors[i] in rows;
      }
      rows := survivors;
    }
  }

  class UserTable {
    var rows: seq<User>
    var nextId: int

    /** The primary key ascends in scan order and stays below the next rowid. */
    ghost predicate Valid()
      reads this
    {
      && Sql.Ascending(rows, UserKey)
      && forall i | 0 <= i < |rows| :: rows[i].id < nextId
    }

    constructor ()
      ensures Valid() && rows == [] && nextId == 1
    {
      rows := [];
      nextId := 1;
    }

    /** `diesel::insert_into(users).values(n).execute(conn)`. */
    method Insert(n: NewUser)
      requires Valid()
      modifies this
      ensures Valid()
      ensures rows == old(rows) + [UserRow(old(nextId), n)] && nextId == old(nextId) + 1
    {
      rows := rows + [UserRow(nextId, n)];
      nextId := nextId + 1;
    }

    /** `diesel::update(users.filter(email.eq(email))).set(changes).execute(conn)`: the number of rows written. */
    method SetWhereEmail(email: string, changes: NewUser) returns (count: nat)
      requires Valid()
      modifies this
      ensures Valid() && nextId == old(nextId)
      ensures rows == Sql.UpdateWhere(old(rows), HasEmail(email), Assign(changes))
      ensures count == Sql.Count(old(rows), HasEmail(email))
    {
      count := Sql.Count(rows, HasEmail(email));
      rows := Sql.UpdateWhere(rows, HasEmail(email), Assign(changes));
    }
  }
}
