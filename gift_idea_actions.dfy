/**
 * The gift-idea repository: lookups, insert, whole-row update, delete, and the
 * reservation toggle, each a short sequence of statements against the
 * `gift_ideas` table. Every action runs atomically here.
 */
module GiftIdeaActions {
  import opened Prelude
  import opened Shared
  import opened Models
  import opened Store
  import Sql

  /** The two states of a gift idea: nobody holds it, or one user does. */
  datatype Reservation = Open | Reserved(holder: int)

  function ReservationOf(g: GiftIdea): (s: Reservation)
    ensures s.Open? <==> g.reserved_by_user_id.None?
    ensures s.Reserved? ==> g.reserved_by_user_id == Some(s.holder)
  {
    match g.reserved_by_user_id
    case None => Open
    case Some(uid) => Reserved(uid)
  }

  /** `find_all`: the whole table in scan order (empty for an empty table). */
  function FindAll(t: GiftIdeaTable): (r: seq<GiftIdea>)
    reads t
    ensures r == t.rows
  {
    t.rows
  }

  /** `find_by_id`: the row with id `gid`, or `None` when there is none. */
  function FindById(t: GiftIdeaTable, gid: int): (r: Option<GiftIdea>)
    reads t
    ensures r.Some? <==> exists i | 0 <= i < |t.rows| :: t.rows[i].id == gid
    ensures r.Some? ==> r.value in t.rows && r.value.id == gid
  {
    Sql.First(t.rows, HasId(gid))
  }

  /** In a valid table the row `find_by_id` returns is the one row carrying that id. */
  lemma FindByIdIsTheRow(t: GiftIdeaTable, i: int)
    requires t.Valid() && 0 <= i < |t.rows|
    ensures FindById(t, t.rows[i].id) == Some(t.rows[i])
  {
    var r := FindById(t, t.rows[i].id);
    var j :| 0 <= j < |t.rows| && t.rows[j] == r.value;
    Sql.KeyUnique(t.rows, GiftIdeaKey, i, j);
  }

  /**
   * `add`: insert the row, then re-read the FIRST row whose title equals the new
   * title. That is the inserted row only when the title was unused before.
   */
  method Add(t: GiftIdeaTable, n: NewGiftIdea) returns (r: GiftIdea)
    requires t.Valid()
    modifies t
    ensures t.Valid() && t.nextId == old(t.nextId) + 1
    ensures t.rows == old(t.rows) + [GiftIdeaRow(old(t.nextId), n)]
    ensures Sql.First(t.rows, HasTitle(n.title)) == Some(r) && r.title == n.title
    ensures (forall i | 0 <= i < |old(t.rows)| :: old(t.rows)[i].title != n.title) ==> r == GiftIdeaRow(old(t.nextId), n)
    ensures (exists i | 0 <= i < |old(t.rows)| :: old(t.rows)[i].title == n.title) ==> r in old(t.rows)
  {
    ghost var before := t.rows;
    t.Insert(n);
    Sql.FirstOfAppend(before, GiftIdeaRow(old(t.nextId), n), HasTitle(n.title));
    var found := Sql.First(t.rows, HasTitle(n.title));
    r := found.value;
  }

  /**
   * A gift idea submitted through the API and stored under id `id` reads back with the
   * submitted title, details, owner and recipient, and with no reserver.
   */
  lemma StoredRequestReadsBack(id: int, body: GiftIdeaRequestBody, added: Timestamp, modified: Timestamp)
    ensures ToResponse(GiftIdeaRow(id, NewGiftIdeaFromRequest(body, added, modified)))
         == GiftIdeaResponseBody(id, body.title, body.description, body.price, body.url,
                                 body.owner_id, body.recipient_user_id, None)
    ensures ReservationOf(GiftIdeaRow(id, NewGiftIdeaFromRequest(body, added, modified))) == Open
  {
  }

  /**
   * When an earlier row already has the title, the row `add` re-reads is not the one it
   * inserted: its id differs from the id the insert assigned.
   */
  lemma AddRereadMissesInsertedRow(rows: seq<GiftIdea>, nextId: int, n: NewGiftIdea)
    requires forall i | 0 <= i < |rows| :: rows[i].id < nextId
    requires exists i | 0 <= i < |rows| :: rows[i].title == n.title
    ensures Sql.First(rows + [GiftIdeaRow(nextId, n)], HasTitle(n.title)).Some?
    ensures Sql.First(rows + [GiftIdeaRow(nextId, n)], HasTitle(n.title)).value.id != nextId
  {
    Sql.FirstOfAppend(rows, GiftIdeaRow(nextId, n), HasTitle(n.title));
  }

  /** A concrete case: a second "Headphones" idea makes `add` answer with the first one (id 1, not 2). */
  lemma AddReturnsOlderHeadphones()
    ensures var older := GiftIdea(1, "Headphones", None, None, None, 0, 0, None, 1, 2, None);
            var n := NewGiftIdeaOf("Headphones", 3, 2, 10, 10);
            Sql.First([older] + [GiftIdeaRow(2, n)], HasTitle(n.title)) == Some(older)
  {
    var older := GiftIdea(1, "Headphones", None, None, None, 0, 0, None, 1, 2, None);
    var n := NewGiftIdeaOf("Headphones", 3, 2, 10, 10);
    Sql.FirstOfAppend([older], GiftIdeaRow(2, n), HasTitle(n.title));
  }

  /**
   * `add` as its comment intends (the `RETURNING` row): re-read the row by the id the
   * insert assigned, so the caller always receives the row just stored.
   */
  method AddReturningInserted(t: GiftIdeaTable, n: NewGiftIdea) returns (r: GiftIdea)
    requires t.Valid()
    modifies t
    ensures t.Valid() && t.nextId == old(t.nextId) + 1
    ensures t.rows == old(t.rows) + [GiftIdeaRow(old(t.nextId), n)]
    ensures r == GiftIdeaRow(old(t.nextId), n)
    ensures forall i | 0 <= i < |old(t.rows)| :: old(t.rows)[i].id != r.id
    ensures FindById(t, r.id) == Some(r)
  {
    var id := t.nextId;
    t.Insert(n);
    FindByIdIsTheRow(t, |t.rows| - 1);
    var found := Sql.First(t.rows, HasId(id));
    r := found.value;
  }

  /**
   * The state after a reservation write: the row with id `gid` gets `holder` as its
   * reserver; no other column and no other row changes.
   */
  function SetReservation(rows: seq<GiftIdea>, gid: int, holder: Option<int>): (r: seq<GiftIdea>)
    ensures |r| == |rows|
    ensures forall i | 0 <= i < |rows| ::
      r[i] == if rows[i].id == gid then rows[i].(reserved_by_user_id := holder) else rows[i]
  {
    Sql.UpdateWhere(rows, HasId(gid), WithHolder(holder))
  }

  function WithHolder(holder: Option<int>): GiftIdea -> GiftIdea
  {
    (g: GiftIdea) => g.(reserved_by_user_id := holder)
  }

  /** The state machine view of the row with id `gid`. */
  function StateOf(rows: seq<GiftIdea>, gid: int): Option<Reservation>
  {
    match Sql.First(rows, HasId(gid))
    case None => None
    case Some(g) => Some(ReservationOf(g))
  }

  /** Writing the first row with id `gid`, one column changed, back over every row with that id is the reservation write. */
  lemma WriteBackIsSetReservation(rows: seq<GiftIdea>, gid: int, holder: Option<int>)
    requires Sql.Ascending(rows, GiftIdeaKey)
    requires Sql.First(rows, HasId(gid)).Some?
    ensures Sql.UpdateWhere(rows, HasId(gid), Overwrite(Sql.First(rows, HasId(gid)).value.(reserved_by_user_id := holder)))
         == SetReservation(rows, gid, holder)
  {
    var first := Sql.First(rows, HasId(gid)).value;
    var j :| 0 <= j < |rows| && rows[j] == first && first.id == gid;
    var lhs := Sql.UpdateWhere(rows, HasId(gid), Overwrite(first.(reserved_by_user_id := holder)));
    forall i | 0 <= i < |rows| ensures lhs[i] == SetReservation(rows, gid, holder)[i] {
      if rows[i].id == gid {
        Sql.KeyUnique(rows, GiftIdeaKey, i, j);
      }
    }
  }

  /** The body `reserve` and `unreserve` share: read the row, set its reserver, write it back, re-read it. */
  method WriteReservation(t: GiftIdeaTable, gid: int, holder: Option<int>) returns (r: GiftIdeaResponseBody)
    requires t.Valid()
    requires FindById(t, gid).Some?
    modifies t
    ensures t.Valid() && t.nextId == old(t.nextId)
    ensures t.rows == SetReservation(old(t.rows), gid, holder)
    ensures FindById(t, gid).Some? && r == ToResponse(FindById(t, gid).value)
    ensures r.id == gid && r.reserved_by_user_id == holder
  {
    ghost var before := t.rows;
    var gift := Sql.First(t.rows, HasId(gid)).value;
    gift := gift.(reserved_by_user_id := holder);
    var updatedRow := t.SetWhereId(gid, gift);
    WriteBackIsSetReservation(before, gid, holder);
    Sql.FirstOfUpdate(before, HasId(gid), WithHolder(holder));
    var stored := Sql.First(t.rows, HasId(gid)).value;
    r := ToResponse(stored);
  }

  /** `reserve`: the row becomes Reserved(uid), whoever held it before and whoever its recipient is. */
  method Reserve(t: GiftIdeaTable, gid: int, uid: int) returns (r: GiftIdeaResponseBody)
    requires t.Valid()
    requires FindById(t, gid).Some?
    modifies t
    ensures t.Valid() && t.nextId == old(t.nextId)
    ensures t.rows == SetReservation(old(t.rows), gid, Some(uid))
    ensures FindById(t, gid).Some? && r == ToResponse(FindById(t, gid).value)
    ensures r.id == gid && r.reserved_by_user_id == Some(uid)
  {
    r := WriteReservation(t, gid, Some(uid));
  }

  /** `unreserve`: the row becomes Open, whoever held it. */
  method Unreserve(t: GiftIdeaTable, gid: int) returns (r: GiftIdeaResponseBody)
    requires t.Valid()
    requires FindById(t, gid).Some?
    modifies t
    ensures t.Valid() && t.nextId == old(t.nextId)
    ensures t.rows == SetReservation(old(t.rows), gid, None)
    ensures FindById(t, gid).Some? && r == ToResponse(FindById(t, gid).value)
    ensures r.id == gid && r.reserved_by_user_id.None?
  {
    r := WriteReservation(t, gid, None);
  }

  /** After a reservation write the row's state is exactly the written holder, whatever it was before. */
  lemma {:induction false} StateAfterWrite(rows: seq<GiftIdea>, gid: int, holder: Option<int>)
    requires StateOf(rows, gid).Some?
    ensures StateOf(SetReservation(rows, gid, holder), gid) ==
            Some(if holder.Some? then Reserved(holder.value) else Open)
  {
    Sql.FirstOfUpdate(rows, HasId(gid), WithHolder(holder));
  }

  /** Reservation writes do not accumulate: the last one wins (no guard against overwriting a holder). */
  lemma LastWriteWins(rows: seq<GiftIdea>, gid: int, first: Option<int>, second: Option<int>)
    ensures SetReservation(SetReservation(rows, gid, first), gid, second) == SetReservation(rows, gid, second)
  {
    var lhs := SetReservation(SetReservation(rows, gid, first), gid, second);
    var rhs := SetReservation(rows, gid, second);
    forall i | 0 <= i < |rows| ensures lhs[i] == rhs[i] {
    }
  }

  /** `reserve` then `unreserve` always ends Open, and leaves the table as `unreserve` alone would. */
  lemma ReserveThenUnreserve(rows: seq<GiftIdea>, gid: int, uid: int)
    requires StateOf(rows, gid).Some?
    ensures SetReservation(SetReservation(rows, gid, Some(uid)), gid, None) == SetReservation(rows, gid, None)
    ensures StateOf(SetReservation(SetReservation(rows, gid, Some(uid)), gid, None), gid) == Some(Open)
  {
    LastWriteWins(rows, gid, Some(uid), None);
    StateAfterWrite(rows, gid, None);
  }

  /** A reservation write leaves every other column of the row, and every other row, as it was. */
  lemma ReservationFrame(rows: seq<GiftIdea>, gid: int, holder: Option<int>, i: int)
    requires 0 <= i < |rows|
    ensures SetReservation(rows, gid, holder)[i].(reserved_by_user_id := rows[i].reserved_by_user_id) == rows[i]
    ensures rows[i].id != gid ==> SetReservation(rows, gid, holder)[i] == rows[i]
  {
  }

  /** `delete`: remove every row with id `gid`; report whether exactly one went. */
  method Delete(t: GiftIdeaTable, gid: int) returns (deleted: bool)
    requires t.Valid()
    modifies t
    ensures t.Valid() && t.nextId == old(t.nextId)
    ensures t.rows == Sql.DeleteWhere(old(t.rows), HasId(gid))
    ensures deleted <==> Sql.Count(old(t.rows), HasId(gid)) == 1
    ensures deleted <==> exists i | 0 <= i < |old(t.rows)| :: old(t.rows)[i].id == gid
    ensures FindById(t, gid).None?
    ensures forall i | 0 <= i < |old(t.rows)| && old(t.rows)[i].id != gid :: old(t.rows)[i] in t.rows
  {
    Sql.CountOfKey(t.rows, GiftIdeaKey, gid, HasId(gid));
    var numDeleted := t.DeleteWhereId(gid);
    deleted := numDeleted == 1;
  }

  /**
   * `update`: write every column of `gift` over the row with its id, then re-read it;
   * `NotFound` when no row has that id (the update itself then writes nothing).
   */
  method Update(t: GiftIdeaTable, gift: GiftIdea) returns (r: Result<GiftIdea, DbError>)
    requires t.Valid()
    modifies t
    ensures t.Valid() && t.nextId == old(t.nextId)
    ensures |t.rows| == |old(t.rows)|
    ensures forall i | 0 <= i < |t.rows| :: t.rows[i] == if old(t.rows)[i].id == gift.id then gift else old(t.rows)[i]
    ensures r.Ok? <==> exists i | 0 <= i < |old(t.rows)| :: old(t.rows)[i].id == gift.id
    ensures r.Ok? ==> r.value == gift
    ensures r.Err? ==> r.error == NotFound && t.rows == old(t.rows)
  {
    ghost var before := t.rows;
    var updated := t.SetWhereId(gift.id, gift);
    Sql.FirstOfUpdate(before, HasId(gift.id), Overwrite(gift));
    var found := Sql.First(t.rows, HasId(gift.id));
    if found.None? {
      r := Err(NotFound);
    } else {
      r := Ok(found.value);
    }
  }
}
