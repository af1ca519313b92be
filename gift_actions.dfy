/**
 * The older gift repository the HTTP handlers are wired to: lookup, insert and
 * whole-row update over the same `gift_ideas` table. Its re-read after an insert
 * filters on `name`, the name an earlier schema gives the column the entity
 * calls `title`; the model reads it as that column.
 */
module GiftActions {
  import opened Prelude
  import opened Models
  import opened Store
  import Sql

  /** `find_by_id`: the row with id `gid`, or `None`. */
  function FindById(t: GiftIdeaTable, gid: int): (r: Option<GiftIdea>)
    reads t
    ensures r.Some? <==> exists i | 0 <= i < |t.rows| :: t.rows[i].id == gid
    ensures r.Some? ==> r.value in t.rows && r.value.id == gid
  {
    Sql.First(t.rows, HasId(gid))
  }

  /** `add`: insert, then re-read the first row with the new name; the new row only when the name was unused. */
  method Add(t: GiftIdeaTable, n: NewGiftIdea) returns (r: GiftIdea)
    requires t.Valid()
    modifies t
    ensures t.Valid() && t.nextId == old(t.nextId) + 1
    ensures t.rows == old(t.rows) + [GiftIdeaRow(old(t.nextId), n)]
    ensures Sql.First(t.rows, HasTitle(n.title)) == Some(r) && r.title == n.title
    ensures (forall i | 0 <= i < |old(t.rows)| :: old(t.rows)[i].title != n.title) ==> r == GiftIdeaRow(old(t.nextId), n)
    ensures (exists i | 0 <= i < |old(t.rows)| :: old(t.rows)[i].title == n.title) ==> r in old(t.rows)
  {
    ghost var before := t.rows;
    t.Insert(n);
    Sql.FirstOfAppend(before, GiftIdeaRow(old(t.nextId), n), HasTitle(n.title));
    r := Sql.First(t.rows, HasTitle(n.title)).value;
  }

  /** `update`: overwrite the row with `gift.id` by `gift` and re-read it; rows with other ids keep their values. */
  method Update(t: GiftIdeaTable, gift: GiftIdea) returns (r: Result<GiftIdea, DbError>)
    requires t.Valid()
    modifies t
    ensures t.Valid() && t.nextId == old(t.nextId)
    ensures |t.rows| == |old(t.rows)|
    ensures forall i | 0 <= i < |t.rows| :: t.rows[i] == if old(t.rows)[i].id == gift.id then gift else old(t.rows)[i]
    ensures r.Ok? <==> exists i | 0 <= i < |old(t.rows)| :: old(t.rows)[i].id == gift.id
    ensures r.Ok? ==> r.value == gift
    ensures r.Err? ==> r.error == NotFound && t.rows == old(t.rows)
  {
    ghost var before := t.rows;
    var updated := t.SetWhereId(gift.id, gift);
    Sql.FirstOfUpdate(before, HasId(gift.id), Overwrite(gift));
    var found := Sql.First(t.rows, HasId(gift.id));
    r := if found.Some? then Ok(found.value) else Err(NotFound);
  }
}
