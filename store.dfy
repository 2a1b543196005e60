/** The `contacts` table of Contact.db and the SQL statements the screens run on it:
    CREATE TABLE IF NOT EXISTS and INSERT (screens/AddContact.jsx), UPDATE
    (screens/Updates.jsx), DELETE and SELECT (screens/Home.jsx, screens/Favourites.jsx).
    Each statement is one atomic step on an in-memory table. */
module Store {
  import opened Seqs

  /** The largest rowid SQLite assigns (2^63 - 1); past it AUTOINCREMENT fails with SQLITE_FULL. */
  const MaxRowId: int := 0x7FFF_FFFF_FFFF_FFFF

  /** One row: `id INTEGER PRIMARY KEY AUTOINCREMENT, name, mobile, landline, photo,
      isFavorite BOOLEAN DEFAULT 0`. The photo is an opaque string. */
  datatype Contact = Contact(id: int, name: string, mobile: string, landline: string, photo: string, isFavorite: int)

  /** The values a screen binds to the `?` parameters of INSERT and UPDATE. */
  datatype Fields = Fields(name: string, mobile: string, landline: string, photo: string, isFavorite: bool)

  /** `isFavorite ? 1 : 0`: the flag as the screens store it. */
  function FavoriteFlag(favorite: bool): (n: int)
    ensures n == 0 || n == 1
    ensures n > 0 <==> favorite
  {
    if favorite then 1 else 0
  }

  /** The row holding `f` under the id `id`. */
  function RowOf(id: int, f: Fields): Contact {
    Contact(id, f.name, f.mobile, f.landline, f.photo, FavoriteFlag(f.isFavorite))
  }

  datatype SqlError = NoSuchTable | Full

  /** What a statement reports to its success callback, or the error it fails with. */
  datatype ExecResult = Done(rowsAffected: nat) | Failed(error: SqlError)

  predicate HasId(rows: seq<Contact>, id: int) {
    exists i :: 0 <= i < |rows| && rows[i].id == id
  }

  /** Rows are stored in increasing id order, so ids are unique. */
  predicate IdsIncreasing(rows: seq<Contact>) {
    forall i, j :: 0 <= i < j < |rows| ==> rows[i].id < rows[j].id
  }

  /** The condition `id=?`. */
  function IdIs(id: int): Contact -> bool {
    (r: Contact) => r.id == id
  }

  /** The negation of `id=?`: the rows a DELETE keeps. */
  function IdIsNot(id: int): Contact -> bool {
    (r: Contact) => r.id != id
  }

  /** The rows `WHERE id=?` selects. */
  function Matching(rows: seq<Contact>, id: int): seq<Contact> {
    Filter(rows, IdIs(id))
  }

  /** The table after `DELETE FROM contacts WHERE id=?`. */
  function DeleteWhere(rows: seq<Contact>, id: int): (r: seq<Contact>)
    ensures !HasId(r, id)
    ensures forall x :: x in r <==> x in rows && x.id != id
  {
    var r := Filter(rows, IdIsNot(id));
    forall x ensures x in r <==> x in rows && x.id != id {
      FilterMembership(rows, IdIsNot(id), x);
    }
    r
  }

  /** The table after `UPDATE contacts set name=?, mobile=?, landline=?, isFavorite=?,
      photo=? where id=?`: every row with that id gets the new fields and keeps its id. */
  function UpdateWhere(rows: seq<Contact>, id: int, f: Fields): (r: seq<Contact>)
    ensures |r| == |rows|
    ensures forall i :: 0 <= i < |r| ==> r[i].id == rows[i].id
    ensures forall i :: 0 <= i < |r| ==> r[i] == if rows[i].id == id then RowOf(id, f) else rows[i]
  {
    seq(|rows|, i requires 0 <= i < |rows| => if rows[i].id == id then RowOf(id, f) else rows[i])
  }

  /** With unique ids, `WHERE id=?` matches one row when the id is present and none otherwise. */
  lemma {:induction false} MatchCount(rows: seq<Contact>, id: int)
    requires IdsIncreasing(rows)
    ensures |Matching(rows, id)| == if HasId(rows, id) then 1 else 0
  {
    if rows != [] {
      var init, last := rows[..|rows| - 1], rows[|rows| - 1];
      assert rows == init + [last];
      MatchCount(init, id);
      if last.id == id {
        assert !HasId(init, id);
      } else {
        assert HasId(rows, id) ==> HasId(init, id);
      }
    }
  }

  /** Filtering keeps the rows in increasing id order. */
  lemma {:induction false} FilterKeepsIdsIncreasing(rows: seq<Contact>, p: Contact -> bool)
    requires IdsIncreasing(rows)
    ensures IdsIncreasing(Filter(rows, p))
  {
    if rows != [] {
      var init, last := rows[..|rows| - 1], rows[|rows| - 1];
      FilterKeepsIdsIncreasing(init, p);
      var r := Filter(init, p);
      forall i | 0 <= i < |r| ensures r[i].id < last.id {
        FilterMembership(init, p, r[i]);
      }
    }
  }

  /** Dropping the last row of a table keeps its ids increasing, all below the last id. */
  lemma InitIdsIncreasing(init: seq<Contact>, last: Contact)
    requires IdsIncreasing(init + [last])
    ensures IdsIncreasing(init)
    ensures forall i :: 0 <= i < |init| ==> init[i].id < last.id
  {
    var rows := init + [last];
    forall i, j | 0 <= i < j < |init| ensures init[i].id < init[j].id {
      assert rows[i] == init[i] && rows[j] == init[j];
    }
    forall i | 0 <= i < |init| ensures init[i].id < last.id {
      assert rows[i] == init[i] && rows[|init|] == last;
    }
  }

  /** Filtering out an id larger than every id present keeps every row. */
  lemma FilterOutLarger(rows: seq<Contact>, id: int)
    requires forall i :: 0 <= i < |rows| ==> rows[i].id < id
    ensures Filter(rows, IdIsNot(id)) == rows
  {
    FilterAllPass(rows, IdIsNot(id));
  }

  /** Filtering out a present id of a table with unique ids drops exactly the row at
      its position. */
  lemma {:induction false} FilterOutAt(rows: seq<Contact>, id: int, k: int)
    requires IdsIncreasing(rows) && 0 <= k < |rows| && rows[k].id == id
    ensures Filter(rows, IdIsNot(id)) == rows[..k] + rows[k + 1..]
  {
    var init, last := rows[..|rows| - 1], rows[|rows| - 1];
    assert rows == init + [last];
    FilterSnoc(init, last, IdIsNot(id));
    InitIdsIncreasing(init, last);
    if k == |rows| - 1 {
      FilterOutLarger(init, id);
      assert rows[..k] == init;
    } else {
      FilterOutAt(init, id, k);
      assert init[..k] == rows[..k];
      assert init[k + 1..] + [last] == rows[k + 1..];
    }
  }

  /** Deleting a present id removes exactly the row holding it; the others keep their order. */
  lemma DeletePresent(rows: seq<Contact>, id: int, k: int)
    requires IdsIncreasing(rows) && 0 <= k < |rows| && rows[k].id == id
    ensures DeleteWhere(rows, id) == rows[..k] + rows[k + 1..]
  {
    FilterOutAt(rows, id, k);
  }

  /** Deleting an absent id changes nothing. */
  lemma DeleteAbsent(rows: seq<Contact>, id: int)
    requires !HasId(rows, id)
    ensures DeleteWhere(rows, id) == rows
  {
    FilterAllPass(rows, IdIsNot(id));
  }

  /** What `DELETE ... WHERE id=?` does to a table whose ids are unique. */
  lemma DeleteOutcome(rows: seq<Contact>, id: int)
    requires IdsIncreasing(rows)
    ensures IdsIncreasing(DeleteWhere(rows, id))
    ensures |rows| - |DeleteWhere(rows, id)| == if HasId(rows, id) then 1 else 0
    ensures forall k :: 0 <= k < |rows| && rows[k].id == id ==> DeleteWhere(rows, id) == rows[..k] + rows[k + 1..]
    ensures !HasId(rows, id) ==> DeleteWhere(rows, id) == rows
  {
    FilterKeepsIdsIncreasing(rows, IdIsNot(id));
    forall k | 0 <= k < |rows| && rows[k].id == id
      ensures DeleteWhere(rows, id) == rows[..k] + rows[k + 1..]
    {
      DeletePresent(rows, id, k);
    }
    if !HasId(rows, id) {
      DeleteAbsent(rows, id);
    }
  }

  /** Updating an absent id changes nothing. */
  lemma UpdateAbsent(rows: seq<Contact>, id: int, f: Fields)
    requires !HasId(rows, id)
    ensures UpdateWhere(rows, id, f) == rows
  {
  }

  /** The table, its AUTOINCREMENT counter (the `contacts` entry of sqlite_sequence)
      and, as ghost state, every id ever assigned. */
  class ContactTable {
    var created: bool
    var rows: seq<Contact>
    var lastId: int
    ghost var issued: set<int>

    ghost predicate Valid()
      reads this
    {
      && 0 <= lastId <= MaxRowId
      && (!created ==> rows == [] && lastId == 0 && issued == {})
      && IdsIncreasing(rows)
      && (forall i :: 0 <= i < |rows| ==> rows[i].id in issued)
      && (forall id :: id in issued ==> 0 < id <= lastId)
      && (forall i :: 0 <= i < |rows| ==> rows[i].isFavorite == 0 || rows[i].isFavorite == 1)
    }

    /** A database in which the table has not been created yet. */
    constructor ()
      ensures Valid()
      ensures !created && rows == [] && lastId == 0 && issued == {}
    {
      created, rows, lastId, issued := false, [], 0, {};
    }

    /** `CREATE TABLE IF NOT EXISTS contacts (...)`: creates an empty table once;
        on an existing table it does nothing. */
    method CreateIfNotExists()
      requires Valid()
      modifies this
      ensures Valid() && created
      ensures rows == old(rows) && lastId == old(lastId) && issued == old(issued)
      ensures old(created) ==> unchanged(this)
    {
      created := true;
    }

    /** `INSERT INTO contacts (name, mobile, landline, photo, isFavorite) VALUES (?, ?, ?, ?, ?)`:
        appends one row under a fresh id, larger than every id ever assigned. */
    method Insert(f: Fields) returns (res: ExecResult)
      requires Valid()
      modifies this
      ensures Valid()
      ensures !old(created) ==> res == Failed(NoSuchTable) && unchanged(this)
      ensures old(created) && old(lastId) == MaxRowId ==> res == Failed(Full) && unchanged(this)
      ensures old(created) && old(lastId) < MaxRowId ==>
        && res == Done(1) && created
        && lastId == old(lastId) + 1
        && rows == old(rows) + [RowOf(lastId, f)]
        && lastId !in old(issued) && issued == old(issued) + {lastId}
        && (forall i :: 0 <= i < |old(rows)| ==> old(rows)[i].id < lastId)
    {
      if !created {
        return Failed(NoSuchTable);
      }
      if lastId == MaxRowId {
        return Failed(Full);
      }
      lastId := lastId + 1;
      rows := rows + [RowOf(lastId, f)];
      issued := issued + {lastId};
      res := Done(1);
    }

    /** `UPDATE contacts set ... where id=?`: replaces the fields of the row with that id;
        reports one affected row if the id is present and none otherwise. */
    method UpdateById(id: int, f: Fields) returns (res: ExecResult)
      requires Valid()
      modifies this
      ensures Valid()
      ensures !old(created) ==> res == Failed(NoSuchTable) && unchanged(this)
      ensures old(created) ==>
        && created && lastId == old(lastId) && issued == old(issued)
        && rows == UpdateWhere(old(rows), id, f)
        && res == Done(|Matching(old(rows), id)|)
        && res == Done(if HasId(old(rows), id) then 1 else 0)
      ensures !HasId(old(rows), id) ==> rows == old(rows)
    {
      if !created {
        return Failed(NoSuchTable);
      }
      MatchCount(rows, id);
      res := Done(|Matching(rows, id)|);
      rows := UpdateWhere(rows, id, f);
    }

    /** `DELETE FROM contacts WHERE id=?`: removes the row with that id; reports one
        affected row if the id is present and none otherwise. */
    method DeleteById(id: int) returns (res: ExecResult)
      requires Valid()
      modifies this
      ensures Valid()
      ensures !old(created) ==> res == Failed(NoSuchTable) && unchanged(this)
      ensures old(created) ==>
        && created && lastId == old(lastId) && issued == old(issued)
        && rows == DeleteWhere(old(rows), id)
        && res == Done(|old(rows)| - |rows|)
        && res == Done(if HasId(old(rows), id) then 1 else 0)
      ensures forall k :: 0 <= k < |old(rows)| && old(rows)[k].id == id ==>
        rows == old(rows)[..k] + old(rows)[k + 1..]
      ensures !HasId(old(rows), id) ==> rows == old(rows)
    {
      if !created {
        return Failed(NoSuchTable);
      }
      DeleteOutcome(rows, id);
      var before := rows;
      rows := DeleteWhere(rows, id);
      res := Done(|before| - |rows|);
    }
  }
}
