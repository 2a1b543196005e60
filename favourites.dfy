/** The favourites screen (screens/Favourites.jsx): `fetchData` selects every row
    and keeps, in a loop, those whose `isFavorite` is positive. */
module Favourites {
  import opened Seqs
  import opened Store

  /** `results.rows.item(i).isFavorite > 0`. */
  predicate IsFavourite(c: Contact): (b: bool)
    ensures c.isFavorite == FavoriteFlag(true) ==> b
    ensures c.isFavorite == FavoriteFlag(false) ==> !b
  {
    c.isFavorite > 0
  }

  /** The favourites among `rows`: exactly the rows flagged as favourite, copied
      unchanged and in storage order. */
  function FavouriteRows(rows: seq<Contact>): (r: seq<Contact>)
    ensures |r| <= |rows|
    ensures forall i :: 0 <= i < |r| ==> r[i].isFavorite > 0
    ensures forall c :: c in r <==> c in rows && c.isFavorite > 0
    ensures IsSubsequence(r, rows)
  {
    FilterIsSubsequence(rows, IsFavourite);
    forall c ensures c in Filter(rows, IsFavourite) <==> c in rows && c.isFavorite > 0 {
      FilterMembership(rows, IsFavourite, c);
    }
    Filter(rows, IsFavourite)
  }

  /** The loop of `fetchData`'s callback: push every favourite row onto `temp`. */
  method CollectFavourites(rows: seq<Contact>) returns (temp: seq<Contact>)
    ensures temp == FavouriteRows(rows)
  {
    temp := [];
    for i := 0 to |rows|
      invariant temp == Filter(rows[..i], IsFavourite)
    {
      assert rows[..i + 1] == rows[..i] + [rows[i]];
      FilterSnoc(rows[..i], rows[i], IsFavourite);
      if rows[i].isFavorite > 0 {
        temp := temp + [rows[i]];
      }
    }
    assert rows[..|rows|] == rows;
  }

  /** The screen's state: the list it renders. */
  class FavouritesScreen {
    var contactList: seq<Contact>

    constructor ()
      ensures contactList == []
    {
      contactList := [];
    }

    /** `fetchData`: `SELECT * FROM contacts`, then the favourites loop. If the table does
        not exist the statement fails, no callback runs and the list stays as it was.
        The table is only read. */
    method FetchData(db: ContactTable)
      requires db.Valid()
      modifies this
      ensures db.created ==> contactList == FavouriteRows(db.rows)
      ensures !db.created ==> contactList == old(contactList)
    {
      if db.created {
        contactList := CollectFavourites(db.rows);
      }
    }
  }
}
