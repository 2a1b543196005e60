/** The home screen (screens/Home.jsx): the contact list, its search box and the
    delete button of each row. */
module Home {
  import opened Seqs
  import opened Text
  import opened Store

  /** The loop of `fetchContacts`'s callback: push every row of the result set, in order. */
  method CopyRows(rows: seq<Contact>) returns (contactList: seq<Contact>)
    ensures contactList == rows
  {
    contactList := [];
    var i := 0;
    while i < |rows|
      invariant 0 <= i <= |rows|
      invariant contactList == rows[..i]
    {
      contactList := contactList + [rows[i]];
      i := i + 1;
    }
  }

  /** `contact.name.toLowerCase().includes(query.toLowerCase())`: a contact whose
      name is the query matches it, and a match is never shorter than the query. */
  function NameMatches(query: string): (matches: Contact -> bool)
    ensures forall c: Contact :: c.name == query ==> matches(c)
    ensures forall c: Contact :: matches(c) ==> |query| <= |c.name|
  {
    (c: Contact) => Includes(Lower(c.name), Lower(query))
  }

  /** The filter of `handleSearch`: the contacts whose lower-cased name contains the
      lower-cased query, in the order of `contacts`. */
  function Search(contacts: seq<Contact>, query: string): (r: seq<Contact>)
    ensures |r| <= |contacts|
    ensures IsSubsequence(r, contacts)
    ensures forall c :: c in r <==> c in contacts && Includes(Lower(c.name), Lower(query))
  {
    FilterIsSubsequence(contacts, NameMatches(query));
    forall c ensures c in Filter(contacts, NameMatches(query)) <==> c in contacts && Includes(Lower(c.name), Lower(query)) {
      FilterMembership(contacts, NameMatches(query), c);
    }
    Filter(contacts, NameMatches(query))
  }

  /** The empty query keeps every contact. */
  lemma SearchEmptyQuery(contacts: seq<Contact>)
    ensures Search(contacts, "") == contacts
  {
    FilterAllPass(contacts, NameMatches(""));
  }

  /** Queries with the same lower-case form give the same result. */
  lemma SearchSameLowerCase(contacts: seq<Contact>, q1: string, q2: string)
    requires Lower(q1) == Lower(q2)
    ensures Search(contacts, q1) == Search(contacts, q2)
  {
    FilterCongruence(contacts, NameMatches(q1), NameMatches(q2));
  }

  /** Search ignores the case of the query: upper-casing it changes nothing. */
  lemma SearchIgnoresCase(contacts: seq<Contact>, query: string)
    ensures Search(contacts, Upper(query)) == Search(contacts, query)
  {
    LowerOfUpper(query);
    SearchSameLowerCase(contacts, Upper(query), query);
  }

  /** Lower-casing the query before searching changes nothing. */
  lemma SearchLowerQuery(contacts: seq<Contact>, query: string)
    ensures Search(contacts, Lower(query)) == Search(contacts, query)
  {
    LowerIdempotent(query);
    SearchSameLowerCase(contacts, Lower(query), query);
  }

  /** Searching for a contact's full name finds that contact. */
  lemma SearchFindsFullName(contacts: seq<Contact>, k: int)
    requires 0 <= k < |contacts|
    ensures contacts[k] in Search(contacts, contacts[k].name)
  {
  }

  /** The screen's state: all contacts, the query typed so far, and the list shown. */
  class HomeScreen {
    var contacts: seq<Contact>
    var searchQuery: string
    var filterContactList: seq<Contact>

    constructor ()
      ensures contacts == [] && searchQuery == "" && filterContactList == []
    {
      contacts, searchQuery, filterContactList := [], "", [];
    }

    /** `fetchContacts`: `SELECT * FROM contacts`, copied in storage order into both the
        contact list and the shown list (whatever the query). If the table does not
        exist the statement fails, no callback runs and nothing changes. */
    method FetchContacts(db: ContactTable)
      requires db.Valid()
      modifies this
      ensures db.created ==> contacts == db.rows && filterContactList == db.rows
      ensures !db.created ==> contacts == old(contacts) && filterContactList == old(filterContactList)
      ensures searchQuery == old(searchQuery)
    {
      if db.created {
        var contactList := CopyRows(db.rows);
        contacts := contactList;
        filterContactList := contactList;
      }
    }

    /** `deleteContact`: `DELETE FROM contacts WHERE id=?`; when a row was affected the
        lists are fetched again, otherwise the screen keeps its state. */
    method DeleteContact(db: ContactTable, id: int) returns (res: ExecResult)
      requires db.Valid()
      modifies this, db
      ensures db.Valid()
      ensures !old(db.created) ==> res == Failed(NoSuchTable) && unchanged(db)
      ensures old(db.created) ==>
        && db.created && db.lastId == old(db.lastId) && db.issued == old(db.issued)
        && db.rows == DeleteWhere(old(db.rows), id)
        && res == Done(if HasId(old(db.rows), id) then 1 else 0)
      ensures forall k :: 0 <= k < |old(db.rows)| && old(db.rows)[k].id == id ==>
        db.rows == old(db.rows)[..k] + old(db.rows)[k + 1..]
      ensures !HasId(old(db.rows), id) ==> db.rows == old(db.rows) && unchanged(this)
      ensures res.Done? && res.rowsAffected > 0 ==> contacts == db.rows && filterContactList == db.rows
      ensures searchQuery == old(searchQuery)
    {
      res := db.DeleteById(id);
      if res.Done? && res.rowsAffected > 0 {
        FetchContacts(db);
      }
    }

    /** `handleSearch`: records the query and filters the full contact list, never the
        list shown before. */
    method HandleSearch(query: string)
      modifies this
      ensures searchQuery == query && contacts == old(contacts)
      ensures filterContactList == Search(contacts, query)
    {
      searchQuery := query;
      filterContactList := Search(contacts, query);
    }
  }

  /** Deleting the same id twice: the second DELETE affects no row and changes nothing. */
  method DeleteTwice(home: HomeScreen, db: ContactTable, id: int) returns (first: ExecResult, second: ExecResult)
    requires db.Valid() && db.created
    modifies home, db
    ensures first == Done(if HasId(old(db.rows), id) then 1 else 0)
    ensures second == Done(0)
    ensures db.rows == DeleteWhere(old(db.rows), id)
  {
    first := home.DeleteContact(db, id);
    ghost var afterFirst := db.rows;
    second := home.DeleteContact(db, id);
    assert !HasId(afterFirst, id);
  }
}
