# ContactsApp contact book, modelled in Dafny

ContactsApp is a React Native contact book. Its data lives in one SQLite table,
`contacts` in `Contact.db`, with the columns `id INTEGER PRIMARY KEY AUTOINCREMENT`,
`name`, `mobile`, `landline`, `photo` and `isFavorite`. Four screens work on that table:

- **Add contact** (`screens/AddContact.jsx`). `handleSave` checks the name, mobile and
  landline fields. Each field gets its own error message. Only when all three pass does
  it run `CREATE TABLE IF NOT EXISTS` and then `INSERT`.
- **Edit contact** (`screens/Updates.jsx`). The form starts from the contact it was
  opened on. `updateContact` runs the same checks, except that the name check is
  weaker. Only when all three pass does it run `UPDATE ... where id=?`.
- **Home** (`screens/Home.jsx`). `fetchContacts` copies every row into the list. The
  search box filters that list case-insensitively by name. `deleteContact` runs
  `DELETE ... WHERE id=?` and fetches again when a row was removed.
- **Favourites** (`screens/Favourites.jsx`). `fetchData` keeps the rows whose
  `isFavorite` is positive.

The project has one module per concern:

| file | module | contents |
|---|---|---|
| `seqs.dfy` | `Seqs` | the order-preserving `Filter` shared by the search box, the favourites loop and `DELETE ... WHERE`; the subsequence relation |
| `text.dfy` | `Text` | the `length` of a JavaScript string in UTF-16 code units; `String.prototype.trim`, `toLowerCase`, `toUpperCase` and `includes` over ASCII text |
| `jsnumber.dfy` | `JsNumber` | `isNaN(Number(s))`, following the StringNumericLiteral grammar of section 7.1.4.1 of ECMA-262 |
| `validation.dfy` | `Validation` | each field check as a function giving its error message, and the checks of both screens |
| `store.dfy` | `Store` | the `contacts` table as a class: its rows, whether it exists, and the AUTOINCREMENT counter; INSERT, UPDATE and DELETE |
| `add_contact.dfy` | `AddContact` | the add screen as a class |
| `updates.dfy` | `Updates` | the edit screen as a class |
| `home.dfy` | `Home` | the home screen as a class, plus the search filter |
| `favourites.dfy` | `Favourites` | the favourites screen as a class, plus its collecting loop |

Each screen's state is a class. Its fields are the React state slots. Its methods are
the event handlers, with `modifies` clauses on the slots and on the table they change.
Each per-field check is written as a method that mirrors the handler's if/else. That
method is proved equal to a pure check function, and the functions carry the properties.

Each SQL statement is one atomic step on the table. When the table exists, its
`rowsAffected` is returned as `Done(n)`. When the table was never created, the
statement fails with `Failed(NoSuchTable)`. In that case no success callback runs, so
the screen does not change. The table's invariant `Valid()` says:

- row ids increase strictly in storage order, so they are unique;
- every id is at most the AUTOINCREMENT counter `lastId`;
- a ghost set holds every id ever assigned;
- the stored flag is 0 or 1.

Findings about the code's behaviour that are easy to miss:

- `!s.trim() && isNaN(Number(s)) || s.length !== 10` parses as
  `(!s.trim() && isNaN(Number(s))) || s.length !== 10`.
- A blank string converts to 0, so a blank string is never NaN.
  - For mobile, the first disjunct can never hold. Any string whose `length` is 10
    passes (`MobileError`). `length` counts UTF-16 code units, so eight digits and an
    emoji pass, and nine digits and an emoji fail (`MobileCountsCodeUnits`).
  - For landline, the first disjunct holds only for a non-blank string that is not
    numeric. So a landline passes iff its `length` is 10 and it converts to a number.
    A number is written in ASCII, so that is also 10 characters (`NumberIsAscii`).
    Ten spaces pass (`BlankLandlinePasses`). The empty landline is rejected
    (`EmptyLandlineRejected`).
- The add screen requires the name to match `^[a-zA-Z0-9!@#$%^&*]{1,50}$`. A short
  name with a space gets the message "Name must be maximum 50 characters long". The
  edit screen only requires a non-blank name (`SpacedNameRejectedOnlyOnAdd`).

## Model

| member | source | states |
|---|---|---|
| Text.JsLength | screens/AddContact.jsx:40 | `length` counts at least one and at most two code units per character |
| Text.JsLengthOfBmp | screens/AddContact.jsx:40 | a string with no character beyond U+FFFF has a `length` equal to its number of characters |
| Text.Trim | screens/AddContact.jsx:29 | `trim` gives a string no longer than its input that neither starts nor ends with white space |
| Text.TrimStartSpec | screens/AddContact.jsx:29 | the start-trimmed string is a suffix; all it drops is white space, and it starts with a non-white-space character |
| Text.TrimEndSpec | screens/AddContact.jsx:29 | the end-trimmed string is a prefix; all it drops is white space, and it ends with a non-white-space character |
| Text.TrimSpec | screens/AddContact.jsx:29 | `trim` yields a block of the string that begins and ends with a non-white-space character, and only white space surrounds it |
| Text.IsBlank | screens/AddContact.jsx:29 | `!s.trim()` holds exactly when every character of `s` is white space |
| Text.AsciiAroundTrim | screens/AddContact.jsx:48 | trimming removes only ASCII white space, so if the trimmed form is ASCII the whole string is |
| Text.TrimUnchanged | screens/AddContact.jsx:48 | a string with no white space at either end is its own trimmed form |
| Text.Lower | screens/Home.jsx:56 | `toLowerCase` keeps the length and leaves no upper-case ASCII letter |
| Text.LowerOfUpper | screens/Home.jsx:56 | lower-casing after upper-casing equals lower-casing: case changes do not survive `toLowerCase` |
| Text.LowerIdempotent | screens/Home.jsx:56 | lower-casing an already lower-cased string changes nothing |
| Text.Includes | screens/Home.jsx:56 | `includes` holds only for a needle no longer than the haystack, and always holds for the empty needle and for the haystack itself |
| JsNumber.NumberIsNaN | screens/AddContact.jsx:40 | `isNaN(Number(s))` follows the StringNumericLiteral grammar over the trimmed string; a blank string converts to 0, never to NaN |
| JsNumber.DigitsAreNumber | screens/AddContact.jsx:48 | a non-empty run of decimal digits is not NaN |
| JsNumber.NumberIsAscii | screens/AddContact.jsx:48 | a string that converts to a number is all ASCII (white space restricted to ASCII, as for `Trim`), so its `length` is its number of characters |
| JsNumber.ForeignCharIsNaN | screens/AddContact.jsx:48 | a trimmed string holding a character no numeric literal uses converts to NaN |
| Validation.MatchesNamePattern | screens/AddContact.jsx:28-32 | `nameRegex.test(name)`: a matching name has a `length` of 1 to 50 and no white space |
| Validation.PatternNameNotBlank | screens/AddContact.jsx:28-32 | a name matching the name pattern is never blank, so the pattern check decides only for non-blank names |
| Validation.AddNameError | screens/AddContact.jsx:28-37 | "Please enter the name" iff the name is blank; no message iff the name is 1 to 50 characters of `[a-zA-Z0-9!@#$%^&*]`; otherwise the length message |
| Validation.UpdateNameError | screens/Updates.jsx:29-34 | "Please enter the name" iff the name is blank; no other check on the name |
| Validation.MobileError | screens/AddContact.jsx:40-45 | the mobile message is given iff the `length` in UTF-16 code units is not 10 |
| Validation.LandlineError | screens/AddContact.jsx:48-53 | no landline message iff the `length` is 10 and `Number(landline)` is not NaN; equivalently, 10 characters and not NaN |
| Validation.CheckOnAdd | screens/AddContact.jsx:25-53 | the add form is valid iff the name matches the pattern, the mobile's `length` is 10, and the landline has 10 characters and is numeric |
| Validation.CheckOnUpdate | screens/Updates.jsx:26-50 | the edit form is valid iff the name is not blank, the mobile's `length` is 10, and the landline has 10 characters and is numeric |
| Validation.AddValidImpliesUpdateValid | screens/Updates.jsx:29-50 | every form the add screen accepts, the edit screen accepts too |
| Validation.SpacedNameRejectedOnlyOnAdd | screens/Updates.jsx:29-34 | "Ann Lee" gets the length message on add and no message on update |
| Validation.TenDigitLandlinePasses | screens/AddContact.jsx:48-53 | ten decimal digits pass the landline check |
| Validation.EmptyLandlineRejected | screens/AddContact.jsx:48-53 | the empty landline is rejected, so a form with only that fault shows only the landline message |
| Validation.InnerSpaceLandlineRejected | screens/AddContact.jsx:48-53 | ten characters with white space between non-blank ends are rejected |
| Validation.BlankLandlinePasses | screens/AddContact.jsx:48-53 | ten blanks pass the landline check |
| Validation.EmojiMobileLengths | screens/AddContact.jsx:40 | eight digits and an emoji have `length` 10; nine digits and an emoji have `length` 11 |
| Validation.MobileCountsCodeUnits | screens/AddContact.jsx:40-45 | eight digits and an emoji pass the mobile check; nine digits and an emoji fail it |
| Store.FavoriteFlag | screens/AddContact.jsx:68 | `isFavorite ? 1 : 0` is 0 or 1, and positive iff the flag is set |
| Store.DeleteWhere | screens/Home.jsx:39 | after DELETE no row has the id, and a row remains iff it was there with another id |
| Store.UpdateWhere | screens/Updates.jsx:55-56 | UPDATE keeps the row count and every id; the rows with the id get the new fields, all others are unchanged |
| Store.MatchCount | screens/Updates.jsx:55-59 | with unique ids, `WHERE id=?` selects one row if the id is present and none otherwise |
| Store.FilterKeepsIdsIncreasing | screens/Home.jsx:39 | removing rows keeps the remaining ids in increasing order |
| Store.FilterOutAt | screens/Home.jsx:39 | with unique ids, keeping the rows whose id differs from the one at position k drops exactly that row |
| Store.DeletePresent | screens/Home.jsx:39-44 | deleting a present id removes exactly that row; the others keep their order and values |
| Store.DeleteAbsent | screens/Home.jsx:39-47 | deleting a missing id leaves the rows unchanged |
| Store.DeleteOutcome | screens/Home.jsx:39-47 | DELETE keeps the ids increasing, and removes one row if the id is present and none otherwise |
| Store.UpdateAbsent | screens/Updates.jsx:55-71 | updating a missing id leaves the rows unchanged |
| Store.ContactTable.constructor | screens/AddContact.jsx:9 | a fresh database has no table, no rows, and counter 0 |
| Store.ContactTable.CreateIfNotExists | screens/AddContact.jsx:63 | the table exists afterwards; rows and counter are kept; on an existing table nothing changes |
| Store.ContactTable.Insert | screens/AddContact.jsx:63-68 | on an existing table, appends one row with the given fields, flag 1/0, and id `lastId + 1`, which is fresh and larger than every id before; reports one row; fails with SQLITE_FULL when the counter is at its maximum, and fails on a missing table |
| Store.ContactTable.UpdateById | screens/Updates.jsx:55-59 | rows become `UpdateWhere` of the old rows; the report is one row if the id is present and none otherwise; a missing id changes nothing |
| Store.ContactTable.DeleteById | screens/Home.jsx:38-44 | rows become `DeleteWhere` of the old rows; the report is the number of rows removed, one or zero; a present id removes exactly its row; a missing id changes nothing |
| AddContact.AddContactScreen.constructor | screens/AddContact.jsx:14-22 | the form starts empty, not favourite, with no message |
| AddContact.AddContactScreen.HandleToggleFavorite | screens/AddContact.jsx:143-145 | the favourite flag is negated |
| AddContact.AddContactScreen.CheckName | screens/AddContact.jsx:28-37 | sets the name slot to the add name check's message and reports whether it is empty |
| AddContact.AddContactScreen.CheckMobile | screens/AddContact.jsx:39-45 | sets the mobile slot to the mobile check's message and reports whether it is empty |
| AddContact.AddContactScreen.CheckLandline | screens/AddContact.jsx:47-53 | sets the landline slot to the landline check's message and reports whether it is empty |
| AddContact.AddContactScreen.CheckFields | screens/AddContact.jsx:24-58 | all three slots are set independently to `CheckOnAdd`, and `isValid` is their conjunction |
| AddContact.AddContactScreen.HandleSave | screens/AddContact.jsx:24-97 | slots equal `CheckOnAdd`; an invalid form leaves the table untouched; a valid form creates the table if needed and appends exactly one row with the form's values under a fresh id, keeping all earlier rows, or fails with SQLITE_FULL and leaves the whole table, counter included, unchanged |
| AddContact.SaveShortMobile | screens/AddContact.jsx:40-60 | a five-digit mobile is refused with the mobile message and adds no row |
| Updates.UpdatesScreen.constructor | screens/Updates.jsx:15-23 | the form's fields equal the contact's, the flag is its truthiness, and no message is shown |
| Updates.UpdatesScreen.ToggleFavorite | screens/Updates.jsx:177 | the favourite flag is negated |
| Updates.UpdatesScreen.CheckName | screens/Updates.jsx:28-34 | sets the name slot to the update name check's message and reports whether it is empty |
| Updates.UpdatesScreen.CheckMobile | screens/Updates.jsx:36-42 | sets the mobile slot to the mobile check's message and reports whether it is empty |
| Updates.UpdatesScreen.CheckLandline | screens/Updates.jsx:44-50 | sets the landline slot to the landline check's message and reports whether it is empty |
| Updates.UpdatesScreen.CheckFields | screens/Updates.jsx:25-50 | all three slots are set independently to `CheckOnUpdate`, and `isValid` is their conjunction |
| Updates.UpdateOutcome.Succeeded | screens/Updates.jsx:59 | for an UPDATE reporting 0 or 1 affected rows, the success alert is shown exactly when it reports 1; a rejected form and a failed statement do not show it |
| Updates.UpdatesScreen.UpdateContact | screens/Updates.jsx:25-76 | slots equal `CheckOnUpdate`; an invalid form leaves the table untouched; a valid form rewrites exactly the rows with the contact's id, keeping every id and every other row, and reports `rowsAffected` 1 when that id is present and 0 when it is not, so it succeeds iff the id is present; a missing id changes nothing and takes the failure branch |
| Updates.ToggleTwice | screens/Updates.jsx:177 | pressing the heart twice restores the flag |
| Updates.UpdateUnedited | screens/Updates.jsx:15-59 | opening a stored valid contact and updating it unedited succeeds and leaves the table as it was |
| Home.CopyRows | screens/Home.jsx:26-29 | the loop's list equals the result rows, in storage order |
| Seqs.Filter | screens/Home.jsx:55-57 | `filter` (and a loop that pushes the items passing a test) gives at most as many items as it was given, each passing the test |
| Home.NameMatches | screens/Home.jsx:55-56 | a contact whose name is the query matches it; a matching contact's name is at least as long as the query |
| Home.Search | screens/Home.jsx:55-57 | the result is an order-preserving subsequence of the contacts, holding exactly those whose lower-cased name includes the lower-cased query |
| Home.SearchEmptyQuery | screens/Home.jsx:55-57 | the empty query returns all contacts |
| Home.SearchSameLowerCase | screens/Home.jsx:55-57 | queries with the same lower-case form give the same result |
| Home.SearchIgnoresCase | screens/Home.jsx:56 | upper-casing the query does not change the result |
| Home.SearchLowerQuery | screens/Home.jsx:56 | lower-casing the query first gives the same result |
| Home.SearchFindsFullName | screens/Home.jsx:55-57 | searching a contact's full name finds it |
| Home.HomeScreen.constructor | screens/Home.jsx:15-17 | the screen starts with empty lists and an empty query |
| Home.HomeScreen.FetchContacts | screens/Home.jsx:23-34 | both lists become all table rows in storage order; without the table nothing changes |
| Home.HomeScreen.DeleteContact | screens/Home.jsx:36-51 | the table becomes `DeleteWhere` and the AUTOINCREMENT counter and issued ids are kept, so a deleted id is never reused; one row is reported iff the id was present, and then the lists are fetched again; a missing id leaves the rows and the screen unchanged |
| Home.HomeScreen.HandleSearch | screens/Home.jsx:53-59 | records the query; the shown list is `Search` of the full contact list, which is unchanged |
| Home.DeleteTwice | screens/Home.jsx:36-47 | a second delete of the same id reports no row affected |
| Favourites.IsFavourite | screens/Favourites.jsx:22 | a row stored with the flag of a favourite (1) passes `isFavorite > 0`; a row stored with 0 does not |
| Favourites.FavouriteRows | screens/Favourites.jsx:20-24 | at most as many rows; every row kept has `isFavorite > 0`; a row is kept iff it is in the table with `isFavorite > 0`; storage order is kept |
| Favourites.CollectFavourites | screens/Favourites.jsx:20-23 | the loop's list equals `FavouriteRows` of the result rows |
| Favourites.FavouritesScreen.constructor | screens/Favourites.jsx:11 | the screen starts with an empty list |
| Favourites.FavouritesScreen.FetchData | screens/Favourites.jsx:17-27 | the list becomes `FavouriteRows` of the table, which is only read; without the table the list is kept |

## Left out

- Photo capture and choice (`launchCamera`, `launchImageLibrary`, building the data URI). These call a foreign picker library. `photo` is an opaque string here.
- Rendering, styles, navigation, `Alert.alert` dialogs and `console.log`. None of these affects the table or the checked fields.
- The driver's transactions, callbacks and asynchrony. Each SQL statement is one atomic step that happens at once.
- The missing `Alert` import in `screens/Home.jsx` (line 46 uses it, line 2 does not import it). Deleting a missing id therefore throws instead of showing a dialog. The model states only that the table and the screen are unchanged on that path.
- The text setters of the forms (`onChangeText`). They only assign a field.
- The `useEffect` and `isFocused` refresh triggers. They are UI lifecycle. The edit screen's effect (`screens/Updates.jsx:78-84`) assigns the same values as the initial state, so the constructor covers it.
- `App.tsx`. It is navigation only and is not part of this model.
- VARCHAR widths. SQLite does not enforce them, so nothing is truncated.
- Text.Trim: only ASCII white space (tab, line feed, vertical tab, form feed, carriage return, space) is removed. JavaScript also removes no-break space, the Unicode space separators, line and paragraph separators and the byte-order mark.
- Text.Lower: only ASCII letters change case. JavaScript also folds other Unicode letters.
- JsNumber.NumberIsNaN: decides only whether `Number(s)` is NaN, not which number a string denotes. It shares the ASCII-only white space of `Trim`.
- Store.ContactTable.Insert: the photo and flag columns keep their given values. Column affinity conversions are not modelled; the screens always bind a string and 1/0.
