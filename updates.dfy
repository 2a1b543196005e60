/** The edit screen (screens/Updates.jsx): a form opened on one contact, whose update
    button checks the three text fields and, only when all pass, rewrites that
    contact's row. */
module Updates {
  import opened Text
  import opened JsNumber
  import opened Validation
  import opened Store

  /** What pressing update led to: nothing ran, or the UPDATE ran with this result. */
  datatype UpdateOutcome = Rejected | Executed(update: ExecResult) {
    /** The success alert is shown: the UPDATE reported at least one affected row.
        Every other outcome is silent or shows the failure alert. */
    predicate Succeeded(): (b: bool)
      ensures forall n: nat :: this == Executed(Done(n)) && n <= 1 ==> (b <==> n == 1)
      ensures this == Rejected ==> !b
      ensures this == Executed(Failed(NoSuchTable)) || this == Executed(Failed(Full)) ==> !b
    {
      Executed? && update.Done? && update.rowsAffected > 0
    }
  }

  /** The form's state: the id of the contact being edited, the edited values and
      the three error slots. */
  class UpdatesScreen {
    const contactId: int
    var name: string
    var mobile: string
    var landline: string
    var photo: string
    var isFavorite: bool
    var nameError: string
    var mobileError: string
    var landlineError: string

    /** The form starts with the fields of the contact it was opened on; the stored
        flag is read by its truthiness. */
    constructor (contact: Contact)
      ensures contactId == contact.id
      ensures name == contact.name && mobile == contact.mobile && landline == contact.landline
      ensures photo == contact.photo && isFavorite == (contact.isFavorite != 0)
      ensures nameError == "" && mobileError == "" && landlineError == ""
    {
      contactId := contact.id;
      name, mobile, landline, photo := contact.name, contact.mobile, contact.landline, contact.photo;
      isFavorite := contact.isFavorite != 0;
      nameError, mobileError, landlineError := "", "", "";
    }

    /** The heart button: `setIsFavorite(!isFavorite)`. */
    method ToggleFavorite()
      modifies this`isFavorite
      ensures isFavorite == !old(isFavorite)
    {
      isFavorite := !isFavorite;
    }

    /** The name check of `updateContact`: blankness only. */
    method CheckName() returns (ok: bool)
      modifies this`nameError
      ensures nameError == UpdateNameError(name) && ok == (nameError == "")
    {
      if IsBlank(name) {
        nameError := NameRequired;
        ok := false;
      } else {
        nameError := "";
        ok := true;
      }
    }

    /** The mobile check of `updateContact`. */
    method CheckMobile() returns (ok: bool)
      modifies this`mobileError
      ensures mobileError == MobileError(mobile) && ok == (mobileError == "")
    {
      if (IsBlank(mobile) && NumberIsNaN(mobile)) || JsLength(mobile) != 10 {
        mobileError := MobileInvalid;
        ok := false;
      } else {
        mobileError := "";
        ok := true;
      }
    }

    /** The landline check of `updateContact`. */
    method CheckLandline() returns (ok: bool)
      modifies this`landlineError
      ensures landlineError == LandlineError(landline) && ok == (landlineError == "")
    {
      if (!IsBlank(landline) && NumberIsNaN(landline)) || JsLength(landline) != 10 {
        landlineError := LandlineInvalid;
        ok := false;
      } else {
        landlineError := "";
        ok := true;
      }
    }

    /** The checks of `updateContact`: every field is checked and its slot set,
        whatever the others give; the result is `isValid`. */
    method CheckFields() returns (isValid: bool)
      modifies this`nameError, this`mobileError, this`landlineError
      ensures FieldErrors(nameError, mobileError, landlineError) == CheckOnUpdate(name, mobile, landline)
      ensures isValid == CheckOnUpdate(name, mobile, landline).IsValid()
    {
      isValid := true;
      var ok := CheckName();
      isValid := isValid && ok;
      ok := CheckMobile();
      isValid := isValid && ok;
      ok := CheckLandline();
      isValid := isValid && ok;
    }

    /** `updateContact`: the checks, then, only if all pass, the UPDATE of the row
        with the edited contact's id. No CREATE TABLE runs first, so on a database
        without the table the statement fails. */
    method UpdateContact(db: ContactTable) returns (outcome: UpdateOutcome)
      requires db.Valid()
      modifies this`nameError, this`mobileError, this`landlineError, db
      ensures db.Valid()
      ensures FieldErrors(nameError, mobileError, landlineError) == CheckOnUpdate(name, mobile, landline)
      ensures !CheckOnUpdate(name, mobile, landline).IsValid() ==> outcome == Rejected && unchanged(db)
      ensures CheckOnUpdate(name, mobile, landline).IsValid() ==>
        && outcome.Executed?
        && (!old(db.created) ==> outcome.update == Failed(NoSuchTable) && unchanged(db))
        && (old(db.created) ==>
              && db.created && db.lastId == old(db.lastId)
              && db.rows == UpdateWhere(old(db.rows), contactId, Fields(name, mobile, landline, photo, isFavorite))
              && outcome.update == Done(if HasId(old(db.rows), contactId) then 1 else 0)
              && (outcome.Succeeded() <==> HasId(old(db.rows), contactId)))
      ensures !HasId(old(db.rows), contactId) ==> db.rows == old(db.rows) && !outcome.Succeeded()
    {
      var isValid := CheckFields();
      if isValid {
        var res := db.UpdateById(contactId, Fields(name, mobile, landline, photo, isFavorite));
        outcome := Executed(res);
      } else {
        outcome := Rejected;
      }
    }
  }

  /** Pressing the heart twice restores the flag the form had. */
  method ToggleTwice(form: UpdatesScreen)
    modifies form`isFavorite
    ensures form.isFavorite == old(form.isFavorite)
  {
    form.ToggleFavorite();
    form.ToggleFavorite();
  }

  /** Opening a stored contact and pressing update without edits succeeds and leaves
      the table as it was: the row is rewritten with its own values. */
  method UpdateUnedited(db: ContactTable, k: int) returns (outcome: UpdateOutcome)
    requires db.Valid() && db.created && 0 <= k < |db.rows|
    requires CheckOnUpdate(db.rows[k].name, db.rows[k].mobile, db.rows[k].landline).IsValid()
    modifies db
    ensures outcome.Succeeded()
    ensures db.rows == old(db.rows)
  {
    var form := new UpdatesScreen(db.rows[k]);
    ghost var before := db.rows;
    outcome := form.UpdateContact(db);
    assert HasId(before, form.contactId);
    forall i | 0 <= i < |before| ensures db.rows[i] == before[i] {
      assert before[i].id == form.contactId ==> i == k;
    }
  }
}
