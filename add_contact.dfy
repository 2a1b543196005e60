/** The add screen (screens/AddContact.jsx): a form whose save button checks the
    three text fields and, only when all pass, creates the table if needed and
    inserts the new contact. */
module AddContact {
  import opened Text
  import opened JsNumber
  import opened Validation
  import opened Store

  /** What pressing save led to: nothing ran, or the INSERT ran with this result. */
  datatype SaveOutcome = Rejected | Executed(insert: ExecResult)

  /** The form's state: the entered values and the three error slots. */
  class AddContactScreen {
    var name: string
    var mobile: string
    var landline: string
    var photo: string
    var isFavorite: bool
    var nameError: string
    var mobileError: string
    var landlineError: string

    /** Every field starts empty, not a favourite, with no error shown. */
    constructor ()
      ensures name == "" && mobile == "" && landline == "" && photo == "" && !isFavorite
      ensures nameError == "" && mobileError == "" && landlineError == ""
    {
      name, mobile, landline, photo, isFavorite := "", "", "", "", false;
      nameError, mobileError, landlineError := "", "", "";
    }

    /** `handleToggleFavorite`. */
    method HandleToggleFavorite()
      modifies this`isFavorite
      ensures isFavorite == !old(isFavorite)
    {
      isFavorite := !isFavorite;
    }

    /** The name check of `handleSave`: blankness first, then the pattern. */
    method CheckName() returns (ok: bool)
      modifies this`nameError
      ensures nameError == AddNameError(name) && ok == (nameError == "")
    {
      if IsBlank(name) {
        nameError := NameRequired;
        ok := false;
      } else if !MatchesNamePattern(name) {
        nameError := NameInvalid;
        ok := false;
      } else {
        nameError := "";
        ok := true;
      }
    }

    /** The mobile check of `handleSave`. */
    method CheckMobile() returns (ok: bool)
      modifies this`mobileError
      ensures mobileError == MobileError(mobile) && ok == (mobileError == "")
    {
      if (IsBlank(mobile) && NumberIsNaN(mobile)) || JsLength(mobile) != 10 {
        mobileError := MobileInvalid;
        ok := false;
      } else {
        mobileError := "";
        ok := true;
      }
    }

    /** The landline check of `handleSave`. */
    method CheckLandline() returns (ok: bool)
      modifies this`landlineError
      ensures landlineError == LandlineError(landline) && ok == (landlineError == "")
    {
      if (!IsBlank(landline) && NumberIsNaN(landline)) || JsLength(landline) != 10 {
        landlineError := LandlineInvalid;
        ok := false;
      } else {
        landlineError := "";
        ok := true;
      }
    }

    /** The checks of `handleSave`: every field is checked and its slot set, whatever
        the others give; the result is `isValid`. */
    method CheckFields() returns (isValid: bool)
      modifies this`nameError, this`mobileError, this`landlineError
      ensures FieldErrors(nameError, mobileError, landlineError) == CheckOnAdd(name, mobile, landline)
      ensures isValid == CheckOnAdd(name, mobile, landline).IsValid()
    {
      isValid := true;
      var ok := CheckName();
      isValid := isValid && ok;
      ok := CheckMobile();
      isValid := isValid && ok;
      ok := CheckLandline();
      isValid := isValid && ok;
      ghost var errors := FieldErrors(nameError, mobileError, landlineError);
      assert errors == CheckOnAdd(name, mobile, landline);
      if isValid {
        assert errors.IsValid();
        nameError, mobileError, landlineError := "", "", "";
      }
    }

    /** `handleSave`: the checks, then, only if all pass, CREATE TABLE IF NOT EXISTS
        and the INSERT. */
    method HandleSave(db: ContactTable) returns (outcome: SaveOutcome)
      requires db.Valid()
      modifies this`nameError, this`mobileError, this`landlineError, db
      ensures db.Valid()
      ensures FieldErrors(nameError, mobileError, landlineError) == CheckOnAdd(name, mobile, landline)
      ensures !CheckOnAdd(name, mobile, landline).IsValid() ==> outcome == Rejected && unchanged(db)
      ensures CheckOnAdd(name, mobile, landline).IsValid() ==>
        && outcome.Executed? && db.created && db.issued >= old(db.issued)
        && (old(db.lastId) < MaxRowId ==>
              && outcome.insert == Done(1)
              && db.lastId == old(db.lastId) + 1 && db.lastId !in old(db.issued)
              && db.rows == old(db.rows) + [Contact(db.lastId, name, mobile, landline, photo, if isFavorite then 1 else 0)])
        && (old(db.lastId) == MaxRowId ==> outcome.insert == Failed(Full) && unchanged(db))
    {
      var isValid := CheckFields();
      if isValid {
        db.CreateIfNotExists();
        var res := db.Insert(Fields(name, mobile, landline, photo, isFavorite));
        outcome := Executed(res);
      } else {
        outcome := Rejected;
      }
    }
  }

  /** A mobile number of five digits is refused with the mobile message and adds no row. */
  method SaveShortMobile(form: AddContactScreen, db: ContactTable) returns (outcome: SaveOutcome)
    requires db.Valid()
    requires form.mobile == "12345"
    modifies form`nameError, form`mobileError, form`landlineError, db
    ensures outcome == Rejected && form.mobileError == MobileInvalid
    ensures db.rows == old(db.rows)
  {
    outcome := form.HandleSave(db);
  }
}
