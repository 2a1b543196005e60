/** The per-field checks that the add screen (screens/AddContact.jsx, handleSave)
    and the update screen (screens/Updates.jsx, updateContact) run before writing.
    Each check yields its error message, or the empty string when the field passes. */
module Validation {
  import opened Text
  import opened JsNumber

  const NameRequired: string := "Please enter the name"
  const NameInvalid: string := "Name must be maximum 50 characters long"
  const MobileInvalid: string := "Please enter a valid 10-digit mobile number"
  const LandlineInvalid: string := "Please enter a valid 10-digit landline number"

  /** The character class `[a-zA-Z0-9!@#$%^&*]`. */
  predicate IsNameChar(c: char) {
    'a' <= c <= 'z' || 'A' <= c <= 'Z' || '0' <= c <= '9' || c in "!@#$%^&*"
  }

  /** `/^[a-zA-Z0-9!@#$%^&*]{1,50}$/.test(name)`: without the `m` flag, `$` matches
      only at the end of the input, so the whole string must be 1 to 50 such characters. */
  predicate MatchesNamePattern(name: string): (b: bool)
    ensures b ==> 1 <= JsLength(name) <= 50
    ensures b ==> forall i :: 0 <= i < |name| ==> !IsWhiteSpace(name[i])
  {
    var b := 1 <= |name| <= 50 && forall i :: 0 <= i < |name| ==> IsNameChar(name[i]);
    if b then JsLengthOfBmp(name); b else b
  }

  /** A name that matches the pattern has no white space, so it is not blank. */
  lemma PatternNameNotBlank(name: string)
    ensures MatchesNamePattern(name) ==> !IsBlank(name)
  {
    if MatchesNamePattern(name) {
      assert IsNameChar(name[0]);
    }
  }

  /** The name check of the add screen: blankness first, then the pattern. */
  function AddNameError(name: string): (msg: string)
    ensures msg == "" || msg == NameRequired || msg == NameInvalid
    ensures msg == NameRequired <==> IsBlank(name)
    ensures msg == "" <==> MatchesNamePattern(name)
  {
    PatternNameNotBlank(name);
    if IsBlank(name) then NameRequired
    else if !MatchesNamePattern(name) then NameInvalid
    else ""
  }

  /** The name check of the update screen: blankness only. */
  function UpdateNameError(name: string): (msg: string)
    ensures msg == "" || msg == NameRequired
    ensures msg == "" <==> exists i :: 0 <= i < |name| && !IsWhiteSpace(name[i])
  {
    if IsBlank(name) then NameRequired else ""
  }

  /** `!mobile.trim() && isNaN(Number(mobile)) || mobile.length !== 10`. A blank
      string converts to 0, so the first conjunction never holds and only the
      length, in UTF-16 code units, decides. */
  function MobileError(mobile: string): (msg: string)
    ensures msg == "" || msg == MobileInvalid
    ensures msg == "" <==> JsLength(mobile) == 10
  {
    if (IsBlank(mobile) && NumberIsNaN(mobile)) || JsLength(mobile) != 10 then MobileInvalid else ""
  }

  /** `landline.trim() && isNaN(Number(landline)) || landline.length !== 10`: the
      landline passes exactly when it has 10 code units and converts to a number.
      A number is written in ASCII, so that is 10 characters. */
  function LandlineError(landline: string): (msg: string)
    ensures msg == "" || msg == LandlineInvalid
    ensures msg == "" <==> JsLength(landline) == 10 && !NumberIsNaN(landline)
    ensures msg == "" <==> |landline| == 10 && !NumberIsNaN(landline)
  {
    var msg := if (!IsBlank(landline) && NumberIsNaN(landline)) || JsLength(landline) != 10 then LandlineInvalid else "";
    if NumberIsNaN(landline) then msg else NumberIsAscii(landline); msg
  }

  /** The three error slots a screen displays. */
  datatype FieldErrors = FieldErrors(name: string, mobile: string, landline: string) {
    /** `isValid`: no slot holds a message. */
    predicate IsValid() {
      name == "" && mobile == "" && landline == ""
    }
  }

  /** Every field of the add form is checked, whatever the others give. */
  function CheckOnAdd(name: string, mobile: string, landline: string): (e: FieldErrors)
    ensures e.IsValid() <==> MatchesNamePattern(name) && JsLength(mobile) == 10 && |landline| == 10 && !NumberIsNaN(landline)
  {
    FieldErrors(AddNameError(name), MobileError(mobile), LandlineError(landline))
  }

  /** Every field of the update form is checked, whatever the others give. */
  function CheckOnUpdate(name: string, mobile: string, landline: string): (e: FieldErrors)
    ensures e.IsValid() <==> !IsBlank(name) && JsLength(mobile) == 10 && |landline| == 10 && !NumberIsNaN(landline)
  {
    FieldErrors(UpdateNameError(name), MobileError(mobile), LandlineError(landline))
  }

  /** The add screen is stricter than the update screen: whatever can be added can be saved by an update. */
  lemma AddValidImpliesUpdateValid(name: string, mobile: string, landline: string)
    requires CheckOnAdd(name, mobile, landline).IsValid()
    ensures CheckOnUpdate(name, mobile, landline).IsValid()
  {
    PatternNameNotBlank(name);
  }

  /** A name with a space inside passes on update, but on add it gets the length message. */
  lemma SpacedNameRejectedOnlyOnAdd()
    ensures AddNameError("Ann Lee") == NameInvalid
    ensures UpdateNameError("Ann Lee") == ""
  {
    assert !IsNameChar("Ann Lee"[3]);
    assert !IsWhiteSpace("Ann Lee"[0]);
  }

  /** A landline of ten decimal digits passes. */
  lemma TenDigitLandlinePasses(landline: string)
    requires |landline| == 10 && IsDecimalDigits(landline)
    ensures LandlineError(landline) == ""
  {
    DigitsAreNumber(landline);
  }

  /** The empty landline is rejected: it is blank, but its length is not 10. */
  lemma EmptyLandlineRejected()
    ensures LandlineError("") == LandlineInvalid
    ensures CheckOnAdd("Alex1", "9876543210", "") == FieldErrors("", "", LandlineInvalid)
  {
    JsLengthOfBmp("9876543210");
  }

  /** Ten characters with white space between the digits do not convert to a number. */
  lemma InnerSpaceLandlineRejected(landline: string, i: int)
    requires |landline| == 10 && 0 < i < 9 && IsWhiteSpace(landline[i])
    requires !IsWhiteSpace(landline[0]) && !IsWhiteSpace(landline[9])
    ensures LandlineError(landline) == LandlineInvalid
  {
    TrimUnchanged(landline);
    ForeignCharIsNaN(landline, i);
  }

  /** Ten blanks pass the landline check: a blank string converts to 0. */
  lemma BlankLandlinePasses(landline: string)
    requires |landline| == 10 && IsBlank(landline)
    ensures LandlineError(landline) == ""
  {
  }

  /** The code-unit lengths of two mobiles ending in an emoji. */
  lemma EmojiMobileLengths()
    ensures JsLength("12345678\U{1F600}") == 10
    ensures JsLength("123456789\U{1F600}") == 11
  {
    JsLengthOfBmp("12345678");
    JsLengthOfBmp("123456789");
    assert "12345678\U{1F600}"[..8] == "12345678";
    assert "123456789\U{1F600}"[..9] == "123456789";
  }

  /** `length` counts UTF-16 code units: eight digits and an emoji make 10 code units
      and pass the mobile check, while nine digits and an emoji make 11 and fail. */
  lemma MobileCountsCodeUnits()
    ensures MobileError("12345678\U{1F600}") == ""
    ensures MobileError("123456789\U{1F600}") == MobileInvalid
  {
    EmojiMobileLengths();
  }
}
