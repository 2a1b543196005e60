/** When `isNaN(Number(s))` holds for a string `s`: StringToNumber
    (ECMA-262, section 7.1.4.1.1) yields NaN exactly when `s` is not a
    StringNumericLiteral (section 7.1.4.1). Only the NaN-ness is modelled,
    not the numeric value, and white space is restricted to ASCII. */
module JsNumber {
  import opened Text

  predicate IsDecimalDigit(c: char) { '0' <= c <= '9' }

  predicate IsHexDigit(c: char) { IsDecimalDigit(c) || 'a' <= c <= 'f' || 'A' <= c <= 'F' }

  predicate IsOctalDigit(c: char) { '0' <= c <= '7' }

  predicate IsBinaryDigit(c: char) { c == '0' || c == '1' }

  /** DecimalDigits: one or more decimal digits. */
  predicate IsDecimalDigits(s: string) {
    |s| > 0 && forall i :: 0 <= i < |s| ==> IsDecimalDigit(s[i])
  }

  /** DecimalDigits, or nothing. */
  predicate IsOptionalDecimalDigits(s: string) {
    forall i :: 0 <= i < |s| ==> IsDecimalDigit(s[i])
  }

  /** SignedInteger: DecimalDigits with an optional leading sign. */
  predicate IsSignedInteger(s: string) {
    IsDecimalDigits(s) || (|s| > 0 && (s[0] == '+' || s[0] == '-') && IsDecimalDigits(s[1..]))
  }

  /** The point of a mantissa `A.B` sits at `k`; A and B are digit runs, not both empty. */
  predicate IsPointAt(s: string, k: int) {
    0 <= k < |s| && s[k] == '.'
    && IsOptionalDecimalDigits(s[..k]) && IsOptionalDecimalDigits(s[k + 1..])
    && (k > 0 || k + 1 < |s|)
  }

  /** The mantissa forms of StrUnsignedDecimalLiteral, without ExponentPart:
      `DecimalDigits`, `DecimalDigits . DecimalDigits?` and `. DecimalDigits`. */
  predicate IsMantissa(s: string) {
    IsDecimalDigits(s) || exists k :: 0 <= k < |s| && IsPointAt(s, k)
  }

  /** The exponent of `s` starts at `k`: a mantissa, then `e` or `E`, then a SignedInteger. */
  predicate IsExponentAt(s: string, k: int) {
    0 < k < |s| && (s[k] == 'e' || s[k] == 'E') && IsMantissa(s[..k]) && IsSignedInteger(s[k + 1..])
  }

  /** StrUnsignedDecimalLiteral: `Infinity`, or a mantissa with an optional ExponentPart. */
  predicate IsUnsignedDecimal(s: string) {
    s == "Infinity" || IsMantissa(s) || exists k :: 0 < k < |s| && IsExponentAt(s, k)
  }

  /** StrDecimalLiteral: a StrUnsignedDecimalLiteral with an optional sign. */
  predicate IsStrDecimal(s: string) {
    IsUnsignedDecimal(s) || (|s| > 0 && (s[0] == '+' || s[0] == '-') && IsUnsignedDecimal(s[1..]))
  }

  /** Digits of the given radix after a two-character prefix. */
  predicate IsRadixDigits(s: string, radix: int) {
    |s| > 0 && forall i :: 0 <= i < |s| ==>
      if radix == 2 then IsBinaryDigit(s[i])
      else if radix == 8 then IsOctalDigit(s[i])
      else IsHexDigit(s[i])
  }

  /** NonDecimalIntegerLiteral: `0b`, `0o` or `0x` (either case) and digits; no sign. */
  predicate IsNonDecimalInteger(s: string) {
    |s| > 2 && s[0] == '0' &&
    (  ((s[1] == 'b' || s[1] == 'B') && IsRadixDigits(s[2..], 2))
    || ((s[1] == 'o' || s[1] == 'O') && IsRadixDigits(s[2..], 8))
    || ((s[1] == 'x' || s[1] == 'X') && IsRadixDigits(s[2..], 16)))
  }

  /** StringNumericLiteral: optional white space, optionally one StrNumericLiteral
      surrounded by optional white space. The white space is what `trim` removes. */
  predicate IsNumericString(s: string) {
    var t := Trim(s);
    t == [] || IsStrDecimal(t) || IsNonDecimalInteger(t)
  }

  /** `isNaN(Number(s))`. A blank string converts to 0, so it is never NaN. */
  predicate NumberIsNaN(s: string): (b: bool)
    ensures IsBlank(s) ==> !b
  {
    !IsNumericString(s)
  }

  /** A non-empty run of decimal digits converts to a number. */
  lemma DigitsAreNumber(s: string)
    requires IsDecimalDigits(s)
    ensures !NumberIsNaN(s)
  {
    assert !IsWhiteSpace(s[0]);
    assert TrimStart(s) == s;
    assert !IsWhiteSpace(s[|s| - 1]);
    assert TrimEnd(s) == s;
  }

  /** A character that occurs in some StrNumericLiteral. */
  predicate IsLiteralChar(c: char) {
    IsHexDigit(c) || c in "+-.eExXoObBInfinity"
  }

  predicate AllLiteralChars(s: string) {
    forall i :: 0 <= i < |s| ==> IsLiteralChar(s[i])
  }

  lemma SignedIntegerChars(s: string)
    requires IsSignedInteger(s)
    ensures AllLiteralChars(s)
  {
    if !IsDecimalDigits(s) {
      forall i | 0 < i < |s| ensures IsLiteralChar(s[i]) {
        assert s[i] == s[1..][i - 1];
      }
    }
  }

  lemma MantissaChars(s: string)
    requires IsMantissa(s)
    ensures AllLiteralChars(s)
  {
    if !IsDecimalDigits(s) {
      var k :| 0 <= k < |s| && IsPointAt(s, k);
      forall i | 0 <= i < |s| ensures IsLiteralChar(s[i]) {
        if i < k { assert s[i] == s[..k][i]; }
        else if i > k { assert s[i] == s[k + 1..][i - k - 1]; }
      }
    }
  }

  lemma UnsignedDecimalChars(s: string)
    requires IsUnsignedDecimal(s)
    ensures AllLiteralChars(s)
  {
    if s == "Infinity" {
    } else if IsMantissa(s) {
      MantissaChars(s);
    } else {
      var k :| 0 < k < |s| && IsExponentAt(s, k);
      MantissaChars(s[..k]);
      SignedIntegerChars(s[k + 1..]);
      forall i | 0 <= i < |s| ensures IsLiteralChar(s[i]) {
        if i < k { assert s[i] == s[..k][i]; }
        else if i > k { assert s[i] == s[k + 1..][i - k - 1]; }
      }
    }
  }

  /** Every character of a StrNumericLiteral is a literal character. */
  lemma NumericLiteralChars(t: string)
    requires IsStrDecimal(t) || IsNonDecimalInteger(t)
    ensures AllLiteralChars(t)
  {
    if IsUnsignedDecimal(t) {
      UnsignedDecimalChars(t);
    } else if IsStrDecimal(t) {
      UnsignedDecimalChars(t[1..]);
      forall i | 0 < i < |t| ensures IsLiteralChar(t[i]) {
        assert t[i] == t[1..][i - 1];
      }
    } else {
      forall i | 2 <= i < |t| ensures IsLiteralChar(t[i]) {
        assert t[i] == t[2..][i - 2];
      }
    }
  }

  /** A string whose trimmed form holds a character no numeric literal uses (a letter
      such as `g`, or white space inside the digits) converts to NaN. */
  lemma ForeignCharIsNaN(s: string, i: int)
    requires 0 <= i < |Trim(s)| && !IsLiteralChar(Trim(s)[i])
    ensures NumberIsNaN(s)
  {
    if IsStrDecimal(Trim(s)) || IsNonDecimalInteger(Trim(s)) {
      NumericLiteralChars(Trim(s));
    }
  }

  /** The literal characters are all ASCII. */
  lemma LiteralCharsAscii(t: string)
    requires AllLiteralChars(t)
    ensures forall i :: 0 <= i < |t| ==> t[i] as int < 0x80
  {
    forall i | 0 <= i < |t| ensures t[i] as int < 0x80 {
      assert IsLiteralChar(t[i]);
    }
  }

  /** A string that converts to a number holds only ASCII characters, so its
      `length` is its number of characters. */
  lemma NumberIsAscii(s: string)
    requires !NumberIsNaN(s)
    ensures forall i :: 0 <= i < |s| ==> s[i] as int < 0x80
    ensures JsLength(s) == |s|
  {
    var t := Trim(s);
    if t != [] {
      assert IsStrDecimal(t) || IsNonDecimalInteger(t);
      NumericLiteralChars(t);
      LiteralCharsAscii(t);
    }
    AsciiAroundTrim(s);
    JsLengthOfBmp(s);
  }
}
