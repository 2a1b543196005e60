/** The string operations the screens rely on: the `length` of a JavaScript string,
    and, restricted to ASCII, String.prototype.trim, toLowerCase and includes. */
module Text {

  /** WhiteSpace or LineTerminator (ECMA-262, sections 12.2 and 12.3), ASCII only:
      tab, line feed, vertical tab, form feed, carriage return and space. */
  predicate IsWhiteSpace(c: char) {
    c == '\t' || c == '\n' || c == '\U{000B}' || c == '\U{000C}' || c == '\r' || c == ' '
  }

  /** The number of UTF-16 code units of `s`, which is what `length` reports: a
      character outside the Basic Multilingual Plane takes a surrogate pair. */
  function JsLength(s: string): (n: nat)
    ensures |s| <= n <= 2 * |s|
  {
    if s == [] then 0
    else JsLength(s[..|s| - 1]) + (if s[|s| - 1] as int > 0xFFFF then 2 else 1)
  }

  /** A string with no character beyond U+FFFF has one code unit per character. */
  lemma {:induction false} JsLengthOfBmp(s: string)
    requires forall i :: 0 <= i < |s| ==> s[i] as int <= 0xFFFF
    ensures JsLength(s) == |s|
  {
    if s != [] {
      JsLengthOfBmp(s[..|s| - 1]);
    }
  }

  /** `s` without its leading white space. */
  function TrimStart(s: string): string {
    if s != [] && IsWhiteSpace(s[0]) then TrimStart(s[1..]) else s
  }

  /** `s` without its trailing white space. */
  function TrimEnd(s: string): string {
    if s != [] && IsWhiteSpace(s[|s| - 1]) then TrimEnd(s[..|s| - 1]) else s
  }

  /** String.prototype.trim: both ends stripped of white space. The result is no
      longer than `s` and neither starts nor ends with white space. */
  function Trim(s: string): (r: string)
    ensures |r| <= |s|
    ensures r != [] ==> !IsWhiteSpace(r[0]) && !IsWhiteSpace(r[|r| - 1])
  {
    TrimStartSpec(s);
    TrimEndSpec(TrimStart(s));
    var r := TrimEnd(TrimStart(s));
    assert r != [] ==> r[0] == TrimStart(s)[0];
    r
  }

  /** TrimStart removes a prefix made only of white space, and stops at the first
      other character. */
  lemma {:induction false} TrimStartSpec(s: string)
    ensures |TrimStart(s)| <= |s| && TrimStart(s) == s[|s| - |TrimStart(s)|..]
    ensures forall i :: 0 <= i < |s| - |TrimStart(s)| ==> IsWhiteSpace(s[i])
    ensures TrimStart(s) != [] ==> !IsWhiteSpace(TrimStart(s)[0])
  {
    if s != [] && IsWhiteSpace(s[0]) {
      var u := s[1..];
      TrimStartSpec(u);
      var t := TrimStart(u);
      assert TrimStart(s) == t;
      assert u[|u| - |t|..] == s[|s| - |t|..];
      forall i | 0 <= i < |s| - |t| ensures IsWhiteSpace(s[i]) {
        if i > 0 { assert s[i] == u[i - 1]; }
      }
    }
  }

  /** TrimEnd removes a suffix made only of white space, and stops at the last
      other character. */
  lemma {:induction false} TrimEndSpec(s: string)
    ensures |TrimEnd(s)| <= |s| && TrimEnd(s) == s[..|TrimEnd(s)|]
    ensures forall i :: |TrimEnd(s)| <= i < |s| ==> IsWhiteSpace(s[i])
    ensures TrimEnd(s) != [] ==> !IsWhiteSpace(TrimEnd(s)[|TrimEnd(s)| - 1])
  {
    if s != [] && IsWhiteSpace(s[|s| - 1]) {
      var u := s[..|s| - 1];
      TrimEndSpec(u);
      var t := TrimEnd(u);
      assert TrimEnd(s) == t;
      assert u[..|t|] == s[..|t|];
      forall i | |t| <= i < |s| ensures IsWhiteSpace(s[i]) {
        if i < |s| - 1 { assert s[i] == u[i]; }
      }
    }
  }

  /** The trimmed string is a block of `s` that starts and ends with a character
      other than white space, and everything around it is white space. */
  lemma TrimSpec(s: string)
    ensures Trim(s) != [] ==> !IsWhiteSpace(Trim(s)[0]) && !IsWhiteSpace(Trim(s)[|Trim(s)| - 1])
    ensures exists k {:trigger s[k..]} ::
      (&& 0 <= k <= |s| - |Trim(s)| && Trim(s) == s[k..][..|Trim(s)|]
       && (forall i :: 0 <= i < k ==> IsWhiteSpace(s[i]))
       && (forall i :: k + |Trim(s)| <= i < |s| ==> IsWhiteSpace(s[i])))
  {
    var t := TrimStart(s);
    TrimStartSpec(s);
    TrimEndSpec(t);
    var k := |s| - |t|;
    var r := Trim(s);
    assert r == s[k..][..|r|];
    forall i | k + |r| <= i < |s| ensures IsWhiteSpace(s[i]) {
      assert s[i] == t[i - k];
    }
    if r != [] {
      assert r[0] == t[0];
    }
  }

  /** Trimming removes only ASCII white space, so a string whose trimmed form is
      ASCII is ASCII throughout. */
  lemma AsciiAroundTrim(s: string)
    requires forall i :: 0 <= i < |Trim(s)| ==> Trim(s)[i] as int < 0x80
    ensures forall i :: 0 <= i < |s| ==> s[i] as int < 0x80
  {
    var t := Trim(s);
    TrimSpec(s);
    var k :| 0 <= k <= |s| - |t| && t == s[k..][..|t|]
      && (forall i :: 0 <= i < k ==> IsWhiteSpace(s[i]))
      && (forall i :: k + |t| <= i < |s| ==> IsWhiteSpace(s[i]));
    forall i | 0 <= i < |s| ensures s[i] as int < 0x80 {
      if k <= i < k + |t| {
        assert s[i] == t[i - k];
      }
    }
  }

  /** `!s.trim()`: the trimmed string is the empty string, which is falsy. A string
      is blank exactly when every character in it is white space. */
  predicate IsBlank(s: string): (b: bool)
    ensures b <==> forall i :: 0 <= i < |s| ==> IsWhiteSpace(s[i])
  {
    TrimSpec(s);
    TrimStartSpec(s);
    Trim(s) == []
  }

  /** A string with no white space at either end is its own trimmed form. */
  lemma TrimUnchanged(s: string)
    requires s != [] && !IsWhiteSpace(s[0]) && !IsWhiteSpace(s[|s| - 1])
    ensures Trim(s) == s
  {
    assert TrimStart(s) == s;
    assert TrimEnd(s) == s;
  }

  /** Lower-casing of one ASCII letter; every other character is unchanged. */
  function LowerChar(c: char): char {
    if 'A' <= c <= 'Z' then (c as int + 32) as char else c
  }

  /** Upper-casing of one ASCII letter; every other character is unchanged. */
  function UpperChar(c: char): char {
    if 'a' <= c <= 'z' then (c as int - 32) as char else c
  }

  /** String.prototype.toLowerCase on ASCII text. */
  function Lower(s: string): (r: string)
    ensures |r| == |s|
    ensures forall i :: 0 <= i < |s| ==> !('A' <= r[i] <= 'Z')
  {
    seq(|s|, i requires 0 <= i < |s| => LowerChar(s[i]))
  }

  /** String.prototype.toUpperCase on ASCII text. */
  function Upper(s: string): (r: string)
    ensures |r| == |s|
    ensures forall i :: 0 <= i < |s| ==> !('a' <= r[i] <= 'z')
  {
    seq(|s|, i requires 0 <= i < |s| => UpperChar(s[i]))
  }

  /** Changing the case of a string's letters does not change its lower-case form. */
  lemma LowerOfUpper(s: string)
    ensures Lower(Upper(s)) == Lower(s)
  {
    forall i | 0 <= i < |s|
      ensures Lower(Upper(s))[i] == Lower(s)[i]
    {
      assert LowerChar(UpperChar(s[i])) == LowerChar(s[i]);
    }
  }

  /** Lower-casing twice is lower-casing once. */
  lemma LowerIdempotent(s: string)
    ensures Lower(Lower(s)) == Lower(s)
  {
    forall i | 0 <= i < |s|
      ensures Lower(Lower(s))[i] == Lower(s)[i]
    {
    }
  }

  /** `needle` occurs in `hay` starting at position `k`. */
  predicate OccursAt(hay: string, needle: string, k: int) {
    0 <= k <= |hay| - |needle| && hay[k..k + |needle|] == needle
  }

  /** String.prototype.includes: `needle` occurs in `hay` as a contiguous block.
      Only a needle no longer than the haystack can occur; the empty string and the
      haystack itself always do. */
  predicate Includes(hay: string, needle: string): (b: bool)
    ensures b ==> |needle| <= |hay|
    ensures needle == [] ==> b
    ensures needle == hay ==> b
  {
    assert needle == [] || needle == hay ==> OccursAt(hay, needle, 0);
    exists k :: 0 <= k <= |hay| - |needle| && OccursAt(hay, needle, k)
  }
}
