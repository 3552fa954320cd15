/**
 * `validateField` of pages/EditProfile.jsx, with its four regular
 * expressions written out as character predicates.
 */
module Validation {
  import opened Wrappers
  import opened Digits

  const InvalidEmail := "Invalid email address"
  const DigitsOnly := "Digits only"
  const BadPhoneLength := "8-15 digits"
  const Required := "Required"
  const InvalidUpi := "Invalid UPI ID format"

  /**
   * JavaScript's white space (`\s` in a regular expression, what `trim`
   * removes): the WhiteSpace and LineTerminator characters of ECMAScript.
   */
  predicate IsJsSpace(c: char) {
    || c == '\t' || c == '\n' || c == '\U{000B}' || c == '\U{000C}' || c == '\r' || c == ' '
    || c == '\U{00A0}' || c == '\U{1680}' || ('\U{2000}' <= c <= '\U{200A}')
    || c == '\U{2028}' || c == '\U{2029}' || c == '\U{202F}' || c == '\U{205F}'
    || c == '\U{3000}' || c == '\U{FEFF}'
  }

  predicate AllSpace(s: string) {
    forall i :: 0 <= i < |s| ==> IsJsSpace(s[i])
  }

  /** `s.trimStart()`. */
  function TrimStart(s: string): (r: string)
    ensures |r| <= |s|
    ensures r == [] <==> AllSpace(s)
    ensures r != [] ==> !IsJsSpace(r[0])
  {
    if s != [] && IsJsSpace(s[0]) then TrimStart(s[1..]) else s
  }

  /** `s.trimEnd()`. */
  function TrimEnd(s: string): (r: string)
    ensures |r| <= |s|
    ensures r == [] <==> AllSpace(s)
    ensures r != [] ==> r[0] == s[0]
  {
    if s != [] && IsJsSpace(s[|s| - 1]) then TrimEnd(s[..|s| - 1]) else s
  }

  /** `s.trim()`. */
  function Trim(s: string): (r: string)
    ensures r == [] <==> AllSpace(s)
  {
    TrimEnd(TrimStart(s))
  }

  /** The position of the first '@'. */
  function IndexOfAt(s: string): (i: nat)
    requires '@' in s
    ensures i < |s| && s[i] == '@' && '@' !in s[..i]
  {
    if s[0] == '@' then 0 else
      var j := IndexOfAt(s[1..]);
      assert s[..j + 1] == [s[0]] + s[1..][..j];
      j + 1
  }

  // ---------------------------------------------------------------------------
  // E-mail: /^[^\s@]+@[^\s@]+\.[^\s@]+$/

  /** `[^\s@]`. */
  predicate IsEmailChar(c: char) {
    !IsJsSpace(c) && c != '@'
  }

  predicate AllEmailChars(s: string) {
    forall i :: 0 <= i < |s| ==> IsEmailChar(s[i])
  }

  /**
   * The e-mail pattern as a scan: a non-empty part before the only '@', then a
   * domain free of white space and '@' with a '.' that is neither its first
   * nor its last character.
   */
  predicate IsEmailAddress(s: string) {
    '@' in s &&
    var i := IndexOfAt(s);
    var local, domain := s[..i], s[i + 1..];
    && |local| > 0 && AllEmailChars(local)
    && AllEmailChars(domain) && |domain| >= 3 && '.' in domain[1..|domain| - 1]
  }

  /** s is a@b.c with a, b, c non-empty and free of white space and '@'. */
  ghost predicate EmailParts(s: string, a: string, b: string, c: string) {
    && s == a + "@" + b + "." + c
    && |a| > 0 && |b| > 0 && |c| > 0
    && AllEmailChars(a) && AllEmailChars(b) && AllEmailChars(c)
  }

  /** An address the scan accepts splits as a@b.c. */
  lemma EmailScanSplits(s: string)
    requires IsEmailAddress(s)
    ensures exists a, b, c :: EmailParts(s, a, b, c)
  {
    var a, b, c := EmailScanParts(s);
  }

  /** The three parts of an address the scan accepts. */
  lemma EmailScanParts(s: string) returns (a: string, b: string, c: string)
    requires IsEmailAddress(s)
    ensures EmailParts(s, a, b, c)
  {
    var i := IndexOfAt(s);
    var domain := s[i + 1..];
    assert |s[..i]| > 0 && AllEmailChars(s[..i]);
    assert AllEmailChars(domain) && |domain| >= 3;
    var inner := domain[1..|domain| - 1];
    assert '.' in inner;
    var j :| 0 <= j < |inner| && inner[j] == '.';
    a, b, c := s[..i], domain[..j + 1], domain[j + 2..];
    EmailCharsSlice(domain, 0, j + 1);
    EmailCharsSlice(domain, j + 2, |domain|);
    assert s == a + "@" + b + "." + c by {
      assert s == a + [s[i]] + domain;
      assert domain == b + [domain[j + 1]] + c;
    }
  }

  lemma EmailCharsSlice(s: string, lo: nat, hi: nat)
    requires lo <= hi <= |s| && AllEmailChars(s)
    ensures AllEmailChars(s[lo..hi])
  {
  }

  /** Every a@b.c passes the scan. */
  lemma EmailPartsScan(s: string, a: string, b: string, c: string)
    requires EmailParts(s, a, b, c)
    ensures IsEmailAddress(s)
  {
    assert s[|a|] == '@';
    assert s[..|a|] == a;
    var i := IndexOfAt(s);
    assert i == |a|;
    var domain := s[i + 1..];
    assert domain == b + "." + c;
    assert domain[1..|domain| - 1][|b| - 1] == '.';
  }

  /** The scan accepts exactly the strings of the form a@b.c. */
  lemma EmailAddressShape(s: string)
    ensures IsEmailAddress(s) <==> exists a, b, c :: EmailParts(s, a, b, c)
  {
    if IsEmailAddress(s) {
      EmailScanSplits(s);
    }
    if exists a, b, c :: EmailParts(s, a, b, c) {
      var a, b, c :| EmailParts(s, a, b, c);
      EmailPartsScan(s, a, b, c);
    }
  }

  // ---------------------------------------------------------------------------
  // UPI ID: /^[\w.-]+@[\w.-]+$/

  /** `[\w.-]`: an ASCII letter, digit, '_', '.' or '-'. */
  predicate IsUpiChar(c: char) {
    || 'A' <= c <= 'Z' || 'a' <= c <= 'z' || '0' <= c <= '9'
    || c == '_' || c == '.' || c == '-'
  }

  predicate AllUpiChars(s: string) {
    forall i :: 0 <= i < |s| ==> IsUpiChar(s[i])
  }

  /** The UPI pattern as a scan: non-empty UPI characters on both sides of the first '@'. */
  predicate IsUpiId(s: string) {
    '@' in s &&
    var i := IndexOfAt(s);
    0 < i < |s| - 1 && AllUpiChars(s[..i]) && AllUpiChars(s[i + 1..])
  }

  /** s is x@y with x, y non-empty strings of UPI characters. */
  ghost predicate UpiParts(s: string, x: string, y: string) {
    s == x + "@" + y && |x| > 0 && |y| > 0 && AllUpiChars(x) && AllUpiChars(y)
  }

  /** The scan accepts exactly the strings of the form x@y. */
  lemma {:induction false} UpiIdShape(s: string)
    ensures IsUpiId(s) <==> exists x, y :: UpiParts(s, x, y)
  {
    if IsUpiId(s) {
      var i := IndexOfAt(s);
      assert s == s[..i] + "@" + s[i + 1..];
      assert UpiParts(s, s[..i], s[i + 1..]);
    }
    if exists x, y :: UpiParts(s, x, y) {
      var x, y :| UpiParts(s, x, y);
      assert s[|x|] == '@';
      assert s[..|x|] == x;
      var i := IndexOfAt(s);
      assert i == |x|;
      assert s[i + 1..] == y;
    }
  }

  // ---------------------------------------------------------------------------
  // validateField

  /**
   * `validateField(field, value)`: the error message for a profile field, or
   * "" when the value passes (None stands for null and undefined).
   */
  function ValidateField(field: string, value: Option<string>): (error: string)
    ensures value.None? ==> error == ""
    ensures field !in {"email", "phone", "name", "upiId"} ==> error == ""
    ensures field == "email" && value.Some? ==>
              && (error == "" || error == InvalidEmail)
              && (error == InvalidEmail <==> value.value != "" && !IsEmailAddress(value.value))
    ensures field == "phone" && value.Some? ==>
              && (error == DigitsOnly <==> value.value != "" && !AllDigits(value.value))
              && (error == BadPhoneLength <==>
                    value.value != "" && AllDigits(value.value) && !(8 <= |value.value| <= 15))
              && (error == "" <==> value.value == "" || (AllDigits(value.value) && 8 <= |value.value| <= 15))
    ensures field == "name" && value.Some? ==>
              && (error == "" || error == Required)
              && (error == Required <==> AllSpace(value.value))
    ensures field == "upiId" && value.Some? ==>
              && (error == "" || error == InvalidUpi)
              && (error == InvalidUpi <==> value.value != "" && !IsUpiId(value.value))
  {
    if value.None? then ""
    else
      var v := value.value;
      if field == "email" && v != "" && !IsEmailAddress(v) then InvalidEmail
      else if field == "phone" && v != "" && !AllDigits(v) then DigitsOnly
      else if field == "phone" && v != "" && (|v| < 8 || |v| > 15) then BadPhoneLength
      else if field == "name" && Trim(v) == "" then Required
      else if field == "upiId" && v != "" && !IsUpiId(v) then InvalidUpi
      else ""
  }
}
