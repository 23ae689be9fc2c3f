/** The intake form's field validators (src/app/page.tsx). Each returns the empty string
    when the field is acceptable and the message shown under the field otherwise. */
module Validation {
  import opened Text

  const NameRequired := "Name is required"
  const NameTooShort := "Name must be at least 2 characters"
  const PhoneRequired := "Phone number is required"
  const PhoneInvalid := "Please enter a valid phone number"
  const AddressRequired := "Property address is required"
  const AddressIncomplete := "Please enter a complete address"
  const IssueRequired := "Issue description is required"
  const IssueTooShort := "Please provide more details about the issue (at least 10 characters)"

  /** One entry per form field; `""` means no error. */
  datatype FieldErrors = FieldErrors(name: string, phone: string, address: string, issue: string)

  const NoErrors := FieldErrors("", "", "", "")

  function ValidateName(value: string): (r: string)
    ensures r == "" <==> Utf16Length(Trim(value)) >= 2
    ensures r == NameRequired <==> AllWhitespace(value)
    ensures !AllWhitespace(value) && Utf16Length(Trim(value)) < 2 ==> r == NameTooShort
  {
    TrimEmptyIffAllWhitespace(value);
    if Trim(value) == "" then NameRequired
    else if Utf16Length(Trim(value)) < 2 then NameTooShort
    else ""
  }

  /** A character of the class `[0-9\s\-\(\)]`. */
  predicate IsPhoneChar(c: char) {
    ('0' <= c <= '9') || IsWhitespace(c) || c == '-' || c == '(' || c == ')'
  }

  predicate AllPhoneChars(s: string) {
    forall i :: 0 <= i < |s| ==> IsPhoneChar(s[i])
  }

  /** The language of `/^[\+]?[0-9\s\-\(\)]{10,}$/`, read off the pattern: an optional
      `+` (k = 0 or 1 characters), then ten or more characters of the class. Every class
      character lies below U+FFFF, so counting code points here counts code units. */
  ghost predicate MatchesPhonePattern(s: string) {
    exists k :: 0 <= k <= 1 && k <= |s| && (k == 1 ==> s[0] == '+')
                && |s| - k >= 10 && AllPhoneChars(s[k..])
  }

  /** The matcher: a leading `+` can only be the optional one, because `+` is not in
      the class. */
  predicate PhoneShaped(s: string) {
    if s != [] && s[0] == '+' then |s| >= 11 && AllPhoneChars(s[1..])
    else |s| >= 10 && AllPhoneChars(s)
  }

  lemma PhoneShapedIffPattern(s: string)
    ensures PhoneShaped(s) <==> MatchesPhonePattern(s)
  {
    if s != [] && s[0] == '+' {
      if MatchesPhonePattern(s) {
        var k :| 0 <= k <= 1 && k <= |s| && (k == 1 ==> s[0] == '+')
                 && |s| - k >= 10 && AllPhoneChars(s[k..]);
      }
      if PhoneShaped(s) { assert 0 <= 1 <= 1 && |s| - 1 >= 10 && AllPhoneChars(s[1..]); }
    } else {
      if MatchesPhonePattern(s) {
        var k :| 0 <= k <= 1 && k <= |s| && (k == 1 ==> s[0] == '+')
                 && |s| - k >= 10 && AllPhoneChars(s[k..]);
        assert k == 0;
      }
      if PhoneShaped(s) { assert s[0..] == s; }
    }
  }

  function ValidatePhone(value: string): (r: string)
    ensures r == "" <==> MatchesPhonePattern(Trim(value))
    ensures r == PhoneRequired <==> AllWhitespace(value)
    ensures !AllWhitespace(value) && !MatchesPhonePattern(Trim(value)) ==> r == PhoneInvalid
  {
    TrimEmptyIffAllWhitespace(value);
    PhoneShapedIffPattern(Trim(value));
    if Trim(value) == "" then PhoneRequired
    else if !PhoneShaped(Trim(value)) then PhoneInvalid
    else ""
  }

  function ValidateAddress(value: string): (r: string)
    ensures r == "" <==> Utf16Length(Trim(value)) >= 5
    ensures r == AddressRequired <==> AllWhitespace(value)
    ensures !AllWhitespace(value) && Utf16Length(Trim(value)) < 5 ==> r == AddressIncomplete
  {
    TrimEmptyIffAllWhitespace(value);
    if Trim(value) == "" then AddressRequired
    else if Utf16Length(Trim(value)) < 5 then AddressIncomplete
    else ""
  }

  function ValidateIssue(value: string): (r: string)
    ensures r == "" <==> Utf16Length(Trim(value)) >= 10
    ensures r == IssueRequired <==> AllWhitespace(value)
    ensures !AllWhitespace(value) && Utf16Length(Trim(value)) < 10 ==> r == IssueTooShort
  {
    TrimEmptyIffAllWhitespace(value);
    if Trim(value) == "" then IssueRequired
    else if Utf16Length(Trim(value)) < 10 then IssueTooShort
    else ""
  }

  /** The error record that `handleSubmit` stores before deciding whether to go on. */
  function ValidateAll(name: string, phone: string, address: string, issue: string): (r: FieldErrors)
    ensures r == NoErrors <==> IsFormValid(name, phone, address, issue)
  {
    FieldErrors(ValidateName(name), ValidatePhone(phone), ValidateAddress(address), ValidateIssue(issue))
  }

  /** `isFormValid`: every validator returns the empty message. */
  function IsFormValid(name: string, phone: string, address: string, issue: string): (r: bool)
    ensures r <==> Utf16Length(Trim(name)) >= 2 && MatchesPhonePattern(Trim(phone))
                   && Utf16Length(Trim(address)) >= 5 && Utf16Length(Trim(issue)) >= 10
  {
    ValidateName(name) == "" && ValidatePhone(phone) == ""
    && ValidateAddress(address) == "" && ValidateIssue(issue) == ""
  }

  /** The rejections listed for the validation gate: a one-character name, a five-digit
      phone number, a two-letter address and a six-character issue. */
  lemma ShortNameRejected()
    ensures ValidateName("A") == NameTooShort
  {
    KnownLength("A");
  }

  lemma ShortPhoneRejected()
    ensures ValidatePhone("12345") == PhoneInvalid
  {
    KnownLength("12345");
    ShortPhoneInvalid("12345");
  }

  lemma ShortAddressRejected()
    ensures ValidateAddress("Rd") == AddressIncomplete
  {
    KnownLength("Rd");
  }

  lemma ShortIssueRejected()
    ensures ValidateIssue("broken") == IssueTooShort
  {
    KnownLength("broken");
  }

  /** A phone number with something, but fewer than ten characters, left after trimming
      gets the "valid phone number" message. */
  lemma ShortPhoneInvalid(value: string)
    requires 0 < |Trim(value)| < 10
    ensures ValidatePhone(value) == PhoneInvalid
  {
    TrimEmptyIffAllWhitespace(value);
  }

  /** An ASCII string without surrounding whitespace trims to itself and has one code
      unit per character. */
  lemma KnownLength(s: string)
    requires s != [] && !IsWhitespace(s[0]) && !IsWhitespace(s[|s| - 1])
    requires forall i :: 0 <= i < |s| ==> s[i] as int < 0x80
    ensures Trim(s) == s && Utf16Length(Trim(s)) == |s|
  {
    TrimOfTrimmed(s);
  }
}
