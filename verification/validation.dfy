/**
 The visitor form's fields, its draft, the records it stores, and the
 validator that maps a draft to per-field error messages.
 */
module Validation {
  import opened JsText

  /** The four inputs of the form (the `name` attributes of its controls). */
  datatype Field = FullName | FlatNumber | Purpose | MobileNumber

  /** The values currently typed into the form. */
  datatype Draft = Draft(fullName: string, flatNumber: string, purpose: string, mobileNumber: string)
  {
    function Get(f: Field): string {
      match f
      case FullName => fullName
      case FlatNumber => flatNumber
      case Purpose => purpose
      case MobileNumber => mobileNumber
    }

    /** `{ ...draft, [f]: v }`: field `f` becomes `v`, no other field moves. */
    function Set(f: Field, v: string): (d: Draft)
      ensures d.Get(f) == v
      ensures forall g :: g != f ==> d.Get(g) == Get(g)
    {
      match f
      case FullName => this.(fullName := v)
      case FlatNumber => this.(flatNumber := v)
      case Purpose => this.(purpose := v)
      case MobileNumber => this.(mobileNumber := v)
    }
  }

  /** The draft the form starts with and is reset to: four empty strings. */
  const EmptyDraft := Draft("", "", "", "")

  /** One stored visitor entry: the draft's fields plus the submission time,
      kept as the opaque locale-formatted string the form produced. */
  datatype Record = Record(fullName: string, flatNumber: string, purpose: string,
                           mobileNumber: string, timestamp: string)

  /** `{ ...draft, timestamp }`: the record carries the draft's four fields
      unchanged, plus the timestamp. */
  function EntryOf(d: Draft, timestamp: string): (r: Record)
    ensures DraftOf(r) == d && r.timestamp == timestamp
  {
    Record(d.fullName, d.flatNumber, d.purpose, d.mobileNumber, timestamp)
  }

  /** The four form fields of a record, without its timestamp. */
  function DraftOf(r: Record): Draft {
    Draft(r.fullName, r.flatNumber, r.purpose, r.mobileNumber)
  }

  type Errors = map<Field, string>

  const FullNameRequired := "Full name is required."
  const FlatNumberRequired := "Flat number is required."
  const PurposeRequired := "Please select a purpose."
  const MobileRequired := "Mobile number is required."
  const MobileInvalid := "Enter a valid 10-digit number."

  /** The reference meaning of an acceptable draft, stated field by field
      without reference to the validator's code. */
  predicate IsValidDraft(d: Draft) {
    && !Blank(d.fullName)
    && !Blank(d.flatNumber)
    && d.purpose != ""
    && IsTenDigits(d.mobileNumber)
  }

  /** `!s.trim()`, the check on the name and the flat number: true exactly
      when `s` is whitespace only. */
  predicate TrimsToEmpty(s: string)
    ensures TrimsToEmpty(s) <==> Blank(s)
  {
    TrimEmptyIffBlank(s);
    Trim(s) == ""
  }

  /** The form's `validate`: four independent checks, each adding at most
      one entry for its own field. The mobile number is not trimmed, and
      its two checks exclude each other. */
  function Validate(d: Draft): (errs: Errors)
    ensures FullName in errs <==> Blank(d.fullName)
    ensures FullName in errs ==> errs[FullName] == FullNameRequired
    ensures FlatNumber in errs <==> Blank(d.flatNumber)
    ensures FlatNumber in errs ==> errs[FlatNumber] == FlatNumberRequired
    ensures Purpose in errs <==> d.purpose == ""
    ensures Purpose in errs ==> errs[Purpose] == PurposeRequired
    ensures MobileNumber in errs <==> !IsTenDigits(d.mobileNumber)
    ensures MobileNumber in errs && d.mobileNumber == "" ==> errs[MobileNumber] == MobileRequired
    ensures MobileNumber in errs && d.mobileNumber != "" ==> errs[MobileNumber] == MobileInvalid
  {
    var e0: Errors := map[];
    var e1 := if TrimsToEmpty(d.fullName) then e0[FullName := FullNameRequired] else e0;
    var e2 := if TrimsToEmpty(d.flatNumber) then e1[FlatNumber := FlatNumberRequired] else e1;
    var e3 := if d.purpose == "" then e2[Purpose := PurposeRequired] else e2;
    if d.mobileNumber == "" then e3[MobileNumber := MobileRequired]
    else if !MobilePatternTest(d.mobileNumber) then e3[MobileNumber := MobileInvalid]
    else e3
  }

  /** The form is accepted (`validate()` returns true) exactly when the
      draft is valid field by field. */
  lemma ValidateEmptyIffValid(d: Draft)
    ensures Validate(d) == map[] <==> IsValidDraft(d)
  {
  }

  /** Each field's check looks at that field alone: changing one field leaves
      the other fields' verdicts and messages as they were. */
  lemma ValidateFieldsIndependent(d: Draft, f: Field, v: string, g: Field)
    requires g != f
    ensures g in Validate(d.Set(f, v)) <==> g in Validate(d)
    ensures g in Validate(d) ==> Validate(d.Set(f, v))[g] == Validate(d)[g]
  {
  }

  /** A mobile number is not trimmed: a value that begins with a space is
      reported as malformed, never as missing. */
  lemma MobileLeadingSpaceIsInvalid(d: Draft)
    requires |d.mobileNumber| > 0 && d.mobileNumber[0] == ' '
    ensures MobileNumber in Validate(d)
    ensures Validate(d)[MobileNumber] == MobileInvalid
  {
  }

  /** Any non-empty purpose passes: the validator does not restrict it to
      the options the select control offers. */
  lemma AnyPurposeAccepted(d: Draft, p: string)
    requires IsValidDraft(d) && p != ""
    ensures Validate(d.Set(Purpose, p)) == map[]
  {
  }

  /** A draft with an empty name and a malformed, non-empty mobile number
      but the other two fields filled gets exactly the two messages for
      those fields. */
  lemma NameAndMobileRejected(d: Draft)
    requires d.fullName == "" && !Blank(d.flatNumber) && d.purpose != ""
    requires d.mobileNumber != "" && !IsTenDigits(d.mobileNumber)
    ensures Validate(d) == map[FullName := FullNameRequired, MobileNumber := MobileInvalid]
  {
  }

  /** The cleared form gets the "required" message on every field. */
  lemma EmptyDraftAllRequired(d: Draft)
    requires d == EmptyDraft
    ensures Validate(d) == map[FullName := FullNameRequired, FlatNumber := FlatNumberRequired,
                               Purpose := PurposeRequired, MobileNumber := MobileRequired]
  {
  }

  /** The accepted example draft: a name, a flat, a purpose and ten digits. */
  lemma ExampleAccepted(d: Draft)
    requires d == Draft("A Singh", "12B", "Guest", "9876543210")
    ensures Validate(d) == map[]
  {
    assert !Blank(d.fullName) by { assert !IsWhitespace(d.fullName[0]); }
    assert !Blank(d.flatNumber) by { assert !IsWhitespace(d.flatNumber[0]); }
    assert IsTenDigits(d.mobileNumber) by {
      forall i | 0 <= i < |d.mobileNumber| ensures IsAsciiDigit(d.mobileNumber[i]) { }
    }
    ValidateEmptyIffValid(d);
  }

  /** The rejected example draft: an empty name and the number "123". */
  lemma ExampleRejected(d: Draft)
    requires d == Draft("", "12B", "Guest", "123")
    ensures Validate(d) == map[FullName := FullNameRequired, MobileNumber := MobileInvalid]
  {
    assert !IsWhitespace(d.flatNumber[0]);
    NameAndMobileRejected(d);
  }
}
