# Society visitor registration form, modelled in Dafny

The repository is one React component, `VisitorForm`, that registers visitors
to a residential building. It holds a four-field draft (full name, flat number,
purpose, mobile number). It validates the draft on submit. Each accepted
submission is stored, newest first, in a history that the browser keeps under
one key.

The model has three modules:

- `JsText` (`js_text.dfy`) covers the two JavaScript string primitives the
  validator uses. The first is `String.prototype.trim`, built on the WhiteSpace
  and LineTerminator characters of ECMA-262 (sections 12.2 and 12.3). The second
  is `/^\d{10}$/.test`: `\d` is [0-9] in ECMAScript, and with no `m` flag `^`
  matches only at the start and `$` only at the end.
- `Validation` (`validation.dfy`) holds the fields, the draft, the stored record,
  the five messages, and `Validate`. `IsValidDraft` is a reference predicate
  written field by field, independent of the validator's code.
- `FormState` (`form_state.dfy`) models the component as a state machine. `Load`
  is the mount effect, `Change` is `handleChange` and `Submit` is `handleSubmit`.
  `Run` replays a sequence of user events. `SessionInv` is the invariant that
  every session keeps.

Modelling choices:

- React `setState` is plain assignment.
- The browser store is `Option<seq<Record>>`, and JSON encoding is taken as the
  identity.
- The submission time is an opaque string that the caller passes in.
- Field names are the four-variant `Field` type.

## Model

| member | source | states |
|---|---|---|
| JsText.IsWhitespace | src/components/VisitorForm.jsx:25 | the characters `trim` strips: the ECMAScript WhiteSpace and LineTerminator code points |
| JsText.TrimStart | src/components/VisitorForm.jsx:25-29 | the leading-whitespace strip of `trim` yields a suffix of the input that does not start with whitespace, and only whitespace was dropped |
| JsText.TrimEnd | src/components/VisitorForm.jsx:25-29 | the trailing-whitespace strip of `trim` yields a prefix that does not end with whitespace, and only whitespace was dropped |
| JsText.Trim | src/components/VisitorForm.jsx:25-30 | `trim()` returns a slice of its input with only whitespace outside it, and a non-empty result neither starts nor ends with whitespace |
| JsText.TrimEmptyIffBlank | src/components/VisitorForm.jsx:25-31 | `!s.trim()` holds exactly when every character of `s` is whitespace, including the empty string |
| JsText.MatchDigitsThenEnd | src/components/VisitorForm.jsx:39 | the `\d{n}$` matcher, anchored at the end of the input, only accepts strings of length n |
| JsText.MatchDigitsThenEndIff | src/components/VisitorForm.jsx:39 | `\d{n}$` matches exactly the strings of length n made only of ASCII digits |
| JsText.MobilePatternTest | src/components/VisitorForm.jsx:39 | `/^\d{10}$/.test(s)` succeeds if and only if `s` is exactly ten characters from '0' to '9' |
| Validation.Draft.Set | src/components/VisitorForm.jsx:49 | `{ ...prev, [name]: value }` gives the named field the new value and leaves the other three as they were |
| Validation.TrimsToEmpty | src/components/VisitorForm.jsx:25-31 | the name and flat-number check `!value.trim()` fires exactly when the value is whitespace only |
| Validation.EntryOf | src/components/VisitorForm.jsx:56-59 | the new entry carries the draft's four fields unchanged, plus the given timestamp |
| Validation.Validate | src/components/VisitorForm.jsx:22-45 | each of the four fields gets a message exactly when its own rule fails, and the message is that field's fixed text. Name and flat fail when blank after trimming. Purpose fails when it is the empty string. The mobile number fails when it is not ten digits, and the message is "required" when it is empty and "invalid" otherwise |
| Validation.ValidateEmptyIffValid | src/components/VisitorForm.jsx:22-44 | the validator reports no message (the form is accepted) if and only if the draft meets all four field rules |
| Validation.ValidateFieldsIndependent | src/components/VisitorForm.jsx:25-41 | the checks are independent: changing one field never changes whether another field has a message, or what that message says |
| Validation.MobileLeadingSpaceIsInvalid | src/components/VisitorForm.jsx:37-41 | the mobile number is not trimmed, so a value starting with a space is reported as malformed and never as missing |
| Validation.AnyPurposeAccepted | src/components/VisitorForm.jsx:33-35 | any non-empty purpose passes, not only the options the select offers |
| Validation.NameAndMobileRejected | src/components/VisitorForm.jsx:25-41 | an empty name plus a malformed non-empty number, with the other fields filled, gives exactly those two messages and nothing else |
| Validation.EmptyDraftAllRequired | src/components/VisitorForm.jsx:25-41 | the cleared form gets the "required" message on all four fields |
| Validation.ExampleAccepted | src/components/VisitorForm.jsx:22-45 | the draft ("A Singh", "12B", "Guest", "9876543210") is accepted |
| Validation.ExampleRejected | src/components/VisitorForm.jsx:22-45 | the draft ("", "12B", "Guest", "123") gets exactly the full-name and invalid-number messages |
| FormState.Load | src/components/VisitorForm.jsx:4-20 | startup gives an empty draft, no messages and no last submission. The history is empty when nothing is stored and is the stored list otherwise. The store is untouched |
| FormState.Change | src/components/VisitorForm.jsx:47-50 | an edit sets the named field to the value and leaves the other fields, the messages, the history, the last submission and the store unchanged |
| FormState.Submit | src/components/VisitorForm.jsx:52-72 | an invalid draft only puts the validator's (non-empty) messages on display, and everything else stays the same. A valid draft puts a new entry (the draft plus timestamp) at index 0, so the history grows by exactly one with the old history behind it. The store then holds the whole new history, the entry becomes the last submission, the messages are cleared and the draft resets to four empty strings |
| FormState.LoadEstablishesInv | src/components/VisitorForm.jsx:11-20 | right after startup, the history agrees with the store and nothing has been added to it |
| FormState.ChangePreservesInv | src/components/VisitorForm.jsx:47-50 | edits keep the session invariant |
| FormState.SubmitPreservesInv | src/components/VisitorForm.jsx:52-72 | submissions keep the session invariant. This includes the store holding exactly the history, the loaded list staying as its tail, and every record in front of it passing validation |
| FormState.RunPreservesInv | src/components/VisitorForm.jsx:47-72 | any sequence of edits and submissions keeps the session invariant |
| FormState.SessionGuarantees | src/components/VisitorForm.jsx:15-72 | for any start store and any event sequence, the history is the loaded list with only valid records put in front of it. With `ValidateEmptyIffValid`, this means every record the session adds passes `validate`, while loaded records are never checked. Provided storage writes never fail, a fresh load of the final store returns the history on display. The last submission heads the history |
| FormState.ChangeLastWriteWins | src/components/VisitorForm.jsx:47-50 | editing a field twice keeps only the second value |
| FormState.ChangesCommute | src/components/VisitorForm.jsx:47-50 | edits to two different fields can be applied in either order |
| FormState.RejectedSubmitIdempotent | src/components/VisitorForm.jsx:43-54 | resubmitting a rejected draft changes nothing more, whatever the timestamp |
| FormState.SubmitAfterAcceptRejected | src/components/VisitorForm.jsx:52-72 | submitting again right after an accepted submission is rejected with all four "required" messages, and the history does not grow |

Facts about the code that the model makes explicit:

- `validate` accepts any non-empty purpose (line 33), not only the four options of
  the select. `AnyPurposeAccepted` states this.
- Only records added by a submission in the current session are known to pass
  `validate`. Loaded records are never checked. `SessionGuarantees` states this.

## Left out

- Rendering and styling (lines 74-195), including the key-humanising regex
  (line 163) and `maxLength="10"` (line 140): they are presentation only, and the
  validator does not enforce them.
- `localStorage` access and `JSON.parse`/`JSON.stringify`: the store is the
  abstract value `Option<seq<Record>>`. So the model covers only two cases: no
  stored value, or valid JSON for an array of records with five string fields.
  The code behaves differently on other stored values, and none of these cases
  is modelled:
  - Text that is not valid JSON makes `JSON.parse` throw (line 18).
  - A stored empty string is treated as absent (line 17).
  - The JSON value `null` becomes the history, and the next render throws on
    `visitorHistory.length` (line 175).
  - A non-array, non-string value such as `{}` or `5` renders as an empty
    history, but the first accepted submission throws when it spreads it
    (line 61).
  - A non-empty JSON string makes the render throw when it calls `.map` on it
    (line 177).
  - Array elements with missing or non-string fields are loaded and displayed
    as they are. The exceptions are a `null` element and an object-valued
    field: both make the render throw (lines 179, 182).
- `localStorage.getItem`/`setItem` (lines 16, 63) are assumed never to throw.
  If `setItem` throws (a full quota, storage disabled), the new entry may be on
  display but not stored, and lines 64-71 are skipped. So the "store holds the
  history on display" parts of `SessionInv` and `SessionGuarantees` hold only
  under this assumption.
- `new Date().toLocaleString()` (line 58): it depends on the clock and the locale,
  so the timestamp is a parameter of `Submit`.
- React hook scheduling, batching and `useEffect` timing: the model treats every
  update as synchronous. It also does not model `e.preventDefault()` (line 53).
- `handleChange` with a name other than the four inputs: the controls never
  produce one, so `Field` has exactly four values.
- Strings are sequences of Unicode scalar values, not UTF-16 code units. Every
  character that `trim` and the mobile-number pattern inspect lies in the Basic
  Multilingual Plane, so the two views agree on these checks.
