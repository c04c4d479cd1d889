/** The contact record of the identity store, its field validators and the
    checks a record must pass before it is saved. */
module Contacts {

  datatype Option<T> = None | Some(value: T)

  datatype Result<T, E> = Ok(value: T) | Err(error: E)

  datatype Precedence = Primary | Secondary

  /** One stored contact. Timestamps are Unix seconds; `None` stands for a
      field that is null or absent. */
  datatype Contact = Contact(
    id: int,
    phoneNumber: Option<string>,
    email: Option<string>,
    linkedId: Option<int>,
    linkPrecedence: Precedence,
    createdAt: int,
    updatedAt: int,
    deletedAt: Option<int>)

  /** A document about to be inserted: the id and the timestamps may still be
      missing and are filled in by the model's hooks. */
  datatype Draft = Draft(
    id: Option<int>,
    phoneNumber: Option<string>,
    email: Option<string>,
    linkedId: Option<int>,
    linkPrecedence: Precedence,
    createdAt: Option<int>,
    updatedAt: Option<int>,
    deletedAt: Option<int>)

  /** JavaScript truthiness of an optional string: present and not "". */
  predicate Given(v: Option<string>) {
    v.Some? && v.value != ""
  }

  /** JavaScript truthiness of an optional number: present and not 0. */
  predicate Truthy(v: Option<int>) {
    v.Some? && v.value != 0
  }

  /** A contact is active (not soft-deleted) while its deletedAt is null. */
  predicate Active(c: Contact) {
    c.deletedAt.None?
  }

  /** The characters of the `\s` class of JavaScript regular expressions. */
  predicate IsWhitespace(ch: char) {
    ch == ' ' || ch == '\t' || ch == '\n' || ch == '\r' || ch == '\U{B}' || ch == '\U{C}'
    || ch == '\U{A0}' || ch == '\U{1680}' || ('\U{2000}' <= ch <= '\U{200A}')
    || ch == '\U{2028}' || ch == '\U{2029}' || ch == '\U{202F}' || ch == '\U{205F}'
    || ch == '\U{3000}' || ch == '\U{FEFF}'
  }

  /** The alphabet of phone numbers: ASCII digits, `+`, `-`, `(`, `)` and whitespace. */
  predicate IsPhoneChar(ch: char) {
    ('0' <= ch <= '9') || ch == '+' || ch == '-' || ch == '(' || ch == ')' || IsWhitespace(ch)
  }

  function AllPhoneChars(s: string): (ok: bool)
    ensures ok <==> forall i :: 0 <= i < |s| ==> IsPhoneChar(s[i])
  {
    |s| == 0 || (IsPhoneChar(s[0]) && AllPhoneChars(s[1..]))
  }

  /** The phone validator: null passes, a string passes when it is non-empty
      and made only of phone characters. */
  function ValidPhone(v: Option<string>): (ok: bool)
    ensures ok <==> v.None? || (|v.value| > 0 && forall i :: 0 <= i < |v.value| ==> IsPhoneChar(v.value[i]))
  {
    v.None? || (|v.value| > 0 && AllPhoneChars(v.value))
  }

  function NoWhitespace(s: string): (ok: bool)
    ensures ok <==> forall i :: 0 <= i < |s| ==> !IsWhitespace(s[i])
  {
    |s| == 0 || (!IsWhitespace(s[0]) && NoWhitespace(s[1..]))
  }

  /** Position of the first occurrence of `x` in `s`. */
  function IndexOf<T(==)>(s: seq<T>, x: T): (k: nat)
    requires x in s
    ensures k < |s| && s[k] == x && x !in s[..k]
  {
    if s[0] == x then 0 else 1 + IndexOf(s[1..], x)
  }

  /** The shape the email pattern accepts, stated by positions: one `@` at
      `at`, a `.` at `dot` further right, non-empty text before the `@`,
      between the two and after the `.`, and no other `@` and no whitespace
      anywhere. */
  ghost predicate EmailPattern(s: string) {
    exists at, dot :: 0 < at && at + 1 < dot && dot + 1 < |s| && s[at] == '@' && s[dot] == '.'
      && forall k :: 0 <= k < |s| && k != at ==> s[k] != '@' && !IsWhitespace(s[k])
  }

  /** The email check, read off the character classes of its pattern:
      exactly one `@`, no whitespace, a non-empty local part, and a `.` with
      text on both sides inside the part after the `@`. */
  predicate EmailText(s: string) {
    NoWhitespace(s) && '@' in s &&
    var at := IndexOf(s, '@');
    var domain := s[at + 1..];
    0 < at && '@' !in domain && |domain| >= 3 && '.' in domain[1..|domain| - 1]
  }

  lemma EmailTextIsPattern(s: string)
    ensures EmailText(s) <==> EmailPattern(s)
  {
    if EmailText(s) {
      var at := IndexOf(s, '@');
      var domain := s[at + 1..];
      var inner := domain[1..|domain| - 1];
      var d := IndexOf(inner, '.');
      var dot := at + 2 + d;
      assert s[dot] == inner[d];
      forall k | 0 <= k < |s| && k != at
        ensures s[k] != '@' && !IsWhitespace(s[k])
      {
        if k < at {
          assert s[k] in s[..at];
        } else {
          assert s[k] == domain[k - at - 1];
        }
      }
      assert 0 < at && at + 1 < dot && dot + 1 < |s| && s[at] == '@' && s[dot] == '.';
    }
    if EmailPattern(s) {
      var at, dot :| 0 < at && at + 1 < dot && dot + 1 < |s| && s[at] == '@' && s[dot] == '.'
        && forall k :: 0 <= k < |s| && k != at ==> s[k] != '@' && !IsWhitespace(s[k]);
      assert '@' in s by { assert s[at] == '@'; }
      var first := IndexOf(s, '@');
      assert first == at;
      var domain := s[at + 1..];
      assert '@' !in domain by {
        forall k | 0 <= k < |domain| ensures domain[k] != '@' {
          assert domain[k] == s[at + 1 + k];
        }
      }
      assert domain[1..|domain| - 1][dot - at - 2] == '.';
    }
  }

  /** The email validator: null passes, a string passes when it has the email shape. */
  predicate ValidEmail(v: Option<string>) {
    v.None? || EmailText(v.value)
  }

  /** What the validation phase reports; all of them are collected together. */
  datatype Violation =
    | MissingPhoneAndEmail
    | InvalidPhone
    | InvalidEmail
    | IdBelowOne
    | LinkedToSelf
    | DeletedBeforeCreated

  /** Why a save is refused: the validation phase, one of the two link
      checks of the pre-save hook, or the unique index on `id`. */
  datatype SaveError =
    | ValidationError(violations: set<Violation>)
    | SecondaryWithoutLinkedId
    | PrimaryWithLinkedId
    | DuplicateId

  /** The validation phase: the "phone or email" check of the pre-validate
      hook together with the field validators. */
  function Violations(c: Contact): set<Violation> {
    (if !Given(c.phoneNumber) && !Given(c.email) then {MissingPhoneAndEmail} else {})
    + (if !ValidPhone(c.phoneNumber) then {InvalidPhone} else {})
    + (if !ValidEmail(c.email) then {InvalidEmail} else {})
    + (if c.id < 1 then {IdBelowOne} else {})
    + (if c.linkedId == Some(c.id) then {LinkedToSelf} else {})
    + (if c.deletedAt.Some? && c.deletedAt.value < c.createdAt then {DeletedBeforeCreated} else {})
  }

  /** The record invariant every stored contact satisfies. */
  ghost predicate WellFormed(c: Contact) {
    && (Given(c.phoneNumber) || Given(c.email))
    && ValidPhone(c.phoneNumber)
    && ValidEmail(c.email)
    && c.id >= 1
    && (c.linkedId.None? || c.linkedId.value != c.id)
    && (c.deletedAt.None? || c.deletedAt.value >= c.createdAt)
    && (c.linkPrecedence == Secondary <==> Truthy(c.linkedId))
  }

  /** Validation followed by the link checks of the pre-save hook: `None`
      when the record may be written. */
  function SaveCheck(c: Contact): (e: Option<SaveError>)
    ensures e.None? <==> WellFormed(c)
    ensures !Given(c.phoneNumber) && !Given(c.email) ==>
              e.Some? && e.value.ValidationError? && MissingPhoneAndEmail in e.value.violations
    ensures c.linkPrecedence == Secondary && !Truthy(c.linkedId) ==> e.Some?
    ensures c.linkPrecedence == Primary && Truthy(c.linkedId) ==> e.Some?
  {
    var v := Violations(c);
    if v != {} then Some(ValidationError(v))
    else if c.linkPrecedence == Secondary && !Truthy(c.linkedId) then Some(SecondaryWithoutLinkedId)
    else if c.linkPrecedence == Primary && Truthy(c.linkedId) then Some(PrimaryWithLinkedId)
    else None
  }

  /** The id test of the hooks: a document gets an id when it has none or 0. */
  predicate NeedsId(id: Option<int>) {
    !Truthy(id)
  }

  /** The record a draft becomes on its first save at time `now`, with
      `nextId` the id the pre-validate hook would choose: the id is kept when
      the draft has one, createdAt defaults to `now`, and the pre-save hook
      sets updatedAt to `now`. */
  function Materialise(d: Draft, nextId: int, now: int): Contact {
    Contact(
      if NeedsId(d.id) then nextId else d.id.value,
      d.phoneNumber, d.email, d.linkedId, d.linkPrecedence,
      if d.createdAt.Some? then d.createdAt.value else now,
      now,
      d.deletedAt)
  }
}
