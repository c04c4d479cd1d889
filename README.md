# Contact identity resolution, modelled in Dafny

This project models the core of a contact identity service. Customers reach
the service with an email, a phone number or both. The service keeps a store
of contact records and links records that belong to the same person. For
each person there is one *primary* contact; the others are *secondary*
contacts whose `linkedId` points at a primary.

The model has four modules:

- `contacts.dfy` (`Contacts`): the contact record and the draft a new record
  starts from. It holds the field validators (the phone alphabet, the email
  shape, no self link, deletion not before creation) and `SaveCheck`. That
  function combines the "phone or email" check of the pre-validate hook, the
  validators and the link checks of the pre-save hook.
- `store.dfy` (`ContactStore`): the queries of the contact model as
  functions over the stored sequence. They are the lookup by phone or email,
  the active listing, the hierarchy of a primary, and the fetch by ids sorted
  by creation time. The `Store` class holds the sequence of records and has
  these methods:
  - `Create`: the hooks and the unique index on `id`;
  - `AssignBulkIds`: the bulk-insert hook, which works in place on an array of drafts;
  - `SoftDelete` and `Restore`;
  - `Demote`: the single-record update that consolidation issues.
- `resolver.dfy` (`Resolver`): the identify endpoint and its helpers:
  - the breadth-first family discovery, a loop over a worklist with a
    processed set;
  - the choice of the oldest member;
  - the one-hop consolidation loop and the gap-fill;
  - the projection of a hierarchy into the response;
  - the hierarchy endpoint.

  `IdentifyContact` is an imperative method over the `Store`. It is proved
  equal to the specification function `IdentifyOutcome`. The lemmas about
  whole requests are stated on that function.
- `util.dfy` (`Util`): `isEmpty` over a datatype of JavaScript values, the
  table of return codes, and the success and failure envelopes.
  `sendSuccess` updates a `JsObject` in place.

Time is a parameter (`now`). It is in Unix seconds, as the source stores it.
An identify request takes one clock reading. That reading stands for every
clock read the request makes: the default `createdAt` when a document is
built, the pre-save `updatedAt` after the largest-id lookup, and the
`updatedAt` of each consolidation update. The bulk hook reads the clock once
per document, so it takes one clock reading per draft.

Ids are not kept in a counter. As in the source, the next id is the largest
stored id plus one, and deleted records count. The unique index on `id` is
modelled as the `DuplicateId` save error.

Status codes are modelled as the `Status()` of the reply datatypes, which
are `IdentifyReply` and `HierarchyReply`.

The response key is spelled `primaryContatctId` on the wire. The model calls
the field `primaryContactId`.

`sendSuccess` fills an empty `responseCode` with the `validSession` return
code. The code table has no such entry, so the property is set and stays
undefined. `SendSuccess` states this.

## Model

| member | source | states |
|---|---|---|
| Contacts.ValidPhone | src/api/models/User.js:17-23 | a missing phone passes; a given one passes exactly when it is non-empty and every character is a digit, `+`, `-`, `(`, `)` or whitespace |
| Contacts.EmailTextIsPattern | src/api/models/User.js:31-37 | the email check accepts exactly these strings: one `@` after a non-empty local part, a `.` with text on both sides after it, and no other `@` and no whitespace anywhere |
| Contacts.SaveCheck | src/api/models/User.js:104-187 | a record may be written exactly when it satisfies the record invariant. A record with neither phone nor email fails validation. A secondary without a truthy linkedId is refused, and so is a primary with one |
| ContactStore.MaxId | src/api/models/User.js:108-113 | the largest stored id, deleted records included; 0 for an empty store |
| ContactStore.NextId | src/api/models/User.js:113 | the next id is above every stored id and so is not taken; it is 1 in an empty store |
| ContactStore.NextIdPositive | src/api/models/User.js:11 | in a store of well-formed records the next id satisfies the id minimum of 1 |
| ContactStore.CreateAssignsId | src/api/models/User.js:104-145 | a record without an id gets the largest id plus one (1 in an empty store); one with an id keeps it. Creation succeeds exactly when the record is well formed and its id is free. The created record carries the draft's fields, with updatedAt set to now |
| ContactStore.AutoIncrementId | src/api/models/User.js:129-137 | a document without a truthy id gets the next id; any other document is unchanged |
| ContactStore.AutoIncrementAgreesWithHook | src/api/models/User.js:129-137 | numbering a document in advance and then creating it has the same outcome as letting the pre-validate hook number it |
| ContactStore.BulkIdsFreshAndOrdered | src/api/models/User.js:148-174 | in the bulk hook, documents with an id keep it. The others get maxId+1, maxId+2, … in array order, so these ids are above every stored id and strictly increasing |
| ContactStore.Store.AssignBulkIds | src/api/models/User.js:148-174 | the in-place loop leaves each document equal to its bulk entry: the id if missing, then createdAt and updatedAt if missing, from that document's clock reading |
| ContactStore.Store.Create | src/api/models/User.js:104-145 | an insert has the outcome `CreateOutcome` predicts; it appends the record on success, leaves the store unchanged on failure, and keeps the store invariant |
| ContactStore.Store.SoftDelete | src/api/models/User.js:190-194 | sets deletedAt and updatedAt to now and saves. The save succeeds exactly when now is not before createdAt, and then the record is hidden from the active listing. No other record changes |
| ContactStore.Store.Restore | src/api/models/User.js:197-201 | clears deletedAt and sets updatedAt; it always succeeds, and the record is active again. No other record changes |
| ContactStore.FindActive | src/api/models/User.js:209-211 | lists exactly the stored records that are not soft-deleted |
| ContactStore.DeletedIffHidden | src/api/models/User.js:204-206 | a stored record is deleted exactly when the active listing hides it |
| ContactStore.FindByContact | src/api/models/User.js:214-228 | returns exactly the active records whose phone equals the given phone or whose email equals the given email. Only truthy arguments take part, and when neither is given it returns nothing |
| ContactStore.SortByCreated | src/api/models/User.js:244 | the result is sorted by createdAt ascending and is a permutation of its input |
| ContactStore.FindByIds | src/api/controller/user/UserController.js:137-140 | returns exactly the active records whose id is in the set, each as often as stored, sorted by createdAt ascending |
| ContactStore.GetContactHierarchy | src/api/models/User.js:231-251 | the result is none unless an active primary has the id. Otherwise it holds that primary and exactly the active secondaries linked to the id, sorted by createdAt, and `all` is the primary followed by them |
| ContactStore.Store.Demote | src/api/controller/user/UserController.js:50-58 | the one record with the id becomes a secondary linked to the target, with updatedAt bumped. Every other record is unchanged and the store invariant holds |
| Resolver.Linked | src/api/controller/user/UserController.js:23-30 | the lookup finds exactly the active records that link to the contact, or, when the contact has a linkedId, the record it links to and the records sharing its linkedId |
| Resolver.EnqueueUnprocessed | src/api/controller/user/UserController.js:33-38 | the linked records whose ids are not processed join the end of the queue in lookup order, and their ids join the related set |
| Resolver.DiscoverFamily | src/api/controller/user/UserController.js:7-42 | the worklist loop terminates. Its result is the family of the matches: it contains them, holds only active ids, is closed under the lookup, and lies inside every closed set that contains them. Through the processed set, the links of each family member are looked up exactly once, and no other id is looked up |
| Resolver.FamilyUnique | src/api/controller/user/UserController.js:7-42 | the family of a set of matches is determined by the store |
| Resolver.OldestIsFirstMinimal | src/api/controller/user/UserController.js:143-145 | the reduce with strict `<` returns the first member of minimal createdAt |
| Resolver.OldestOfSortedIsHead | src/api/controller/user/UserController.js:137-145 | over the members sorted by createdAt, the designated primary is the first member |
| Resolver.Consolidate | src/api/controller/user/UserController.js:44-64 | the loop demotes exactly the members that are primary and are not the designated one, all under the designated id, and keeps the store invariant |
| Resolver.ConsolidationChangesExactly | src/api/controller/user/UserController.js:47-60 | a stored record changes exactly when it is a member, primary and not designated. It then becomes a secondary of the designated primary. Every other record keeps every field |
| Resolver.Dedup | src/api/controller/user/UserController.js:76-80 | the result holds each input value once and nothing else |
| Resolver.DedupKeepsFirstOccurrenceOrder | src/api/controller/user/UserController.js:76-86 | values keep the order of their first occurrence in the input |
| Resolver.GivenValues | src/api/controller/user/UserController.js:79 | the filter keeps exactly the present, non-empty values, and a given first value stays first |
| Resolver.GivenValuesConcat | src/api/controller/user/UserController.js:79 | the filter keeps the input order: filtering two lists joined is joining their filtered lists |
| Resolver.DistinctGivenSpec | src/api/controller/user/UserController.js:76-86 | the distinct non-empty values have no duplicates, are exactly the non-empty values present, keep first-occurrence order, and start with the first value when it is given |
| Resolver.ResponseShape | src/api/controller/user/UserController.js:66-98 | a response exists exactly when the hierarchy does. It names the primary, and its secondary ids are those of the hierarchy's secondaries, in their order |
| Resolver.ResponseEmails | src/api/controller/user/UserController.js:73-80 | the emails have no duplicates and are exactly the non-empty emails of the hierarchy. They are in first-occurrence order over the primary followed by its secondaries, so the primary's email comes first |
| Resolver.ResponsePhones | src/api/controller/user/UserController.js:82-86 | the same for the phone numbers |
| Resolver.IdentifyContact | src/api/controller/user/UserController.js:101-174 | the endpoint's new store and reply are those of `IdentifyOutcome` with the family of the matches, and the store invariant holds |
| Resolver.PrimaryCreate | src/api/controller/user/UserController.js:117-121 | the new primary is created exactly when the given fields pass their validators. It gets the next id, no link, and now as both timestamps |
| Resolver.GapFillCreate | src/api/controller/user/UserController.js:155-160 | the gap-fill secondary is created exactly when the given fields pass their validators. It gets the next id and is linked to the designated primary |
| Resolver.IdentifyRejectsBlank | src/api/controller/user/UserController.js:106-110 | a request with neither an email nor a phone number is answered 400 and leaves the store unchanged; no other request gets that answer |
| Resolver.NoMatchCreatesPrimary | src/api/controller/user/UserController.js:115-131 | with no active match, exactly one primary is appended. The reply carries its id, the email and phone it was given when non-empty, and no secondary ids. An invalid value stores nothing and answers 500 |
| Resolver.MergeConsolidatesAndGapFills | src/api/controller/user/UserController.js:133-165 | with matches, the family is consolidated under its oldest member, which is its first member by createdAt. One secondary with the request's values is appended exactly when the request brings a value the family lacks. The reply names that member |
| Resolver.MergeReply | src/api/controller/user/UserController.js:164-172 | on the merge path, unless the gap-fill save fails, the reply is "Primary contact not found" (500) exactly when the designated oldest member is a secondary, which consolidation never promotes; otherwise it is the projection of that primary's hierarchy in the final store |
| Resolver.MergeKeepsRecords | src/api/controller/user/UserController.js:147-161 | the merge path keeps every record in place with its id, email and phone. It adds at most one record, and none when the family holds the request's values |
| Resolver.CoveredRequestCreatesNothing | src/api/controller/user/UserController.js:150-161 | when each given value is already held by an active record, nothing is created and no id, email or phone changes |
| Resolver.IdentifyLeavesCovered | src/api/controller/user/UserController.js:113-161 | after a request whose values pass the validators, every given value is held by an active record |
| Resolver.RepeatCreatesNothing | src/api/controller/user/UserController.js:101-174 | sending the same valid request again adds no record |
| Resolver.IdentifyAddsAtMostOne | src/api/controller/user/UserController.js:101-174 | one request adds at most one record, at the end, and never changes an existing record's id, email or phone |
| Resolver.HierarchyEndpoint | src/api/controller/user/UserController.js:176-205 | answers 400 exactly when the id is missing or not a number, and 500 exactly when `isNaN` accepts it but `parseInt` gives NaN, since the lookup then throws. It answers 404 exactly when no active primary has the id. Otherwise it returns that primary and its active secondaries oldest first, with `totalContacts` equal to one plus their number |
| Resolver.SecondaryIdNotFound | src/api/controller/user/UserController.js:184-188 | the id of a secondary contact is answered with 404 |
| Util.IsEmpty | src/api/controller/services/UtilController.js:21-34 | true for undefined, null, NaN, the empty string, an empty array and an object whose `length` is 0; false for every boolean and number, a non-empty string or array, and an object without a zero `length` |
| Util.EmptyVersusFalsy | src/api/controller/services/UtilController.js:21-34 | every empty scalar is falsy. `false` and 0 are the only falsy values that are not empty. Arrays and objects are the only empty values that are truthy |
| Util.ReturnCodesRead | src/config/responseCode.js:1-11 | `success` reads as 100 and `error` as 600, while `validSession` is not in the table and reads as undefined |
| Util.SendSuccess | src/api/controller/services/UtilController.js:3-12 | an empty `responseCode` is overwritten, with undefined, and any other value is left alone, so emptiness is unchanged. The reply is 200, "success", code 100, with the updated data |
| Util.SendError | src/api/controller/services/UtilController.js:13-20 | the reply is 500, "failure", code 600, carrying the error |

## Left out

- The HTTP and serverless plumbing, the database connection, the schema
  indexes other than the unique `id`, the virtual date getters, `toJSON` and
  the version key. These have no logic of the repository's own.
- MongoDB's own `_id` field. `toJSON` returns the whole stored document minus
  the version key, so the records the hierarchy endpoint sends also carry
  `_id`. The model's records have no `_id`, and
  Resolver.HierarchyEndpoint returns them without it.
- The trim and lowercase setters on phone and email. The model stores and
  compares values exactly as given. The source's gap-fill test compares raw
  request values with the stored, normalised ones, and the model does not
  capture that difference.
- Resolver.NoMatchCreatesPrimary, Resolver.CoveredRequestCreatesNothing,
  Resolver.IdentifyLeavesCovered, Resolver.RepeatCreatesNothing: these hold
  only for values the setters leave unchanged, that is, trimmed strings with
  the email in lower case. In the source, " a@b.co " passes the email check
  and is stored as "a@b.co", so the stored value differs from the one sent.
  A request with "A@b.co" is stored in lower case, so the raw `===`
  comparison of the gap-fill test never matches it, and each repeat appends
  another secondary. A phoneNumber sent as a JSON number is stored as a
  string, and `===` never matches it either.
- Resolver.HierarchyEndpoint: JavaScript's parsing of the route parameter
  (`isNaN`, `parseInt`) is not modelled. The parameter arrives already
  classified in one of four ways: missing, not a number, accepted by `isNaN`
  but parsed to NaN, or a number with its integer value. A parameter such
  as "Infinity" or " " is in the third class. `isNaN` accepts it,
  `parseInt` turns it into NaN, and the lookup's cast of NaN to a number
  throws, so the source answers 500.
- ContactStore.SortByCreated: MongoDB leaves the order of equal createdAt
  values unspecified. The model keeps them in store order.
- Resolver.Consolidate: the `Promise.all` of independent updates is modelled
  as a sequential loop. Races between requests are not modelled, and neither
  is the race between reading the largest id and inserting.
- ContactStore.Store.Demote: it requires the target to differ from the
  demoted id and to be non-zero. Consolidation always calls it that way, and
  these requirements keep the store invariant provable.
- The document insertion of `insertMany` is not modelled. Only its
  pre-insert hook (`AssignBulkIds`) is.
- `sendSuccess` and `sendError` write to the HTTP response and the console;
  the model returns the envelope instead.
- `findActive` takes an extra filter in the source. The model lists all
  active records.
- Resolver.RepeatCreatesNothing: it proves that the second identical request
  adds no record. It does not prove that the second reply equals the first.
- Resolver.PrimaryCreate, Resolver.GapFillCreate, Resolver.Consolidate: the
  source reads `Date.now()` separately for `createdAt`, for the pre-save
  `updatedAt` and for each consolidation update. These readings can differ
  by a second. The model uses one reading for all of them, so a new record
  gets equal `createdAt` and `updatedAt`, and every demotion in one request
  gets the same `updatedAt`.
- Floating-point numbers: JavaScript numbers are reals in `Util.JsValue`,
  with NaN as its own constructor. Negative zero is not distinguished.
