/** The contact store: the queries of the contact model as functions over the
    stored sequence, and a `Store` class whose methods insert and update
    records the way the model's hooks and instance methods do. */
module ContactStore {
  import opened Contacts

  /** The contacts of `cs` that satisfy `p`, in store order. */
  function Select(cs: seq<Contact>, p: Contact -> bool): (r: seq<Contact>)
    ensures forall c :: c in r <==> c in cs && p(c)
    ensures forall c :: multiset(r)[c] == if p(c) then multiset(cs)[c] else 0
    ensures |r| <= |cs|
  {
    if cs == [] then []
    else
      assert cs == [cs[0]] + cs[1..];
      (if p(cs[0]) then [cs[0]] else []) + Select(cs[1..], p)
  }

  function Ids(cs: seq<Contact>): set<int> {
    set c | c in cs :: c.id
  }

  ghost predicate UniqueIds(cs: seq<Contact>) {
    forall i, j :: 0 <= i < |cs| && 0 <= j < |cs| && cs[i].id == cs[j].id ==> i == j
  }

  /** The largest id in the store, or 0 when the store is empty (the value the
      hooks read by sorting on id, descending, deleted records included). */
  function MaxId(cs: seq<Contact>): (m: int)
    ensures forall c :: c in cs ==> c.id <= m
    ensures cs == [] ==> m == 0
    ensures cs != [] ==> m in Ids(cs)
  {
    if cs == [] then 0
    else if |cs| == 1 then cs[0].id
    else
      var m := MaxId(cs[..|cs| - 1]);
      assert forall c :: c in cs ==> c in cs[..|cs| - 1] || c == cs[|cs| - 1];
      if cs[|cs| - 1].id > m then cs[|cs| - 1].id else m
  }

  /** The id the pre-validate hook gives a new contact that has none. */
  function NextId(cs: seq<Contact>): (n: int)
    ensures n !in Ids(cs)
    ensures forall c :: c in cs ==> c.id < n
    ensures cs == [] ==> n == 1
    ensures cs != [] ==> n - 1 in Ids(cs)
  {
    MaxId(cs) + 1
  }

  lemma NextIdPositive(cs: seq<Contact>)
    requires forall c :: c in cs ==> WellFormed(c)
    ensures NextId(cs) >= 1
  {
    if cs != [] {
      assert NextId(cs) - 1 in Ids(cs);
      var c :| c in cs && c.id == NextId(cs) - 1;
      assert WellFormed(c);
    }
  }

  /** `autoIncrementId`, the id step of the hooks as a reusable function on
      one document: a document without an id gets the next id. */
  function AutoIncrementId(cs: seq<Contact>, d: Draft): (r: Draft)
    ensures !NeedsId(d.id) ==> r == d
    ensures NeedsId(d.id) ==> r == d.(id := Some(NextId(cs)))
  {
    if NeedsId(d.id) then d.(id := Some(NextId(cs))) else d
  }

  /** The position of the record with id `id`. */
  function PositionOf(cs: seq<Contact>, id: int): (k: nat)
    requires id in Ids(cs)
    ensures k < |cs| && cs[k].id == id
  {
    if cs[0].id == id then 0
    else
      assert cs == [cs[0]] + cs[1..];
      assert id in Ids(cs[1..]);
      1 + PositionOf(cs[1..], id)
  }

  /** The outcome of inserting draft `d` into a store holding `cs` at time
      `now`: hooks fill in the id and timestamps, then validation, the
      pre-save link checks and the unique index on `id` may refuse it. */
  function CreateOutcome(cs: seq<Contact>, d: Draft, now: int): Result<Contact, SaveError> {
    var c := Materialise(d, NextId(cs), now);
    match SaveCheck(c)
    case Some(e) => Err(e)
    case None => if c.id in Ids(cs) then Err(DuplicateId) else Ok(c)
  }

  /** A new contact without an id gets the largest stored id plus one (1 in
      an empty store), a contact with an id keeps it, and creation succeeds
      exactly when the record satisfies the record invariant and its id is
      not taken; an id chosen by the hook is never taken. */
  lemma CreateAssignsId(cs: seq<Contact>, d: Draft, now: int)
    ensures var r := CreateOutcome(cs, d, now);
      && (r.Ok? ==> r.value.id == (if NeedsId(d.id) then (if cs == [] then 1 else MaxId(cs) + 1) else d.id.value))
      && (r.Ok? ==> WellFormed(r.value) && r.value.id !in Ids(cs))
      && (r.Ok? <==> WellFormed(Materialise(d, NextId(cs), now))
                     && (NeedsId(d.id) || d.id.value !in Ids(cs)))
      && (r.Ok? ==> r.value.phoneNumber == d.phoneNumber && r.value.email == d.email
                    && r.value.linkedId == d.linkedId && r.value.linkPrecedence == d.linkPrecedence
                    && r.value.updatedAt == now)
  {
  }

  /** Numbering a document in advance with `autoIncrementId` and then
      creating it yields the same outcome as letting the pre-validate hook
      number it, in a store whose records are well formed. */
  lemma AutoIncrementAgreesWithHook(cs: seq<Contact>, d: Draft, now: int)
    requires forall c :: c in cs ==> WellFormed(c)
    ensures CreateOutcome(cs, AutoIncrementId(cs, d), now) == CreateOutcome(cs, d, now)
  {
    NextIdPositive(cs);
  }

  /** How many of the first `k` drafts lack an id. */
  function MissingBefore(ds: seq<Draft>, k: nat): (n: nat)
    requires k <= |ds|
    ensures n <= k
  {
    if k == 0 then 0 else MissingBefore(ds, k - 1) + (if NeedsId(ds[k - 1].id) then 1 else 0)
  }

  lemma {:induction false} MissingBeforeGrows(ds: seq<Draft>, i: nat, j: nat)
    requires i < j <= |ds| && NeedsId(ds[i].id)
    ensures MissingBefore(ds, i) < MissingBefore(ds, j)
  {
    if j > i + 1 {
      MissingBeforeGrows(ds, i, j - 1);
    }
  }

  /** What the bulk-insert hook does to the draft at position `k`, with
      `maxId` the largest stored id (0 when empty) and `now` the clock read
      for that document: the k-th draft lacking an id gets maxId + k, and
      missing timestamps are set. */
  function BulkEntry(ds: seq<Draft>, k: nat, maxId: int, now: int): Draft
    requires k < |ds|
  {
    var d := if NeedsId(ds[k].id) then ds[k].(id := Some(maxId + 1 + MissingBefore(ds, k))) else ds[k];
    d.(createdAt := if Truthy(d.createdAt) then d.createdAt else Some(now),
       updatedAt := if Truthy(d.updatedAt) then d.updatedAt else Some(now))
  }

  /** The ids the bulk hook hands out are larger than every stored id,
      strictly increasing in array order and consecutive from maxId + 1, and
      a draft that already has an id keeps it. */
  lemma BulkIdsFreshAndOrdered(ds: seq<Draft>, maxId: int, clock: seq<int>)
    requires |clock| == |ds|
    ensures forall k :: 0 <= k < |ds| && !NeedsId(ds[k].id) ==> BulkEntry(ds, k, maxId, clock[k]).id == ds[k].id
    ensures forall k :: 0 <= k < |ds| && NeedsId(ds[k].id) ==>
              BulkEntry(ds, k, maxId, clock[k]).id == Some(maxId + 1 + MissingBefore(ds, k))
              && maxId < BulkEntry(ds, k, maxId, clock[k]).id.value <= maxId + MissingBefore(ds, |ds|)
    ensures forall i, j :: 0 <= i < j < |ds| && NeedsId(ds[i].id) && NeedsId(ds[j].id) ==>
              BulkEntry(ds, i, maxId, clock[i]).id.value < BulkEntry(ds, j, maxId, clock[j]).id.value
  {
    forall k | 0 <= k < |ds| && NeedsId(ds[k].id)
      ensures MissingBefore(ds, k) < MissingBefore(ds, |ds|)
    {
      MissingBeforeGrows(ds, k, |ds|);
    }
    forall i, j | 0 <= i < j < |ds| && NeedsId(ds[i].id) && NeedsId(ds[j].id)
      ensures MissingBefore(ds, i) < MissingBefore(ds, j)
    {
      MissingBeforeGrows(ds, i, j);
    }
  }

  /** The records not soft-deleted, in store order. */
  function FindActive(cs: seq<Contact>): (r: seq<Contact>)
    ensures forall c :: c in r <==> c in cs && Active(c)
  {
    Select(cs, Active)
  }

  /** `isDeleted`: the record carries a deletion time. */
  predicate IsDeleted(c: Contact) {
    c.deletedAt.Some?
  }

  /** A stored record is deleted exactly when the active listing hides it. */
  lemma DeletedIffHidden(cs: seq<Contact>, c: Contact)
    requires c in cs
    ensures IsDeleted(c) <==> c !in FindActive(cs)
  {
  }

  /** Does `c` match a lookup by phone and email? Only the given fields
      take part. */
  predicate MatchesContact(c: Contact, phone: Option<string>, email: Option<string>) {
    (Given(phone) && c.phoneNumber == phone) || (Given(email) && c.email == email)
  }

  /** Lookup by phone OR email among the active contacts; nothing when
      neither is given. */
  function FindByContact(cs: seq<Contact>, phone: Option<string>, email: Option<string>): (r: seq<Contact>)
    ensures forall c :: c in r <==> c in cs && Active(c) && MatchesContact(c, phone, email)
    ensures !Given(phone) && !Given(email) ==> r == []
  {
    if Given(phone) && Given(email) then
      Select(cs, c => Active(c) && (c.phoneNumber == phone || c.email == email))
    else if Given(phone) then
      Select(cs, c => Active(c) && c.phoneNumber == phone)
    else if Given(email) then
      Select(cs, c => Active(c) && c.email == email)
    else
      []
  }

  predicate SortedByCreated(s: seq<Contact>) {
    forall i, j :: 0 <= i < j < |s| ==> s[i].createdAt <= s[j].createdAt
  }

  /** A lower bound on createdAt holds for a permutation of bounded records. */
  lemma BoundedPermutation(b: int, x: Contact, s: seq<Contact>, t: seq<Contact>)
    requires multiset(t) == multiset(s) + multiset{x}
    requires b <= x.createdAt && forall i :: 0 <= i < |s| ==> b <= s[i].createdAt
    ensures forall i :: 0 <= i < |t| ==> b <= t[i].createdAt
  {
    forall i | 0 <= i < |t| ensures b <= t[i].createdAt {
      assert t[i] in multiset(t);
      if t[i] != x {
        assert t[i] in multiset(s);
        var j :| 0 <= j < |s| && s[j] == t[i];
      }
    }
  }

  lemma SortedCons(y: Contact, t: seq<Contact>)
    requires SortedByCreated(t)
    requires forall i :: 0 <= i < |t| ==> y.createdAt <= t[i].createdAt
    ensures SortedByCreated([y] + t)
  {
    var r := [y] + t;
    forall i, j | 0 <= i < j < |r| ensures r[i].createdAt <= r[j].createdAt {
      assert r[j] == t[j - 1];
      if i > 0 {
        assert r[i] == t[i - 1];
      }
    }
  }

  function InsertByCreated(x: Contact, s: seq<Contact>): (r: seq<Contact>)
    requires SortedByCreated(s)
    ensures SortedByCreated(r)
    ensures multiset(r) == multiset(s) + multiset{x}
  {
    if s == [] || x.createdAt <= s[0].createdAt then
      SortedCons(x, s);
      [x] + s
    else
      var rest := s[1..];
      assert s == [s[0]] + rest;
      assert SortedByCreated(rest);
      assert forall i :: 0 <= i < |rest| ==> s[0].createdAt <= rest[i].createdAt by {
        forall i | 0 <= i < |rest| ensures s[0].createdAt <= rest[i].createdAt {
          assert rest[i] == s[i + 1];
        }
      }
      var t := InsertByCreated(x, rest);
      BoundedPermutation(s[0].createdAt, x, rest, t);
      SortedCons(s[0], t);
      [s[0]] + t
  }

  /** Ascending createdAt order; records with equal createdAt keep their
      store order. */
  function SortByCreated(s: seq<Contact>): (r: seq<Contact>)
    ensures SortedByCreated(r)
    ensures multiset(r) == multiset(s)
  {
    if s == [] then []
    else
      assert s == [s[0]] + s[1..];
      InsertByCreated(s[0], SortByCreated(s[1..]))
  }

  /** The active contacts whose ids are in `ids`, oldest first. */
  function FindByIds(cs: seq<Contact>, ids: set<int>): (r: seq<Contact>)
    ensures SortedByCreated(r)
    ensures forall c :: c in r <==> c in cs && Active(c) && c.id in ids
    ensures forall c :: multiset(r)[c] == if Active(c) && c.id in ids then multiset(cs)[c] else 0
  {
    var m := Select(cs, c => Active(c) && c.id in ids);
    var r := SortByCreated(m);
    assert forall c :: c in r <==> c in m by {
      forall c ensures c in r <==> c in m {
        assert c in r <==> c in multiset(r);
        assert c in m <==> c in multiset(m);
      }
    }
    r
  }

  /** A primary and the secondaries pointing at it, oldest first. */
  datatype Hierarchy = Hierarchy(primary: Contact, secondary: seq<Contact>) {
    function All(): seq<Contact> {
      [primary] + secondary
    }
  }

  predicate IsActivePrimary(c: Contact, id: int) {
    c.id == id && c.linkPrecedence == Primary && Active(c)
  }

  predicate IsActiveSecondaryOf(c: Contact, id: int) {
    c.linkedId == Some(id) && c.linkPrecedence == Secondary && Active(c)
  }

  /** The hierarchy keyed by `id`: none unless an active primary has that id;
      otherwise that primary and exactly the active secondaries whose linkedId
      is `id`, in ascending createdAt order. */
  function GetContactHierarchy(cs: seq<Contact>, id: int): (h: Option<Hierarchy>)
    ensures h.None? <==> forall c :: c in cs ==> !IsActivePrimary(c, id)
    ensures h.Some? ==> h.value.primary in cs && IsActivePrimary(h.value.primary, id)
    ensures h.Some? ==> SortedByCreated(h.value.secondary)
    ensures h.Some? ==> forall c :: c in h.value.secondary <==> c in cs && IsActiveSecondaryOf(c, id)
    ensures h.Some? ==> forall c :: multiset(h.value.secondary)[c] ==
                          if IsActiveSecondaryOf(c, id) then multiset(cs)[c] else 0
    ensures h.Some? ==> h.value.All() == [h.value.primary] + h.value.secondary
  {
    var primaries := Select(cs, c => IsActivePrimary(c, id));
    if primaries == [] then None
    else
      assert primaries[0] in primaries;
      var children := Select(cs, c => IsActiveSecondaryOf(c, id));
      var sorted := SortByCreated(children);
      assert forall c :: c in sorted <==> c in children by {
        forall c ensures c in sorted <==> c in children {
          assert c in sorted <==> c in multiset(sorted);
          assert c in children <==> c in multiset(children);
        }
      }
      Some(Hierarchy(primaries[0], sorted))
  }

  /** The record a demotion writes: secondary under `target`, updatedAt bumped. */
  function Demoted(c: Contact, target: int, now: int): Contact {
    c.(linkPrecedence := Secondary, linkedId := Some(target), updatedAt := now)
  }

  /** Every record whose id is in `ids` demoted under `target`; the others as they were. */
  function DemoteAll(cs: seq<Contact>, ids: set<int>, target: int, now: int): (r: seq<Contact>)
    ensures |r| == |cs|
    ensures forall i :: 0 <= i < |cs| ==> r[i] == if cs[i].id in ids then Demoted(cs[i], target, now) else cs[i]
  {
    seq(|cs|, i requires 0 <= i < |cs| => if cs[i].id in ids then Demoted(cs[i], target, now) else cs[i])
  }

  /** Ids are unique and every stored record satisfies the record invariant. */
  ghost predicate ValidContacts(cs: seq<Contact>) {
    UniqueIds(cs) && forall c :: c in cs ==> WellFormed(c)
  }

  /** In-memory model of the `users` collection. */
  class Store {
    var contacts: seq<Contact>

    ghost predicate Valid()
      reads this
    {
      ValidContacts(contacts)
    }

    constructor ()
      ensures Valid() && contacts == []
    {
      contacts := [];
    }

    /** Inserts one draft: `create`, or `save` on a new document. */
    method Create(d: Draft, now: int) returns (r: Result<Contact, SaveError>)
      requires Valid()
      modifies this
      ensures Valid()
      ensures r == CreateOutcome(old(contacts), d, now)
      ensures r.Ok? ==> contacts == old(contacts) + [r.value]
      ensures r.Err? ==> contacts == old(contacts)
    {
      var c := Materialise(d, NextId(contacts), now);
      var check := SaveCheck(c);
      if check.Some? {
        return Err(check.value);
      }
      if c.id in Ids(contacts) {
        return Err(DuplicateId);
      }
      contacts := contacts + [c];
      r := Ok(c);
    }

    /** The bulk-insert hook: reads the largest id once, then walks the
        drafts in order, numbering those without an id consecutively and
        filling in missing timestamps from one clock reading per draft. */
    method AssignBulkIds(docs: array<Draft>, clock: seq<int>)
      requires |clock| == docs.Length
      modifies docs
      ensures forall k :: 0 <= k < docs.Length ==> docs[k] == BulkEntry(old(docs[..]), k, MaxId(contacts), clock[k])
    {
      ghost var orig := docs[..];
      var currentMaxId := MaxId(contacts);
      for i := 0 to docs.Length
        invariant currentMaxId == MaxId(contacts) + MissingBefore(orig, i)
        invariant forall k :: 0 <= k < i ==> docs[k] == BulkEntry(orig, k, MaxId(contacts), clock[k])
        invariant forall k :: i <= k < docs.Length ==> docs[k] == orig[k]
      {
        var doc := docs[i];
        if NeedsId(doc.id) {
          currentMaxId := currentMaxId + 1;
          doc := doc.(id := Some(currentMaxId));
        }
        var now := clock[i];
        if !Truthy(doc.createdAt) {
          doc := doc.(createdAt := Some(now));
        }
        if !Truthy(doc.updatedAt) {
          doc := doc.(updatedAt := Some(now));
        }
        docs[i] := doc;
      }
    }

    /** `softDelete` on the stored document `id`: sets deletedAt and updatedAt
        to `now` and saves; the save is refused when `now` is before createdAt. */
    method SoftDelete(id: int, now: int) returns (r: Result<Contact, SaveError>)
      requires Valid() && id in Ids(contacts)
      modifies this
      ensures Valid()
      ensures var i := PositionOf(old(contacts), id);
              var c := old(contacts)[i].(deletedAt := Some(now), updatedAt := now);
              && (r.Ok? <==> now >= old(contacts)[i].createdAt)
              && (r.Ok? ==> r.value == c && contacts == old(contacts)[i := c])
              && (r.Err? ==> contacts == old(contacts))
      ensures r.Ok? ==> r.value !in FindActive(contacts) && r.value in contacts
    {
      var i := PositionOf(contacts, id);
      var c := contacts[i].(deletedAt := Some(now), updatedAt := now);
      var check := SaveCheck(c);
      if check.Some? {
        return Err(check.value);
      }
      contacts := contacts[i := c];
      assert contacts[i] == c;
      r := Ok(c);
    }

    /** `restore` on the stored document `id`: clears deletedAt, sets
        updatedAt to `now` and saves; the record is active again. */
    method Restore(id: int, now: int) returns (r: Result<Contact, SaveError>)
      requires Valid() && id in Ids(contacts)
      modifies this
      ensures Valid()
      ensures var i := PositionOf(old(contacts), id);
              var c := old(contacts)[i].(deletedAt := None, updatedAt := now);
              r == Ok(c) && contacts == old(contacts)[i := c]
      ensures r.Ok? ==> r.value in FindActive(contacts)
    {
      var i := PositionOf(contacts, id);
      var c := contacts[i].(deletedAt := None, updatedAt := now);
      // the save re-runs the checks; a stored record always passes them
      assert SaveCheck(c).None? by {
        assert WellFormed(contacts[i]);
      }
      contacts := contacts[i := c];
      assert contacts[i] == c;
      r := Ok(c);
    }

    /** The update of one record by id that consolidation issues: it becomes
        a secondary under `target` and its updatedAt is bumped; it bypasses
        validation, and no record changes when the id is not stored. */
    method Demote(id: int, target: int, now: int)
      requires Valid()
      requires id != target && target != 0
      modifies this
      ensures Valid()
      ensures contacts == DemoteAll(old(contacts), {id}, target, now)
    {
      contacts := DemoteAll(contacts, {id}, target, now);
      forall c | c in contacts ensures WellFormed(c) {
        var i :| 0 <= i < |contacts| && contacts[i] == c;
        assert WellFormed(old(contacts)[i]);
      }
    }
  }
}
