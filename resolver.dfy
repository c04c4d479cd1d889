/** The identity resolver: family discovery over link relations, choice of
    the designated primary, one-hop consolidation, gap-fill, and the
    projection of a hierarchy into the response. */
module Resolver {
  import opened Contacts
  import opened ContactStore

  // ---------------------------------------------------------------------
  // Family discovery

  /** The lookup family discovery issues for a contact `x` finds an active
      `y` when y links to x, or, only when x has a linkedId, when y is the
      record x links to or shares x's linkedId. */
  predicate Related(x: Contact, y: Contact) {
    || y.linkedId == Some(x.id)
    || (x.linkedId.Some? && (Some(y.id) == x.linkedId || y.linkedId == x.linkedId))
  }

  function Linked(cs: seq<Contact>, x: Contact): (r: seq<Contact>)
    ensures forall y :: y in r <==> y in cs && Active(y) && Related(x, y)
  {
    Select(cs, y => Active(y) && Related(x, y))
  }

  lemma IdsAppend(q: seq<Contact>, c: Contact)
    ensures Ids(q + [c]) == Ids(q) + {c.id}
  {
    assert forall x :: x in q + [c] <==> x in q || x == c;
  }

  lemma IdsCons(c: Contact, q: seq<Contact>)
    ensures Ids([c] + q) == {c.id} + Ids(q)
  {
    assert forall x :: x in [c] + q <==> x == c || x in q;
  }

  function ActiveIds(cs: seq<Contact>): set<int> {
    set c | c in cs && Active(c) :: c.id
  }

  /** `S` is closed under the discovery lookup over the active contacts. */
  ghost predicate Closed(cs: seq<Contact>, S: set<int>) {
    forall x, y :: x in cs && y in cs && Active(x) && Active(y) && x.id in S && Related(x, y) ==> y.id in S
  }

  /** `T` lies inside every closed set that contains the seeds. */
  ghost predicate LeastAbove(cs: seq<Contact>, seeds: set<int>, T: set<int>) {
    forall S :: Closed(cs, S) && seeds <= S ==> T <= S
  }

  /** `fam` is the family of `seeds`: the least set of active ids that
      contains them and is closed under the discovery lookup. */
  ghost predicate IsFamily(cs: seq<Contact>, seeds: set<int>, fam: set<int>) {
    seeds <= fam && fam <= ActiveIds(cs) && Closed(cs, fam) && LeastAbove(cs, seeds, fam)
  }

  /** The family of a set of seeds is determined by the store. */
  lemma FamilyUnique(cs: seq<Contact>, seeds: set<int>, f1: set<int>, f2: set<int>)
    requires IsFamily(cs, seeds, f1) && IsFamily(cs, seeds, f2)
    ensures f1 == f2
  {
  }

  lemma SameIdSameContact(cs: seq<Contact>, x: Contact, y: Contact)
    requires UniqueIds(cs) && x in cs && y in cs && x.id == y.id
    ensures x == y
  {
    var i :| 0 <= i < |cs| && cs[i] == x;
    var j :| 0 <= j < |cs| && cs[j] == y;
  }

  lemma LeastAboveAddKnown(cs: seq<Contact>, seeds: set<int>, all: set<int>, id: int)
    requires LeastAbove(cs, seeds, all) && id in all + seeds
    ensures LeastAbove(cs, seeds, all + {id})
  {
  }

  lemma LeastAboveAddLinked(cs: seq<Contact>, seeds: set<int>, all: set<int>, x: Contact, y: Contact)
    requires LeastAbove(cs, seeds, all)
    requires x in cs && y in cs && Active(x) && Active(y) && x.id in all && Related(x, y)
    ensures LeastAbove(cs, seeds, all + {y.id})
  {
    forall S | Closed(cs, S) && seeds <= S
      ensures all + {y.id} <= S
    {
      assert x.id in S;
    }
  }

  lemma IdsConcat(q: seq<Contact>, r: seq<Contact>)
    ensures Ids(q + r) == Ids(q) + Ids(r)
  {
    assert forall x :: x in q + r <==> x in q || x in r;
  }

  /** The contacts of `linked` whose ids are not processed yet, in order. */
  function Unprocessed(linked: seq<Contact>, processed: set<int>): (r: seq<Contact>)
    ensures forall c :: c in r <==> c in linked && c.id !in processed
  {
    if linked == [] then []
    else
      var last := linked[|linked| - 1];
      assert linked == linked[..|linked| - 1] + [last];
      Unprocessed(linked[..|linked| - 1], processed) + (if last.id !in processed then [last] else [])
  }

  lemma UnprocessedStep(linked: seq<Contact>, k: nat, processed: set<int>)
    requires k < |linked|
    ensures Unprocessed(linked[..k + 1], processed) ==
      Unprocessed(linked[..k], processed) + (if linked[k].id !in processed then [linked[k]] else [])
    ensures Ids(Unprocessed(linked[..k + 1], processed)) ==
      Ids(Unprocessed(linked[..k], processed)) + (if linked[k].id !in processed then {linked[k].id} else {})
  {
    assert linked[..k + 1][..k] == linked[..k];
    IdsAppend(Unprocessed(linked[..k], processed), linked[k]);
  }

  /** The `forEach` over a lookup result: each linked contact whose id is not
      processed yet joins the end of the queue and the set of related ids. */
  method EnqueueUnprocessed(linked: seq<Contact>, processed: set<int>, queue: seq<Contact>, related: set<int>)
    returns (queue': seq<Contact>, related': set<int>)
    ensures queue' == queue + Unprocessed(linked, processed)
    ensures related' == related + Ids(Unprocessed(linked, processed))
  {
    queue', related' := queue, related;
    ghost var done: seq<Contact> := [];
    for k := 0 to |linked|
      invariant done == Unprocessed(linked[..k], processed)
      invariant queue' == queue + done
      invariant related' == related + Ids(done)
    {
      var other := linked[k];
      UnprocessedStep(linked, k, processed);
      if other.id !in processed {
        queue' := queue' + [other];
        related' := related' + {other.id};
        done := done + [other];
      }
    }
    assert linked[..|linked|] == linked;
  }

  lemma LeastAboveAddAllLinked(cs: seq<Contact>, seeds: set<int>, all: set<int>, x: Contact, ys: seq<Contact>)
    requires LeastAbove(cs, seeds, all)
    requires x in cs && Active(x) && x.id in all
    requires forall y :: y in ys ==> y in cs && Active(y) && Related(x, y)
    ensures LeastAbove(cs, seeds, all + Ids(ys))
  {
    forall S | Closed(cs, S) && seeds <= S
      ensures all + Ids(ys) <= S
    {
      assert x.id in S;
    }
  }

  /** The loop invariant of family discovery: every queued contact is active,
      every id seen is active, the seeds and everything reachable in one hop
      from a processed contact are processed or queued, and every id seen
      belongs to the family. */
  ghost predicate Discovery(cs: seq<Contact>, seeds: set<int>, processed: set<int>, related: set<int>, queue: seq<Contact>) {
    && (forall c :: c in queue ==> c in cs && Active(c))
    && processed <= related <= ActiveIds(cs)
    && Ids(queue) <= related + seeds
    && seeds <= processed + Ids(queue)
    && related <= processed + Ids(queue)
    && (forall x, y :: x in cs && y in cs && Active(x) && Active(y) && x.id in processed && Related(x, y)
          ==> y.id in processed + Ids(queue))
    && LeastAbove(cs, seeds, related)
  }

  lemma DiscoveryStart(cs: seq<Contact>, initial: seq<Contact>)
    requires forall c :: c in initial ==> c in cs && Active(c)
    ensures Discovery(cs, Ids(initial), {}, {}, initial)
  {
  }

  /** Dequeuing an id that is already processed keeps the invariant. */
  lemma DiscoverySkip(cs: seq<Contact>, seeds: set<int>, processed: set<int>, related: set<int>, contact: Contact, queue: seq<Contact>)
    requires Discovery(cs, seeds, processed, related, [contact] + queue)
    requires contact.id in processed
    ensures Discovery(cs, seeds, processed, related, queue)
  {
    IdsCons(contact, queue);
    assert forall c :: c in queue ==> c in [contact] + queue;
  }

  /** Expanding a dequeued contact, that is marking it processed and
      enqueueing its unprocessed linked contacts, keeps the invariant. */
  lemma DiscoveryExpand(cs: seq<Contact>, seeds: set<int>, processed: set<int>, related: set<int>, contact: Contact, queue: seq<Contact>)
    requires UniqueIds(cs)
    requires Discovery(cs, seeds, processed, related, [contact] + queue)
    requires contact.id !in processed
    ensures contact.id in ActiveIds(cs)
    ensures var p := processed + {contact.id};
            var n := Unprocessed(Linked(cs, contact), p);
            Discovery(cs, seeds, p, related + {contact.id} + Ids(n), queue + n)
  {
    IdsCons(contact, queue);
    assert contact in [contact] + queue;
    assert forall c :: c in queue ==> c in [contact] + queue;
    var p := processed + {contact.id};
    var linked := Linked(cs, contact);
    var n := Unprocessed(linked, p);
    LeastAboveAddKnown(cs, seeds, related, contact.id);
    LeastAboveAddAllLinked(cs, seeds, related + {contact.id}, contact, n);
    IdsConcat(queue, n);
    ExpandKeepsClosure(cs, processed, contact, queue);
  }

  /** After expanding `contact`, everything one hop from a processed
      contact is processed or queued. */
  lemma ExpandKeepsClosure(cs: seq<Contact>, processed: set<int>, contact: Contact, queue: seq<Contact>)
    requires UniqueIds(cs) && contact in cs
    requires forall x, y :: x in cs && y in cs && Active(x) && Active(y) && x.id in processed && Related(x, y)
               ==> y.id in processed + Ids([contact] + queue)
    ensures var p := processed + {contact.id};
      var n := Unprocessed(Linked(cs, contact), p);
      forall x, y :: x in cs && y in cs && Active(x) && Active(y) && x.id in p && Related(x, y)
        ==> y.id in p + Ids(queue + n)
  {
    var p := processed + {contact.id};
    var linked := Linked(cs, contact);
    var n := Unprocessed(linked, p);
    IdsCons(contact, queue);
    IdsConcat(queue, n);
    forall x, y | x in cs && y in cs && Active(x) && Active(y) && x.id in p && Related(x, y)
      ensures y.id in p + Ids(queue + n)
    {
      if x.id == contact.id {
        SameIdSameContact(cs, x, contact);
        assert y in linked;
        if y.id !in p {
          assert y in n;
        }
      }
    }
  }

  /** Once the queue is empty the ids seen are the family of the seeds. */
  lemma DiscoveryDone(cs: seq<Contact>, seeds: set<int>, processed: set<int>, related: set<int>)
    requires Discovery(cs, seeds, processed, related, [])
    ensures IsFamily(cs, seeds, related)
    ensures processed == related
  {
  }

  /** `expanded` lists the ids of `processed`, each once: its last id is
      in `processed`, and the rest list the others. */
  ghost predicate ExpandedOnce(expanded: seq<int>, processed: set<int>) {
    if expanded == [] then processed == {}
    else
      var last := expanded[|expanded| - 1];
      last in processed && ExpandedOnce(expanded[..|expanded| - 1], processed - {last})
  }

  lemma ExpandOnce(expanded: seq<int>, processed: set<int>, id: int)
    requires ExpandedOnce(expanded, processed) && id !in processed
    ensures ExpandedOnce(expanded + [id], processed + {id})
  {
    assert (expanded + [id])[..|expanded|] == expanded;
    assert (processed + {id}) - {id} == processed;
  }

  lemma {:induction false} ExpandedAll(expanded: seq<int>, processed: set<int>)
    requires ExpandedOnce(expanded, processed)
    ensures NoDuplicates(expanded) && forall x :: x in expanded <==> x in processed
  {
    if expanded != [] {
      var n := |expanded| - 1;
      var rest := expanded[..n];
      ExpandedAll(rest, processed - {expanded[n]});
      assert expanded == rest + [expanded[n]];
    }
  }

  /** Breadth-first discovery of the family of the matched contacts: a
      worklist of contacts, a `processed` set of ids so that each id is
      expanded once, and the set of every id seen. `expanded` lists the ids
      whose links were looked up, in order: each family member once. */
  method DiscoverFamily(store: Store, initial: seq<Contact>) returns (family: set<int>, ghost expanded: seq<int>)
    requires store.Valid()
    requires forall c :: c in initial ==> c in store.contacts && Active(c)
    ensures IsFamily(store.contacts, Ids(initial), family)
    ensures NoDuplicates(expanded) && forall x :: x in expanded <==> x in family
  {
    var cs := store.contacts;
    ghost var seeds := Ids(initial);
    var related: set<int> := {};
    var queue := initial;
    var processed: set<int> := {};
    expanded := [];
    DiscoveryStart(cs, initial);
    while |queue| > 0
      invariant Discovery(cs, seeds, processed, related, queue)
      invariant ExpandedOnce(expanded, processed)
      decreases ActiveIds(cs) - processed, |queue|
    {
      var contact := queue[0];
      ghost var before := queue;
      queue := queue[1..];
      assert before == [contact] + queue;
      if contact.id in processed {
        DiscoverySkip(cs, seeds, processed, related, contact, queue);
        continue;
      }
      DiscoveryExpand(cs, seeds, processed, related, contact, queue);
      ExpandOnce(expanded, processed, contact.id);
      processed := processed + {contact.id};
      expanded := expanded + [contact.id];
      related := related + {contact.id};
      queue, related := EnqueueUnprocessed(Linked(cs, contact), processed, queue, related);
    }
    DiscoveryDone(cs, seeds, processed, related);
    family := related;
    ExpandedAll(expanded, processed);
  }

  // ---------------------------------------------------------------------
  // Choice of the designated primary

  /** The left fold the resolver uses: a later record replaces the current
      choice only when it is strictly older. */
  function OldestFrom(oldest: Contact, rest: seq<Contact>): (r: Contact)
    ensures r == oldest || r in rest
    decreases |rest|
  {
    if rest == [] then oldest
    else OldestFrom(if rest[0].createdAt < oldest.createdAt then rest[0] else oldest, rest[1..])
  }

  function Oldest(s: seq<Contact>): (r: Contact)
    requires |s| > 0
    ensures r in s
  {
    OldestFrom(s[0], s[1..])
  }

  lemma {:induction false} OldestFromFirstMinimal(s: seq<Contact>, i: nat, k: nat) returns (m: nat)
    requires 0 < i <= |s| && k < i
    requires forall j :: 0 <= j < k ==> s[j].createdAt > s[k].createdAt
    requires forall j :: 0 <= j < i ==> s[k].createdAt <= s[j].createdAt
    ensures m < |s| && s[m] == OldestFrom(s[k], s[i..])
    ensures forall j :: 0 <= j < m ==> s[j].createdAt > s[m].createdAt
    ensures forall j :: 0 <= j < |s| ==> s[m].createdAt <= s[j].createdAt
    decreases |s| - i
  {
    if i == |s| {
      m := k;
    } else {
      assert s[i..][1..] == s[i + 1..];
      var next := if s[i].createdAt < s[k].createdAt then i else k;
      m := OldestFromFirstMinimal(s, i + 1, next);
    }
  }

  /** The designated primary is a member with the least createdAt, and the
      first such member in the list. */
  lemma OldestIsFirstMinimal(s: seq<Contact>) returns (m: nat)
    requires |s| > 0
    ensures m < |s| && s[m] == Oldest(s)
    ensures forall j :: 0 <= j < |s| ==> Oldest(s).createdAt <= s[j].createdAt
    ensures forall j :: 0 <= j < m ==> s[j].createdAt > Oldest(s).createdAt
  {
    m := OldestFromFirstMinimal(s, 1, 0);
  }

  /** Over a list already sorted by createdAt the designated primary is its head. */
  lemma OldestOfSortedIsHead(s: seq<Contact>)
    requires |s| > 0 && SortedByCreated(s)
    ensures Oldest(s) == s[0]
  {
    var m := OldestIsFirstMinimal(s);
    assert s[0].createdAt <= s[m].createdAt;
  }

  // ---------------------------------------------------------------------
  // Consolidation

  /** The ids consolidation demotes: the members that are primary and are
      not the designated one. */
  function DemoteSet(members: seq<Contact>, pid: int): set<int> {
    set c | c in members && c.id != pid && c.linkPrecedence == Primary :: c.id
  }

  lemma DemoteAllTwice(cs: seq<Contact>, ids: set<int>, id: int, target: int, now: int)
    ensures DemoteAll(DemoteAll(cs, ids, target, now), {id}, target, now) == DemoteAll(cs, ids + {id}, target, now)
  {
  }

  /** Demotes every member that is primary and not the designated one,
      one update per member, in list order. */
  method Consolidate(store: Store, members: seq<Contact>, designated: Contact, now: int)
    requires store.Valid() && designated in store.contacts
    modifies store
    ensures store.Valid()
    ensures store.contacts == DemoteAll(old(store.contacts), DemoteSet(members, designated.id), designated.id, now)
  {
    ghost var cs0 := store.contacts;
    assert designated.id >= 1;
    assert DemoteAll(cs0, {}, designated.id, now) == cs0;
    for i := 0 to |members|
      invariant store.Valid()
      invariant store.contacts == DemoteAll(cs0, DemoteSet(members[..i], designated.id), designated.id, now)
    {
      var contact := members[i];
      assert members[..i + 1] == members[..i] + [contact];
      if contact.id != designated.id && contact.linkPrecedence == Primary {
        DemoteAllTwice(cs0, DemoteSet(members[..i], designated.id), contact.id, designated.id, now);
        assert DemoteSet(members[..i + 1], designated.id) == DemoteSet(members[..i], designated.id) + {contact.id};
        store.Demote(contact.id, designated.id, now);
      } else {
        assert DemoteSet(members[..i + 1], designated.id) == DemoteSet(members[..i], designated.id);
      }
    }
    assert members[..|members|] == members;
  }

  /** Consolidation changes exactly the stored records that are members,
      primary and not the designated one: each becomes a secondary linked
      to the designated primary; every other record, the designated one
      and the members already secondary included, is left as it was. */
  lemma ConsolidationChangesExactly(cs: seq<Contact>, members: seq<Contact>, designated: Contact, now: int)
    requires UniqueIds(cs) && forall c :: c in members ==> c in cs
    ensures var r := DemoteAll(cs, DemoteSet(members, designated.id), designated.id, now);
      forall i :: 0 <= i < |cs| ==>
        && (r[i] != cs[i] <==> cs[i] in members && cs[i].id != designated.id && cs[i].linkPrecedence == Primary)
        && (r[i] != cs[i] ==> r[i] == cs[i].(linkPrecedence := Secondary, linkedId := Some(designated.id), updatedAt := now))
  {
    var D := DemoteSet(members, designated.id);
    forall i | 0 <= i < |cs| && cs[i].id in D
      ensures cs[i] in members && cs[i].linkPrecedence == Primary
    {
      var m :| m in members && m.id != designated.id && m.linkPrecedence == Primary && m.id == cs[i].id;
      SameIdSameContact(cs, m, cs[i]);
    }
  }

  // ---------------------------------------------------------------------
  // Gap-fill

  /** The request brings information the family lacks: an email given and
      held by no member, or a phone given and held by no member. */
  predicate NeedsGapFill(members: seq<Contact>, email: Option<string>, phone: Option<string>) {
    var hasEmail := if Given(email) then exists c :: c in members && c.email == email else true;
    var hasPhone := if Given(phone) then exists c :: c in members && c.phoneNumber == phone else true;
    !hasEmail || !hasPhone
  }

  function PrimaryDraft(email: Option<string>, phone: Option<string>): Draft {
    Draft(None, phone, email, None, Primary, None, None, None)
  }

  function GapFillDraft(email: Option<string>, phone: Option<string>, pid: int): Draft {
    Draft(None, phone, email, Some(pid), Secondary, None, None, None)
  }

  // ---------------------------------------------------------------------
  // Projection

  predicate NoDuplicates<T(==)>(s: seq<T>) {
    forall i, j :: 0 <= i < j < |s| ==> s[i] != s[j]
  }

  /** Distinct values in order of first occurrence (spreading a Set). */
  function Dedup(s: seq<string>): (r: seq<string>)
    ensures forall x :: x in r <==> x in s
    ensures NoDuplicates(r)
  {
    if s == [] then []
    else
      var r := Dedup(s[..|s| - 1]);
      assert forall x :: x in s <==> x in s[..|s| - 1] || x == s[|s| - 1];
      if s[|s| - 1] in r then r else r + [s[|s| - 1]]
  }

  lemma FirstIndexInPrefix<T>(s: seq<T>, n: nat, x: T)
    requires n <= |s| && x in s[..n]
    ensures x in s && IndexOf(s, x) == IndexOf(s[..n], x)
  {
    var k, k' := IndexOf(s, x), IndexOf(s[..n], x);
    assert s[..n][..k'] == s[..k'];
  }

  /** Dedup keeps the order in which values first occur. */
  lemma {:induction false} DedupKeepsFirstOccurrenceOrder(s: seq<string>)
    ensures forall i, j :: 0 <= i < j < |Dedup(s)| ==> IndexOf(s, Dedup(s)[i]) < IndexOf(s, Dedup(s)[j])
  {
    if s != [] {
      var init := s[..|s| - 1];
      var last := s[|s| - 1];
      var r := Dedup(init);
      DedupKeepsFirstOccurrenceOrder(init);
      assert init == s[..|s| - 1];
      forall x | x in r
        ensures IndexOf(s, x) == IndexOf(init, x) && IndexOf(s, x) < |init|
      {
        FirstIndexInPrefix(s, |s| - 1, x);
      }
      if last !in r {
        assert last !in init;
        assert IndexOf(s, last) == |s| - 1;
      }
    }
  }

  /** The first value is kept first. */
  lemma DedupHead(s: seq<string>)
    requires |s| > 0
    ensures |Dedup(s)| > 0 && Dedup(s)[0] == s[0]
  {
    assert s[0] in Dedup(s);
    DedupKeepsFirstOccurrenceOrder(s);
    var k :| 0 <= k < |Dedup(s)| && Dedup(s)[k] == s[0];
    assert IndexOf(s, s[0]) == 0;
  }

  /** The non-empty values (the `filter(Boolean)` step). */
  function GivenValues(vs: seq<Option<string>>): (r: seq<string>)
    ensures forall x :: x in r <==> Some(x) in vs && x != ""
    ensures |vs| > 0 && Given(vs[0]) ==> |r| > 0 && r[0] == vs[0].value
    ensures |vs| == 1 ==> r == if Given(vs[0]) then [vs[0].value] else []
  {
    if vs == [] then []
    else
      assert vs == [vs[0]] + vs[1..];
      (if Given(vs[0]) then [vs[0].value] else []) + GivenValues(vs[1..])
  }

  /** The filter keeps relative order: filtering a concatenation
      concatenates the filtered parts. With the singleton case above this
      fixes the result as the subsequence of given values. */
  lemma {:induction false} GivenValuesConcat(a: seq<Option<string>>, b: seq<Option<string>>)
    ensures GivenValues(a + b) == GivenValues(a) + GivenValues(b)
  {
    if a != [] {
      assert (a + b)[0] == a[0];
      assert (a + b)[1..] == a[1..] + b;
      GivenValuesConcat(a[1..], b);
    } else {
      assert a + b == b;
    }
  }

  function EmailsOf(cs: seq<Contact>): (r: seq<Option<string>>)
    ensures |r| == |cs| && forall i :: 0 <= i < |cs| ==> r[i] == cs[i].email
  {
    seq(|cs|, i requires 0 <= i < |cs| => cs[i].email)
  }

  function PhonesOf(cs: seq<Contact>): (r: seq<Option<string>>)
    ensures |r| == |cs| && forall i :: 0 <= i < |cs| ==> r[i] == cs[i].phoneNumber
  {
    seq(|cs|, i requires 0 <= i < |cs| => cs[i].phoneNumber)
  }

  function IdList(cs: seq<Contact>): (r: seq<int>)
    ensures |r| == |cs| && forall i :: 0 <= i < |cs| ==> r[i] == cs[i].id
  {
    seq(|cs|, i requires 0 <= i < |cs| => cs[i].id)
  }

  /** The `contact` object of the identify response. */
  datatype ContactView = ContactView(
    primaryContactId: int,
    emails: seq<string>,
    phoneNumbers: seq<string>,
    secondaryContactIds: seq<int>)

  /** The distinct non-empty values of a column, in order of first occurrence. */
  function DistinctGiven(vs: seq<Option<string>>): seq<string> {
    Dedup(GivenValues(vs))
  }

  /** `DistinctGiven` keeps each non-empty value once, drops everything
      else, keeps the order of first occurrence and starts with the first
      value when that one is given. */
  lemma DistinctGivenSpec(vs: seq<Option<string>>)
    ensures var r := DistinctGiven(vs);
      && NoDuplicates(r)
      && (forall x :: x in r <==> x != "" && Some(x) in vs)
      && (forall i, j :: 0 <= i < j < |r| ==> IndexOf(GivenValues(vs), r[i]) < IndexOf(GivenValues(vs), r[j]))
      && (|vs| > 0 && Given(vs[0]) ==> |r| > 0 && r[0] == vs[0].value)
  {
    var g := GivenValues(vs);
    DedupKeepsFirstOccurrenceOrder(g);
    if |vs| > 0 && Given(vs[0]) {
      DedupHead(g);
    }
  }

  lemma EmailsOfMembers(cs: seq<Contact>, e: string)
    ensures Some(e) in EmailsOf(cs) <==> exists c :: c in cs && c.email == Some(e)
  {
    if Some(e) in EmailsOf(cs) {
      var i :| 0 <= i < |cs| && EmailsOf(cs)[i] == Some(e);
      assert cs[i] in cs;
    }
  }

  lemma PhonesOfMembers(cs: seq<Contact>, p: string)
    ensures Some(p) in PhonesOf(cs) <==> exists c :: c in cs && c.phoneNumber == Some(p)
  {
    if Some(p) in PhonesOf(cs) {
      var i :| 0 <= i < |cs| && PhonesOf(cs)[i] == Some(p);
      assert cs[i] in cs;
    }
  }

  /** The response projected from the hierarchy of `pid`; none when there is
      no hierarchy. */
  function GenerateContactResponse(cs: seq<Contact>, pid: int): Option<ContactView> {
    match GetContactHierarchy(cs, pid)
    case None => None
    case Some(h) =>
      Some(ContactView(
        h.primary.id,
        DistinctGiven(EmailsOf(h.All())),
        DistinctGiven(PhonesOf(h.All())),
        IdList(h.secondary)))
  }

  /** The projection answers for `pid` exactly when an active primary has
      that id, names that primary, and lists the hierarchy's secondaries
      oldest first. */
  lemma ResponseShape(cs: seq<Contact>, pid: int)
    ensures var r := GenerateContactResponse(cs, pid);
      && (r.None? <==> GetContactHierarchy(cs, pid).None?)
      && (r.Some? ==>
            var h := GetContactHierarchy(cs, pid).value;
            && r.value.primaryContactId == pid
            && |r.value.secondaryContactIds| == |h.secondary|
            && (forall i :: 0 <= i < |h.secondary| ==> r.value.secondaryContactIds[i] == h.secondary[i].id))
  {
  }

  /** The response's emails are the non-empty emails of the hierarchy, each
      once, in order of first occurrence over the primary followed by its
      secondaries, so the primary's own email comes first. */
  lemma ResponseEmails(cs: seq<Contact>, pid: int)
    requires GetContactHierarchy(cs, pid).Some?
    ensures var h := GetContactHierarchy(cs, pid).value;
      var es := GenerateContactResponse(cs, pid).value.emails;
      && NoDuplicates(es)
      && (forall e :: e in es <==> e != "" && exists c :: c in h.All() && c.email == Some(e))
      && (forall i, j :: 0 <= i < j < |es| ==>
            IndexOf(GivenValues(EmailsOf(h.All())), es[i]) < IndexOf(GivenValues(EmailsOf(h.All())), es[j]))
      && (Given(h.primary.email) ==> |es| > 0 && es[0] == h.primary.email.value)
  {
    var all := GetContactHierarchy(cs, pid).value.All();
    DistinctGivenSpec(EmailsOf(all));
    forall e ensures Some(e) in EmailsOf(all) <==> exists c :: c in all && c.email == Some(e) {
      EmailsOfMembers(all, e);
    }
  }

  /** The same for the phone numbers. */
  lemma ResponsePhones(cs: seq<Contact>, pid: int)
    requires GetContactHierarchy(cs, pid).Some?
    ensures var h := GetContactHierarchy(cs, pid).value;
      var ps := GenerateContactResponse(cs, pid).value.phoneNumbers;
      && NoDuplicates(ps)
      && (forall p :: p in ps <==> p != "" && exists c :: c in h.All() && c.phoneNumber == Some(p))
      && (forall i, j :: 0 <= i < j < |ps| ==>
            IndexOf(GivenValues(PhonesOf(h.All())), ps[i]) < IndexOf(GivenValues(PhonesOf(h.All())), ps[j]))
      && (Given(h.primary.phoneNumber) ==> |ps| > 0 && ps[0] == h.primary.phoneNumber.value)
  {
    var all := GetContactHierarchy(cs, pid).value.All();
    DistinctGivenSpec(PhonesOf(all));
    forall p ensures Some(p) in PhonesOf(all) <==> exists c :: c in all && c.phoneNumber == Some(p) {
      PhonesOfMembers(all, p);
    }
  }

  // ---------------------------------------------------------------------
  // identifyContact

  datatype Failure = SaveFailed(error: SaveError) | PrimaryNotFound

  /** What the identify endpoint answers. */
  datatype IdentifyReply =
    | Identified(view: ContactView)
    | MissingEmailAndPhone
    | InternalError(cause: Failure)
  {
    function Status(): int {
      match this
      case Identified(_) => 200
      case MissingEmailAndPhone => 400
      case InternalError(_) => 500
    }
  }

  /** The reply built from the final hierarchy of `pid`; a missing
      hierarchy surfaces as an internal error. */
  function FinalReply(cs: seq<Contact>, pid: int): IdentifyReply {
    match GenerateContactResponse(cs, pid)
    case None => InternalError(PrimaryNotFound)
    case Some(v) => Identified(v)
  }

  /** `family` is the family of the request's direct matches whenever the
      request reaches family discovery. */
  ghost predicate FamilyFits(cs: seq<Contact>, email: Option<string>, phone: Option<string>, family: set<int>) {
    (Given(email) || Given(phone)) && FindByContact(cs, phone, email) != [] ==>
      IsFamily(cs, Ids(FindByContact(cs, phone, email)), family)
  }

  lemma FamilyMembersNonEmpty(cs: seq<Contact>, email: Option<string>, phone: Option<string>, family: set<int>)
    requires (Given(email) || Given(phone)) && FindByContact(cs, phone, email) != []
    requires FamilyFits(cs, email, phone, family)
    ensures FindByIds(cs, family) != []
  {
    var m := FindByContact(cs, phone, email)[0];
    assert m in FindByContact(cs, phone, email);
    assert m in FindByIds(cs, family);
  }

  /** The store and the reply after the merge path, from the store `cs`
      before it: consolidate under the oldest member, then gap-fill when
      the request brings something new, then project. */
  function MergeOutcome(cs: seq<Contact>, email: Option<string>, phone: Option<string>, now: int, members: seq<Contact>)
    : (seq<Contact>, IdentifyReply)
    requires |members| > 0
  {
    var p := Oldest(members);
    var demoted := DemoteAll(cs, DemoteSet(members, p.id), p.id, now);
    if NeedsGapFill(members, email, phone) then
      match CreateOutcome(demoted, GapFillDraft(email, phone, p.id), now)
      case Err(e) => (demoted, InternalError(SaveFailed(e)))
      case Ok(g) => (demoted + [g], FinalReply(demoted + [g], p.id))
    else
      (demoted, FinalReply(demoted, p.id))
  }

  /** The store and the reply after one identify request on store `cs`,
      given the family its matches have. */
  function IdentifyOutcome(cs: seq<Contact>, email: Option<string>, phone: Option<string>, now: int, family: set<int>)
    : (seq<Contact>, IdentifyReply)
    requires FamilyFits(cs, email, phone, family)
  {
    if !Given(email) && !Given(phone) then (cs, MissingEmailAndPhone)
    else if FindByContact(cs, phone, email) == [] then
      match CreateOutcome(cs, PrimaryDraft(email, phone), now)
      case Err(e) => (cs, InternalError(SaveFailed(e)))
      case Ok(c) => (cs + [c], Identified(ContactView(c.id, GivenValues([email]), GivenValues([phone]), [])))
    else
      FamilyMembersNonEmpty(cs, email, phone, family);
      MergeOutcome(cs, email, phone, now, FindByIds(cs, family))
  }

  /** The identify endpoint: validate, look up direct matches, then either
      create a new primary or discover the family, consolidate it under its
      oldest member, gap-fill, and project the final hierarchy. */
  method IdentifyContact(store: Store, email: Option<string>, phone: Option<string>, now: int)
    returns (reply: IdentifyReply, ghost family: set<int>)
    requires store.Valid()
    modifies store
    ensures store.Valid()
    ensures FamilyFits(old(store.contacts), email, phone, family)
    ensures (store.contacts, reply) == IdentifyOutcome(old(store.contacts), email, phone, now, family)
  {
    family := {};
    if !Given(email) && !Given(phone) {
      reply := MissingEmailAndPhone;
      return;
    }
    var existing := FindByContact(store.contacts, phone, email);
    if |existing| == 0 {
      var created := store.Create(PrimaryDraft(email, phone), now);
      if created.Err? {
        reply := InternalError(SaveFailed(created.error));
        return;
      }
      reply := Identified(ContactView(created.value.id, GivenValues([email]), GivenValues([phone]), []));
      return;
    }
    ghost var cs0 := store.contacts;
    var related, _ := DiscoverFamily(store, existing);
    family := related;
    var members := FindByIds(store.contacts, related);
    FamilyMembersNonEmpty(cs0, email, phone, family);
    var designated := Oldest(members);
    Consolidate(store, members, designated, now);
    if NeedsGapFill(members, email, phone) {
      var created := store.Create(GapFillDraft(email, phone, designated.id), now);
      if created.Err? {
        reply := InternalError(SaveFailed(created.error));
        return;
      }
    }
    reply := FinalReply(store.contacts, designated.id);
  }

  // ---------------------------------------------------------------------
  // What one identify request does to the store

  lemma DemoteAllKeepsIds(cs: seq<Contact>, ids: set<int>, target: int, now: int)
    ensures Ids(DemoteAll(cs, ids, target, now)) == Ids(cs)
    ensures NextId(DemoteAll(cs, ids, target, now)) == NextId(cs)
  {
    var r := DemoteAll(cs, ids, target, now);
    forall x | x in Ids(cs) ensures x in Ids(r) {
      var c :| c in cs && c.id == x;
      var i :| 0 <= i < |cs| && cs[i] == c;
      assert r[i] in r;
    }
    forall x | x in Ids(r) ensures x in Ids(cs) {
      var c :| c in r && c.id == x;
      var i :| 0 <= i < |r| && r[i] == c;
      assert cs[i] in cs;
    }
    if cs != [] {
      assert NextId(r) - 1 in Ids(cs) && NextId(cs) - 1 in Ids(r);
    }
  }

  /** The new primary of a request: created exactly when the given fields
      pass the validators, with the next id, no link and `now` as both
      timestamps. */
  lemma PrimaryCreate(cs: seq<Contact>, email: Option<string>, phone: Option<string>, now: int)
    requires forall c :: c in cs ==> WellFormed(c)
    requires Given(email) || Given(phone)
    ensures var r := CreateOutcome(cs, PrimaryDraft(email, phone), now);
      && (r.Ok? <==> ValidPhone(phone) && ValidEmail(email))
      && (r.Ok? ==> r.value == Contact(NextId(cs), phone, email, None, Primary, now, now, None))
  {
    NextIdPositive(cs);
  }

  /** The gap-fill secondary: created exactly when the given fields pass the
      validators, with the next id and linked to the designated primary. */
  lemma GapFillCreate(cs: seq<Contact>, email: Option<string>, phone: Option<string>, now: int, pid: int)
    requires pid in Ids(cs) && pid >= 1
    requires Given(email) || Given(phone)
    ensures var r := CreateOutcome(cs, GapFillDraft(email, phone, pid), now);
      && (r.Ok? <==> ValidPhone(phone) && ValidEmail(email))
      && (r.Ok? ==> r.value == Contact(NextId(cs), phone, email, Some(pid), Secondary, now, now, None))
  {
  }

  /** A request whose values match no active contact creates one primary
      holding them and answers with it alone; when a given value fails its
      validator nothing is stored and the answer is an internal error. */
  lemma NoMatchCreatesPrimary(cs: seq<Contact>, email: Option<string>, phone: Option<string>, now: int, family: set<int>)
    requires ValidContacts(cs) && FamilyFits(cs, email, phone, family)
    requires Given(email) || Given(phone)
    requires FindByContact(cs, phone, email) == []
    ensures var out := IdentifyOutcome(cs, email, phone, now, family);
      var c := Contact(NextId(cs), phone, email, None, Primary, now, now, None);
      && (ValidPhone(phone) && ValidEmail(email) ==>
            && out.0 == cs + [c]
            && out.1 == Identified(ContactView(c.id,
                 if Given(email) then [email.value] else [],
                 if Given(phone) then [phone.value] else [],
                 [])))
      && (!(ValidPhone(phone) && ValidEmail(email)) ==> out.0 == cs && out.1.InternalError?)
  {
    PrimaryCreate(cs, email, phone, now);
  }

  /** The merge path: the family, oldest first, is consolidated under its
      oldest member; a secondary holding the request's values is added under
      that member exactly when the request brings a value the family lacks;
      an answer names that member as the primary. */
  lemma MergeConsolidatesAndGapFills(cs: seq<Contact>, email: Option<string>, phone: Option<string>, now: int, family: set<int>)
    requires ValidContacts(cs) && FamilyFits(cs, email, phone, family)
    requires Given(email) || Given(phone)
    requires FindByContact(cs, phone, email) != []
    ensures FindByIds(cs, family) != []
    ensures var members := FindByIds(cs, family);
      var p := Oldest(members);
      var demoted := DemoteAll(cs, DemoteSet(members, p.id), p.id, now);
      var g := Contact(NextId(cs), phone, email, Some(p.id), Secondary, now, now, None);
      var out := IdentifyOutcome(cs, email, phone, now, family);
      && p == members[0]
      && (!NeedsGapFill(members, email, phone) ==> out.0 == demoted)
      && (NeedsGapFill(members, email, phone) && ValidPhone(phone) && ValidEmail(email) ==> out.0 == demoted + [g])
      && (NeedsGapFill(members, email, phone) && !(ValidPhone(phone) && ValidEmail(email)) ==>
            out.0 == demoted && out.1.InternalError?)
      && (out.1.Identified? ==> out.1.view.primaryContactId == p.id)
  {
    FamilyMembersNonEmpty(cs, email, phone, family);
    var members := FindByIds(cs, family);
    OldestOfSortedIsHead(members);
    var p := Oldest(members);
    assert p in cs && WellFormed(p);
    var demoted := DemoteAll(cs, DemoteSet(members, p.id), p.id, now);
    DemoteAllKeepsIds(cs, DemoteSet(members, p.id), p.id, now);
    GapFillCreate(demoted, email, phone, now, p.id);
    var out := IdentifyOutcome(cs, email, phone, now, family);
    if out.1.Identified? {
      ResponseShape(out.0, p.id);
    }
  }

  /** `r` starts with the records of `cs`, each with its id, email and
      phone number unchanged. */
  ghost predicate KeepsValues(cs: seq<Contact>, r: seq<Contact>) {
    |cs| <= |r| &&
    forall i :: 0 <= i < |cs| ==>
      r[i].id == cs[i].id && r[i].email == cs[i].email && r[i].phoneNumber == cs[i].phoneNumber
  }

  /** A request with neither an email nor a phone number is answered 400
      and leaves the store as it was; no other request gets that answer. */
  lemma IdentifyRejectsBlank(cs: seq<Contact>, email: Option<string>, phone: Option<string>, now: int, family: set<int>)
    requires FamilyFits(cs, email, phone, family)
    ensures var out := IdentifyOutcome(cs, email, phone, now, family);
      && (!Given(email) && !Given(phone) ==> out == (cs, MissingEmailAndPhone) && out.1.Status() == 400)
      && (out.1 == MissingEmailAndPhone ==> !Given(email) && !Given(phone))
  {
    if Given(email) || Given(phone) {
      if FindByContact(cs, phone, email) != [] {
        FamilyMembersNonEmpty(cs, email, phone, family);
        MergeNeverBlank(cs, email, phone, now, FindByIds(cs, family));
      }
    }
  }

  /** The merge path never answers 400. */
  lemma MergeNeverBlank(cs: seq<Contact>, email: Option<string>, phone: Option<string>, now: int, members: seq<Contact>)
    requires |members| > 0
    ensures MergeOutcome(cs, email, phone, now, members).1 != MissingEmailAndPhone
  {
  }

  /** Consolidation leaves the designated record in place and unchanged, and
      no other record of the consolidated store, nor any appended record
      with a different id, carries its id. */
  lemma DesignatedSurvives(cs: seq<Contact>, members: seq<Contact>, p: Contact, now: int, extra: seq<Contact>)
    requires UniqueIds(cs) && p in cs
    requires forall c :: c in extra ==> c.id != p.id
    ensures var s := DemoteAll(cs, DemoteSet(members, p.id), p.id, now) + extra;
      p in s && forall c :: c in s && c.id == p.id ==> c == p
  {
    var demoted := DemoteAll(cs, DemoteSet(members, p.id), p.id, now);
    var s := demoted + extra;
    var j :| 0 <= j < |cs| && cs[j] == p;
    assert s[j] == p;
    forall c | c in s && c.id == p.id ensures c == p {
      if c !in extra {
        var i :| 0 <= i < |s| && s[i] == c;
        assert cs[i] in cs;
        SameIdSameContact(cs, cs[i], p);
      }
    }
  }

  /** When `p` is the only record with its id, the reply for that id is
      "Primary contact not found" exactly when `p` is not an active
      primary, and otherwise the projection of its hierarchy. */
  lemma ReplyForDesignated(s: seq<Contact>, p: Contact)
    requires p in s && Active(p)
    requires forall c :: c in s && c.id == p.id ==> c == p
    ensures FinalReply(s, p.id) == InternalError(PrimaryNotFound) <==> p.linkPrecedence == Secondary
    ensures p.linkPrecedence == Primary ==>
      FinalReply(s, p.id).Identified? && Some(FinalReply(s, p.id).view) == GenerateContactResponse(s, p.id)
  {
    ResponseShape(s, p.id);
    if p.linkPrecedence == Primary {
      assert IsActivePrimary(p, p.id);
    }
  }

  /** The reply of the merge path, when the gap-fill save (if any) succeeds:
      "Primary contact not found", a 500, exactly when the designated member
      is a secondary (consolidation never promotes it); otherwise the
      projection of the designated primary's hierarchy in the final store,
      to which ResponseShape, ResponseEmails and ResponsePhones apply. */
  lemma MergeReply(cs: seq<Contact>, email: Option<string>, phone: Option<string>, now: int, family: set<int>)
    requires ValidContacts(cs) && FamilyFits(cs, email, phone, family)
    requires Given(email) || Given(phone)
    requires FindByContact(cs, phone, email) != []
    ensures FindByIds(cs, family) != []
    ensures var members := FindByIds(cs, family);
      var p := members[0];
      var out := IdentifyOutcome(cs, email, phone, now, family);
      !NeedsGapFill(members, email, phone) || (ValidPhone(phone) && ValidEmail(email)) ==>
        && (out.1 == InternalError(PrimaryNotFound) <==> p.linkPrecedence == Secondary)
        && (p.linkPrecedence == Primary ==>
              out.1.Identified? && Some(out.1.view) == GenerateContactResponse(out.0, p.id))
  {
    FamilyMembersNonEmpty(cs, email, phone, family);
    var members := FindByIds(cs, family);
    OldestOfSortedIsHead(members);
    assert members[0] in members;
    assert IdentifyOutcome(cs, email, phone, now, family) == MergeOutcome(cs, email, phone, now, members);
    MergeReplyOf(cs, email, phone, now, members);
  }

  /** MergeReply, stated on the members the merge path is handed. */
  lemma MergeReplyOf(cs: seq<Contact>, email: Option<string>, phone: Option<string>, now: int, members: seq<Contact>)
    requires ValidContacts(cs) && (Given(email) || Given(phone))
    requires |members| > 0 && Oldest(members) == members[0]
    requires members[0] in cs && Active(members[0])
    ensures var p := members[0];
      var out := MergeOutcome(cs, email, phone, now, members);
      !NeedsGapFill(members, email, phone) || (ValidPhone(phone) && ValidEmail(email)) ==>
        && (out.1 == InternalError(PrimaryNotFound) <==> p.linkPrecedence == Secondary)
        && (p.linkPrecedence == Primary ==>
              out.1.Identified? && Some(out.1.view) == GenerateContactResponse(out.0, p.id))
  {
    var p := members[0];
    var demoted := DemoteAll(cs, DemoteSet(members, p.id), p.id, now);
    var extra := GapFillRecords(members, email, phone, now, NextId(cs), p.id);
    MergeOutcomeOnSuccess(cs, email, phone, now, members);
    if !NeedsGapFill(members, email, phone) || (ValidPhone(phone) && ValidEmail(email)) {
      assert NextId(cs) != p.id;
      DesignatedSurvives(cs, members, p, now, extra);
      ReplyForDesignated(demoted + extra, p);
    }
  }

  /** The gap-fill secondary when the request brings something new, else nothing. */
  function GapFillRecords(members: seq<Contact>, email: Option<string>, phone: Option<string>, now: int, id: int, pid: int)
    : (r: seq<Contact>)
    ensures forall c :: c in r ==> c.id == id
  {
    if NeedsGapFill(members, email, phone) then [Contact(id, phone, email, Some(pid), Secondary, now, now, None)] else []
  }

  /** Unless the gap-fill save fails, the merge path leaves the consolidated
      store, with the gap-fill secondary appended when one is needed, and
      answers with the final reply for its designated member. */
  lemma MergeOutcomeOnSuccess(cs: seq<Contact>, email: Option<string>, phone: Option<string>, now: int, members: seq<Contact>)
    requires ValidContacts(cs) && (Given(email) || Given(phone))
    requires |members| > 0 && Oldest(members) == members[0] && members[0] in cs
    ensures var p := members[0];
      var s := DemoteAll(cs, DemoteSet(members, p.id), p.id, now) + GapFillRecords(members, email, phone, now, NextId(cs), p.id);
      !NeedsGapFill(members, email, phone) || (ValidPhone(phone) && ValidEmail(email)) ==>
        MergeOutcome(cs, email, phone, now, members) == (s, FinalReply(s, p.id))
  {
    var p := members[0];
    var demoted := DemoteAll(cs, DemoteSet(members, p.id), p.id, now);
    if NeedsGapFill(members, email, phone) {
      assert WellFormed(p);
      DemoteAllKeepsIds(cs, DemoteSet(members, p.id), p.id, now);
      GapFillCreate(demoted, email, phone, now, p.id);
    } else {
      assert demoted + [] == demoted;
    }
  }

  /** The merge path keeps every record in place with its values and adds
      at most the gap-fill record after them; nothing when the family
      already holds the request's values. */
  lemma MergeKeepsRecords(cs: seq<Contact>, email: Option<string>, phone: Option<string>, now: int, members: seq<Contact>)
    requires |members| > 0
    ensures var out := MergeOutcome(cs, email, phone, now, members);
      && KeepsValues(cs, out.0)
      && |out.0| <= |cs| + 1
      && (!NeedsGapFill(members, email, phone) ==> |out.0| == |cs|)
  {
    var p := Oldest(members);
    var demoted := DemoteAll(cs, DemoteSet(members, p.id), p.id, now);
    var out := MergeOutcome(cs, email, phone, now, members);
    assert KeepsValues(cs, demoted);
    if NeedsGapFill(members, email, phone) && CreateOutcome(demoted, GapFillDraft(email, phone, p.id), now).Ok? {
      var g := CreateOutcome(demoted, GapFillDraft(email, phone, p.id), now).value;
      assert out.0 == demoted + [g];
      assert forall i :: 0 <= i < |demoted| ==> out.0[i] == demoted[i];
    } else {
      assert out.0 == demoted;
    }
  }

  /** Each value the request gives is held by some active contact. */
  ghost predicate Covered(cs: seq<Contact>, email: Option<string>, phone: Option<string>) {
    && (Given(email) ==> exists c :: c in cs && Active(c) && c.email == email)
    && (Given(phone) ==> exists c :: c in cs && Active(c) && c.phoneNumber == phone)
  }

  /** A covered request has direct matches. */
  lemma CoveredHasMatches(cs: seq<Contact>, email: Option<string>, phone: Option<string>)
    requires Given(email) || Given(phone)
    requires Covered(cs, email, phone)
    ensures FindByContact(cs, phone, email) != []
  {
    if Given(email) {
      var c :| c in cs && Active(c) && c.email == email;
      assert c in FindByContact(cs, phone, email);
    } else {
      var c :| c in cs && Active(c) && c.phoneNumber == phone;
      assert c in FindByContact(cs, phone, email);
    }
  }

  lemma MatchesInFamily(cs: seq<Contact>, email: Option<string>, phone: Option<string>, family: set<int>)
    requires FamilyFits(cs, email, phone, family)
    requires Given(email) || Given(phone)
    requires FindByContact(cs, phone, email) != []
    ensures Ids(FindByContact(cs, phone, email)) <= family
  {
  }

  /** An active contact matching the request lies in the family when the
      request's direct matches do. */
  lemma MatchInFamily(cs: seq<Contact>, email: Option<string>, phone: Option<string>, family: set<int>, c: Contact)
    requires Ids(FindByContact(cs, phone, email)) <= family
    requires c in cs && Active(c) && MatchesContact(c, phone, email)
    ensures c in FindByIds(cs, family)
  {
    assert c in FindByContact(cs, phone, email);
  }

  /** Members that include every active holder of a covered request's
      values hold all of them. */
  lemma CoveredMembersHoldValues(cs: seq<Contact>, email: Option<string>, phone: Option<string>, members: seq<Contact>)
    requires Covered(cs, email, phone)
    requires forall c :: c in cs && Active(c) && MatchesContact(c, phone, email) ==> c in members
    ensures !NeedsGapFill(members, email, phone)
  {
    var c: Contact;
    if Given(email) {
      c :| c in cs && Active(c) && c.email == email;
    }
    var d: Contact;
    if Given(phone) {
      d :| d in cs && Active(d) && d.phoneNumber == phone;
    }
    assert Given(email) ==> c in members && c.email == email;
    assert Given(phone) ==> d in members && d.phoneNumber == phone;
  }

  /** A request whose values are all held already creates nothing: every
      record keeps its place, id, email and phone number. */
  lemma CoveredRequestCreatesNothing(cs: seq<Contact>, email: Option<string>, phone: Option<string>, now: int, family: set<int>)
    requires FamilyFits(cs, email, phone, family)
    requires Given(email) || Given(phone)
    requires Covered(cs, email, phone)
    ensures var out := IdentifyOutcome(cs, email, phone, now, family);
      |out.0| == |cs| && KeepsValues(cs, out.0)
  {
    CoveredHasMatches(cs, email, phone);
    MatchesInFamily(cs, email, phone, family);
    var members := FindByIds(cs, family);
    forall c | c in cs && Active(c) && MatchesContact(c, phone, email) ensures c in members {
      MatchInFamily(cs, email, phone, family, c);
    }
    CoveredMembersHoldValues(cs, email, phone, members);
    FamilyMembersNonEmpty(cs, email, phone, family);
    assert IdentifyOutcome(cs, email, phone, now, family) == MergeOutcome(cs, email, phone, now, members);
    MergeKeepsRecords(cs, email, phone, now, members);
  }

  /** A demotion keeps every record's contact values and its activity. */
  lemma DemoteAllKeepsCovered(cs: seq<Contact>, ids: set<int>, target: int, now: int, email: Option<string>, phone: Option<string>, members: seq<Contact>)
    requires forall c :: c in members ==> c in cs && Active(c)
    requires !NeedsGapFill(members, email, phone)
    ensures Covered(DemoteAll(cs, ids, target, now), email, phone)
  {
    var r := DemoteAll(cs, ids, target, now);
    if Given(email) {
      var c :| c in members && c.email == email;
      var i :| 0 <= i < |cs| && cs[i] == c;
      assert r[i] in r;
    }
    if Given(phone) {
      var c :| c in members && c.phoneNumber == phone;
      var i :| 0 <= i < |cs| && cs[i] == c;
      assert r[i] in r;
    }
  }

  lemma AppendedCovers(cs: seq<Contact>, c: Contact, email: Option<string>, phone: Option<string>)
    requires Active(c) && c.email == email && c.phoneNumber == phone
    ensures Covered(cs + [c], email, phone)
  {
    assert c in cs + [c];
  }

  /** After a request whose given values pass the validators, the store
      holds each of those values in an active contact. */
  lemma IdentifyLeavesCovered(cs: seq<Contact>, email: Option<string>, phone: Option<string>, now: int, family: set<int>)
    requires ValidContacts(cs) && FamilyFits(cs, email, phone, family)
    requires Given(email) || Given(phone)
    requires ValidPhone(phone) && ValidEmail(email)
    ensures Covered(IdentifyOutcome(cs, email, phone, now, family).0, email, phone)
  {
    var out := IdentifyOutcome(cs, email, phone, now, family);
    if FindByContact(cs, phone, email) == [] {
      NoMatchCreatesPrimary(cs, email, phone, now, family);
      AppendedCovers(cs, Contact(NextId(cs), phone, email, None, Primary, now, now, None), email, phone);
    } else {
      MergeConsolidatesAndGapFills(cs, email, phone, now, family);
      var members := FindByIds(cs, family);
      var p := Oldest(members);
      var demoted := DemoteAll(cs, DemoteSet(members, p.id), p.id, now);
      if NeedsGapFill(members, email, phone) {
        AppendedCovers(demoted, Contact(NextId(cs), phone, email, Some(p.id), Secondary, now, now, None), email, phone);
      } else {
        DemoteAllKeepsCovered(cs, DemoteSet(members, p.id), p.id, now, email, phone, members);
      }
    }
  }

  /** Sending the same valid request twice: the second one adds no record. */
  lemma RepeatCreatesNothing(cs: seq<Contact>, email: Option<string>, phone: Option<string>,
                             now: int, family: set<int>, later: int, family': set<int>)
    requires ValidContacts(cs) && FamilyFits(cs, email, phone, family)
    requires Given(email) || Given(phone)
    requires ValidPhone(phone) && ValidEmail(email)
    requires FamilyFits(IdentifyOutcome(cs, email, phone, now, family).0, email, phone, family')
    ensures var once := IdentifyOutcome(cs, email, phone, now, family).0;
      |IdentifyOutcome(once, email, phone, later, family').0| == |once|
  {
    var once := IdentifyOutcome(cs, email, phone, now, family).0;
    IdentifyLeavesCovered(cs, email, phone, now, family);
    CoveredRequestCreatesNothing(once, email, phone, later, family');
  }

  /** One request adds at most one record, at the end, and never changes an
      existing record's id, email or phone number. */
  lemma IdentifyAddsAtMostOne(cs: seq<Contact>, email: Option<string>, phone: Option<string>, now: int, family: set<int>)
    requires FamilyFits(cs, email, phone, family)
    ensures var out := IdentifyOutcome(cs, email, phone, now, family);
      |out.0| <= |cs| + 1 && KeepsValues(cs, out.0)
  {
    var out := IdentifyOutcome(cs, email, phone, now, family);
    if (Given(email) || Given(phone)) && FindByContact(cs, phone, email) != [] {
      var members := FindByIds(cs, family);
      FamilyMembersNonEmpty(cs, email, phone, family);
      assert out == MergeOutcome(cs, email, phone, now, members);
      MergeKeepsRecords(cs, email, phone, now, members);
    } else {
      assert out.0 == cs || out.0[..|cs|] == cs;
      assert forall i :: 0 <= i < |cs| ==> out.0[i] == cs[i];
    }
  }

  // ---------------------------------------------------------------------
  // The hierarchy endpoint

  /** The route parameter as the endpoint sees it: missing or empty, text
      that is not a number, or a number together with the integer its
      integer parse yields. */
  /** The route parameter as the endpoint's guard and `parseInt` see it:
      missing or empty, rejected by `isNaN`, accepted by `isNaN` but parsed
      to NaN (such as "Infinity" or " "), or parsed to an integer. */
  datatype IdParam = Absent | NotANumber | Unparsable | Numeric(value: int)

  datatype HierarchyReply =
    | HierarchyFound(primary: Contact, secondary: seq<Contact>, totalContacts: int)
    | InvalidId
    | ContactNotFound
    | HierarchyLookupFailed
  {
    function Status(): int {
      match this
      case HierarchyFound(_, _, _) => 200
      case InvalidId => 400
      case ContactNotFound => 404
      case HierarchyLookupFailed => 500
    }
  }

  /** The hierarchy endpoint: 400 when the parameter is missing or not a
      number, 500 when it parses to NaN (the lookup cannot cast NaN to a
      number and throws), 404 unless an active primary has the id, otherwise
      the primary, its active secondaries oldest first, and their count
      plus one. */
  function HierarchyEndpoint(cs: seq<Contact>, param: IdParam): (r: HierarchyReply)
    ensures r.InvalidId? <==> param.Absent? || param.NotANumber?
    ensures r.HierarchyLookupFailed? <==> param.Unparsable?
    ensures param.Numeric? ==> (r.ContactNotFound? <==> forall c :: c in cs ==> !IsActivePrimary(c, param.value))
    ensures r.HierarchyFound? ==>
      && r.primary in cs && IsActivePrimary(r.primary, param.value)
      && SortedByCreated(r.secondary)
      && (forall c :: c in r.secondary <==> c in cs && IsActiveSecondaryOf(c, param.value))
      && r.totalContacts == 1 + |r.secondary|
  {
    match param
    case Absent => InvalidId
    case NotANumber => InvalidId
    case Unparsable => HierarchyLookupFailed
    case Numeric(id) =>
      match GetContactHierarchy(cs, id)
      case None => ContactNotFound
      case Some(h) => HierarchyFound(h.primary, h.secondary, |h.All()|)
  }

  /** Asking for the id of a secondary contact answers 404, because
      hierarchies are keyed by their primary. */
  lemma SecondaryIdNotFound(cs: seq<Contact>, c: Contact)
    requires UniqueIds(cs) && c in cs && c.linkPrecedence == Secondary
    ensures HierarchyEndpoint(cs, Numeric(c.id)) == ContactNotFound
  {
    forall x | x in cs && x.id == c.id ensures !IsActivePrimary(x, c.id) {
      SameIdSameContact(cs, x, c);
    }
  }
}
