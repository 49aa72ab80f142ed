/** Request sequences run against a fresh store. */
module Scenarios {
  import opened Contacts
  import opened Ordering
  import opened Lookup
  import opened Assembly
  import opened Writes
  import opened Store

  const email: Option<string> := Some("a@x.com")
  const phone1: Option<string> := Some("1")
  const phone2: Option<string> := Some("2")
  const first: Contact := NewPrimary(1, 0, email, phone1)
  const link2: Contact := NewSecondary(2, 1, email, phone2, 1)
  const link3: Contact := NewSecondary(3, 2, email, phone2, 1)

  lemma EmptyTableHasNoCandidates()
    ensures Candidates([], email, phone1) == []
  {
  }

  lemma FirstIsSoleCandidate()
    ensures Candidates([first], email, phone2) == [first] && NeedsSecondary(first, email, phone2)
  {
    SoleCandidate([first], email, phone2, first);
  }

  lemma FirstStaysSoleCandidate()
    ensures Candidates([first, link2], email, phone2) == [first]
  {
    SoleCandidate([first, link2], email, phone2, first);
  }

  /** The rows the requests create, field by field. */
  lemma RowValues()
    ensures first == Contact(1, Some("a@x.com"), Some("1"), None, Primary, 0, 0)
    ensures link2 == Contact(2, Some("a@x.com"), Some("2"), Some(1), Secondary, 1, 1)
    ensures link3 == Contact(3, Some("a@x.com"), Some("2"), Some(1), Secondary, 2, 2)
  {
    assert Given(email) && Given(phone1) && Given(phone2);
  }

  lemma LinkedRowsMembers(x: Contact, y: Contact, z: Contact)
    requires x.linkedId.None? && y.linkedId == Some(x.id) && z.linkedId == Some(x.id)
    ensures Members([x, y], x.id) == [x, y]
    ensures Members([x, y, z], x.id) == [x, y, z]
  {
    assert [y][1..] == [] && [z][1..] == [];
    MembersAppend([x], y, x.id);
    MembersAppend([x, y], z, x.id);
    assert [x] + [y] == [x, y] && [x, y] + [z] == [x, y, z];
  }

  lemma SortOne(o: Order, y: Contact)
    ensures SortBy(o, [y]) == [y]
  {
    assert [y][1..] == [];
  }

  lemma InsertFront(o: Order, x: Contact, s: seq<Contact>)
    requires Sorted(o, s) && (s == [] || Le(o, x, s[0]))
    ensures Insert(o, x, s) == [x] + s
  {
  }

  lemma SortTwo(o: Order, y: Contact, z: Contact)
    requires Le(o, y, z)
    ensures SortBy(o, [y, z]) == [y, z]
  {
    SortOne(o, z);
    assert [y, z][1..] == [z];
    InsertFront(o, y, [z]);
  }

  lemma SortThree(o: Order, x: Contact, y: Contact, z: Contact)
    requires Le(o, x, y) && Le(o, y, z)
    ensures SortBy(o, [x, y, z]) == [x, y, z]
  {
    SortTwo(o, y, z);
    assert [x, y, z][1..] == [y, z];
    InsertFront(o, x, [y, z]);
  }

  lemma LinkedRowsSorted(x: Contact, y: Contact, z: Contact)
    requires x.linkPrecedence == Primary && y.linkPrecedence == Secondary && z.linkPrecedence == Secondary
    requires y.updatedAt < z.updatedAt
    ensures SortBy(ClusterOrder, [x, y]) == [x, y]
    ensures SortBy(ClusterOrder, [x, y, z]) == [x, y, z]
  {
    assert Le(ClusterOrder, x, y) && Le(ClusterOrder, y, z);
    SortTwo(ClusterOrder, x, y);
    SortThree(ClusterOrder, x, y, z);
  }

  /** A primary and the secondaries linked to it, oldest update first,
      are their own cluster, in that order. */
  lemma LinkedRowsCluster(x: Contact, y: Contact, z: Contact)
    requires x.linkPrecedence == Primary && x.linkedId.None?
    requires y.linkPrecedence == Secondary && y.linkedId == Some(x.id)
    requires z.linkPrecedence == Secondary && z.linkedId == Some(x.id)
    requires y.updatedAt < z.updatedAt
    ensures ClusterOf([x, y], x.id) == [x, y]
    ensures ClusterOf([x, y, z], x.id) == [x, y, z]
  {
    LinkedRowsMembers(x, y, z);
    LinkedRowsSorted(x, y, z);
  }

  lemma PresentOne(col: Column, x: Contact)
    requires Value(col, x).Some?
    ensures Present(col, [x]) == [Value(col, x).value]
  {
    assert [x][1..] == [];
  }

  lemma PresentTwo(col: Column, x: Contact, y: Contact)
    requires Value(col, x).Some? && Value(col, y).Some?
    ensures Present(col, [x, y]) == [Value(col, x).value, Value(col, y).value]
  {
    PresentOne(col, x);
    PresentOne(col, y);
    assert [x, y] == [x] + [y];
    PresentAppend(col, [x], [y]);
  }

  lemma PresentThree(col: Column, x: Contact, y: Contact, z: Contact)
    requires Value(col, x).Some? && Value(col, y).Some? && Value(col, z).Some?
    ensures Present(col, [x, y, z]) == [Value(col, x).value, Value(col, y).value, Value(col, z).value]
  {
    PresentTwo(col, x, y);
    PresentOne(col, z);
    assert [x, y, z] == [x, y] + [z];
    PresentAppend(col, [x, y], [z]);
  }

  lemma SecondariesOfLinked(x: Contact, y: Contact, z: Contact)
    requires x.linkPrecedence == Primary && y.linkPrecedence == Secondary && z.linkPrecedence == Secondary
    ensures Secondaries([x, y]) == [y]
    ensures Secondaries([x, y, z]) == [y, z]
  {
    assert [x][1..] == [] && [y][1..] == [] && [z][1..] == [];
    assert [x, y] == [x] + [y] && [x, y, z] == [x, y] + [z];
    SecondariesAppend([x], [y]);
    SecondariesAppend([x, y], [z]);
  }

  /** A value followed by another: the Set spread keeps the second only
      when it differs from the first. */
  lemma DedupPair(l: seq<string>)
    requires |l| == 2
    ensures Dedup(l) == if l[0] == l[1] then l[..1] else l
  {
    var p := l[..1];
    DedupShort(p);
    assert l == p + [l[1]];
    DedupSnoc(p, l[1]);
  }

  lemma DedupRepeated(a: string)
    ensures Dedup([a, a]) == [a] && Dedup([a, a, a]) == [a]
  {
    var l := [a, a];
    DedupPair(l);
    DedupSnoc(l, a);
    assert l + [a] == [a, a, a];
  }

  lemma DedupDistinct(a: string, b: string)
    requires a != b
    ensures Dedup([a, b]) == [a, b]
  {
    DedupPair([a, b]);
  }

  lemma DedupDistinctRepeated(a: string, b: string)
    requires a != b
    ensures Dedup([a, b, b]) == [a, b]
  {
    DedupDistinct(a, b);
    assert [a, b] + [b] == [a, b, b];
    assert b in [a, b];
    DedupSnoc([a, b], b);
  }

  /** A primary `x` and secondaries `y`, `z` linked to it, `y` updated
      first, all holding the same email. */
  predicate LinkedRows(x: Contact, y: Contact, z: Contact) {
    && x.linkPrecedence == Primary && x.linkedId.None?
    && y.linkPrecedence == Secondary && y.linkedId == Some(x.id)
    && z.linkPrecedence == Secondary && z.linkedId == Some(x.id)
    && y.updatedAt < z.updatedAt
    && x.email.Some? && y.email == x.email && z.email == x.email
    && x.phoneNumber.Some? && y.phoneNumber.Some? && z.phoneNumber.Some?
  }

  lemma LinkedEmails(x: Contact, y: Contact, z: Contact)
    requires LinkedRows(x, y, z)
    ensures Assemble([x, y], x.id).emails == [x.email.value]
    ensures Assemble([x, y, z], x.id).emails == [x.email.value]
  {
    LinkedRowsCluster(x, y, z);
    PresentTwo(EmailColumn, x, y);
    PresentThree(EmailColumn, x, y, z);
    DedupRepeated(x.email.value);
  }

  lemma LinkedPhones(x: Contact, y: Contact, z: Contact)
    requires LinkedRows(x, y, z) && x.phoneNumber != y.phoneNumber
    ensures Assemble([x, y], x.id).phoneNumbers == [x.phoneNumber.value, y.phoneNumber.value]
  {
    LinkedRowsCluster(x, y, z);
    PresentTwo(PhoneColumn, x, y);
    DedupDistinct(x.phoneNumber.value, y.phoneNumber.value);
  }

  lemma RelinkedPhones(x: Contact, y: Contact, z: Contact)
    requires LinkedRows(x, y, z) && x.phoneNumber != y.phoneNumber && z.phoneNumber == y.phoneNumber
    ensures Assemble([x, y, z], x.id).phoneNumbers == [x.phoneNumber.value, y.phoneNumber.value]
  {
    LinkedRowsCluster(x, y, z);
    PresentThree(PhoneColumn, x, y, z);
    DedupDistinctRepeated(x.phoneNumber.value, y.phoneNumber.value);
  }

  lemma IdsShort(y: Contact, z: Contact)
    ensures Ids([y]) == [y.id] && Ids([y, z]) == [y.id, z.id]
  {
  }

  lemma LinkedIds(x: Contact, y: Contact, z: Contact)
    requires LinkedRows(x, y, z)
    ensures Assemble([x, y], x.id).secondaryContactIds == [y.id]
    ensures Assemble([x, y, z], x.id).secondaryContactIds == [y.id, z.id]
  {
    LinkedRowsCluster(x, y, z);
    SecondariesOfLinked(x, y, z);
    IdsShort(y, z);
  }

  /** The response when the table is `first` and `link2`. */
  lemma LinkedResponse(rows: seq<Contact>)
    requires rows == [first, link2]
    ensures Assemble(rows, 1) == Response(1, ["a@x.com"], ["1", "2"], [2])
  {
    RowValues();
    LinkedEmails(first, link2, link3);
    LinkedPhones(first, link2, link3);
    LinkedIds(first, link2, link3);
  }

  /** The response when the table is `first`, `link2` and `link3`. */
  lemma RelinkedResponse(rows: seq<Contact>)
    requires rows == [first, link2, link3]
    ensures Assemble(rows, 1) == Response(1, ["a@x.com"], ["1", "2"], [2, 3])
  {
    RowValues();
    LinkedEmails(first, link2, link3);
    RelinkedPhones(first, link2, link3);
    LinkedIds(first, link2, link3);
  }

  /** Before the second request: `first` alone matches, and linking
      `link2` gives the cluster of `first` and `link2`. */
  lemma ReadyToLink(rows: seq<Contact>, nextId: nat, clock: nat)
    requires rows == [first] && nextId == 2 && clock == 1
    ensures Candidates(rows, email, phone2) == [first]
    ensures rows + [NewSecondary(nextId, clock, email, phone2, 1)] == [first, link2]
    ensures Assemble(rows + [NewSecondary(nextId, clock, email, phone2, 1)], 1) == Response(1, ["a@x.com"], ["1", "2"], [2])
  {
    FirstIsSoleCandidate();
    LinkedResponse(rows + [NewSecondary(nextId, clock, email, phone2, 1)]);
  }

  /** Before the third request: `first` still alone matches, and linking
      `link3` adds it to the cluster. */
  lemma ReadyToRelink(rows: seq<Contact>, nextId: nat, clock: nat)
    requires rows == [first, link2] && nextId == 3 && clock == 2
    ensures Candidates(rows, email, phone2) == [first]
    ensures rows + [NewSecondary(nextId, clock, email, phone2, 1)] == [first, link2, link3]
    ensures Assemble(rows + [NewSecondary(nextId, clock, email, phone2, 1)], 1) == Response(1, ["a@x.com"], ["1", "2"], [2, 3])
  {
    FirstStaysSoleCandidate();
    RelinkedResponse(rows + [NewSecondary(nextId, clock, email, phone2, 1)]);
  }

  /** `identify(email, phone1)` on an empty store creates `first` and
      answers with it alone. */
  method NewIdentity() returns (store: ContactStore, res: Outcome)
    ensures fresh(store) && store.Valid()
    ensures store.rows == [first] && store.nextId == 2 && store.clock == 1
    ensures res == Ok(Response(1, ["a@x.com"], ["1"], []))
  {
    var isEmail := (s: string) => true;
    store := new ContactStore();
    EmptyTableHasNoCandidates();
    assert isEmail(email.value);
    res := store.Identify(email, phone1, isEmail);
  }

  /** `identify(email, phone2)` while `first` is the sole candidate links a
      new secondary to `first` and answers with the cluster of `first`,
      given here as `expected`. */
  method LinkPhone2(store: ContactStore, ghost expected: Response) returns (res: Outcome)
    requires store.Valid() && Candidates(store.rows, email, phone2) == [first]
    requires Assemble(store.rows + [NewSecondary(store.nextId, store.clock, email, phone2, 1)], 1) == expected
    modifies store
    ensures store.Valid()
    ensures store.rows == old(store.rows) + [NewSecondary(old(store.nextId), old(store.clock), email, phone2, 1)]
    ensures store.nextId == old(store.nextId) + 1 && store.clock == old(store.clock) + 1
    ensures res == Ok(expected)
  {
    var isEmail := (s: string) => true;
    assert NeedsSecondary(first, email, phone2);
    assert isEmail(email.value);
    res := store.Identify(email, phone2, isEmail);
  }

  /** `identify(email, phone1)` then `identify(email, phone2)` on an empty
      store: `first`, and `link2` linked to it; the response lists both
      phone numbers and `link2` as the one secondary. */
  method LinkOnce() returns (store: ContactStore, second: Outcome)
    ensures fresh(store) && store.Valid()
    ensures store.rows == [first, link2] && store.nextId == 3 && store.clock == 2
    ensures second == Ok(Response(1, ["a@x.com"], ["1", "2"], [2]))
  {
    var created;
    store, created := NewIdentity();
    ReadyToLink(store.rows, store.nextId, store.clock);
    second := LinkPhone2(store, Response(1, ["a@x.com"], ["1", "2"], [2]));
  }

  /** The same request again, on the store `LinkOnce` leaves: `link3`
      joins the table, and the response lists it too. */
  method LinkAgain(store: ContactStore) returns (third: Outcome)
    requires store.Valid() && store.rows == [first, link2] && store.nextId == 3 && store.clock == 2
    modifies store
    ensures store.rows == [first, link2, link3] && store.nextId == 4 && store.clock == 3
    ensures third == Ok(Response(1, ["a@x.com"], ["1", "2"], [2, 3]))
  {
    ReadyToRelink(store.rows, store.nextId, store.clock);
    third := LinkPhone2(store, Response(1, ["a@x.com"], ["1", "2"], [2, 3]));
  }

  /** Repeating a request that links a new phone number to a known email
      adds a secondary row each time: the single-candidate branch compares
      the request with the candidate's own values only, never with the
      secondaries already linked to it. */
  method RepeatedLink() returns (second: Outcome, third: Outcome)
    ensures second == Ok(Response(1, ["a@x.com"], ["1", "2"], [2]))
    ensures third == Ok(Response(1, ["a@x.com"], ["1", "2"], [2, 3]))
    ensures second != third
  {
    var store;
    store, second := LinkOnce();
    third := LinkAgain(store);
  }
}

/** After a merge, a secondary that was linked to the demoted primary
    still points at it, so a request that hits only that secondary finds
    the demoted row, itself a secondary, as its sole candidate. */
module Chains {
  import opened Contacts
  import opened Ordering
  import opened Lookup
  import opened Assembly
  import opened Writes
  import opened Store

  const emailA: Option<string> := Some("a@x.com")
  const emailB: Option<string> := Some("b@x.com")
  const phone1: Option<string> := Some("1")
  const phone2: Option<string> := Some("2")
  const phone3: Option<string> := Some("3")

  const survivor: Contact := Contact(1, Some("a@x.com"), Some("1"), None, Primary, 0, 0)
  const primary2: Contact := Contact(2, Some("b@x.com"), Some("2"), None, Primary, 1, 1)
  const demoted: Contact := Contact(2, Some("b@x.com"), Some("2"), Some(1), Secondary, 1, 3)
  const below: Contact := Contact(3, Some("b@x.com"), Some("3"), Some(2), Secondary, 2, 2)

  /** A well-formed table in which the lookup for phone number "3" returns
      a secondary row, which the routine then reports as the primary. */
  lemma ReportedRowCanBeSecondary()
    ensures TableOk([survivor, demoted, below], 4, 4)
    ensures Candidates([survivor, demoted, below], None, Some("3")) == [demoted]
    ensures demoted.linkPrecedence == Secondary
  {
    var rows := [survivor, demoted, below];
    assert IdsOf(rows) == {1, 2, 3} by {
      assert survivor in rows && demoted in rows && below in rows;
    }
    assert below in rows;
    SoleCandidate(rows, None, Some("3"), demoted);
  }

  /** (a@x.com, "1") on the empty table creates `survivor`. */
  lemma FirstStep(rows: seq<Contact>, nextId: nat, clock: nat)
    requires rows == [] && nextId == 1 && clock == 0
    ensures Candidates(rows, emailA, phone1) == []
    ensures rows + [NewPrimary(nextId, clock, emailA, phone1)] == [survivor]
  {
  }

  /** (b@x.com, "2") matches nothing and creates the primary `primary2`. */
  lemma SecondStep(rows: seq<Contact>, nextId: nat, clock: nat)
    requires rows == [survivor] && nextId == 2 && clock == 1
    ensures Candidates(rows, emailB, phone2) == []
    ensures rows + [NewPrimary(nextId, clock, emailB, phone2)] == [survivor, primary2]
  {
    assert !IsCandidate(rows, survivor, emailB, phone2) && rows[1..] == [];
    assert Select(rows, rows, emailB, phone2) == [];
  }

  /** (b@x.com, "3") finds `primary2` alone and links `below` to it. */
  lemma ThirdStep(rows: seq<Contact>, nextId: nat, clock: nat)
    requires rows == [survivor, primary2] && nextId == 3 && clock == 2
    ensures Candidates(rows, emailB, phone3) == [primary2]
    ensures NeedsSecondary(primary2, emailB, phone3)
    ensures rows + [NewSecondary(nextId, clock, emailB, phone3, 2)] == [survivor, primary2, below]
  {
    SoleCandidate(rows, emailB, phone3, primary2);
  }

  /** When exactly two rows `x` and `y` match and `x` is the older, the
      lookup returns `x` first and `y` is the one row after it. */
  lemma TwoCandidates(rows: seq<Contact>, email: Option<string>, phoneNumber: Option<string>, x: Contact, y: Contact)
    requires UniqueIds(rows) && x in rows && y in rows && x.id != y.id
    requires IsCandidate(rows, x, email, phoneNumber) && IsCandidate(rows, y, email, phoneNumber)
    requires forall c :: c in rows && IsCandidate(rows, c, email, phoneNumber) ==> c == x || c == y
    requires Le(ByAge, x, y)
    ensures var cs := Candidates(rows, email, phoneNumber);
      |cs| >= 2 && cs[0] == x && IdsOf(cs[1..]) == {y.id}
  {
    var cs := Candidates(rows, email, phoneNumber);
    OldestCandidate(rows, email, phoneNumber, x);
    CandidatesHaveUniqueIds(rows, email, phoneNumber);
    assert y in cs;
    var k :| 0 <= k < |cs| && cs[k] == y;
    assert cs[1..][k - 1] == y;
    forall c | c in cs[1..]
      ensures c.id == y.id
    {
      var j :| 1 <= j < |cs| && cs[j] == c;
      assert c in cs;
    }
    assert y in cs[1..];
  }

  /** (a@x.com, "2") finds both primaries, `survivor` first. */
  lemma FourthCandidates(rows: seq<Contact>)
    requires rows == [survivor, primary2, below]
    ensures var cs := Candidates(rows, emailA, phone2);
      |cs| >= 2 && cs[0] == survivor && IdsOf(cs[1..]) == {2}
  {
    assert !IsCandidate(rows, below, emailA, phone2);
    TwoCandidates(rows, emailA, phone2, survivor, primary2);
  }

  /** The merge demotes `primary2` under `survivor`; `below` keeps
      pointing at row 2. */
  lemma FourthDemoted(rows: seq<Contact>, clock: nat)
    requires rows == [survivor, primary2, below] && clock == 3
    ensures Demoted(rows, {2}, 1, clock) == [survivor, demoted, below]
  {
  }

  lemma FourthStep(rows: seq<Contact>, nextId: nat, clock: nat)
    requires rows == [survivor, primary2, below] && nextId == 4 && clock == 3
    ensures var cs := Candidates(rows, emailA, phone2);
      && |cs| >= 2 && cs[0] == survivor
      && Demoted(rows, IdsOf(cs[1..]), cs[0].id, clock) == [survivor, demoted, below]
  {
    FourthCandidates(rows);
    FourthDemoted(rows, clock);
  }

  /** A table of three rows `x`, `y` and `z`. */
  predicate RowsAre(rows: seq<Contact>, x: Contact, y: Contact, z: Contact) {
    x in rows && y in rows && z in rows && forall c :: c in rows ==> c == x || c == y || c == z
  }

  /** The cluster of a secondary `y` that `z` points at, in a table whose
      third row `x` is outside it: the emails are those of `y` and `z`. */
  lemma SecondaryClusterEmails(rows: seq<Contact>, x: Contact, y: Contact, z: Contact)
    requires RowsAre(rows, x, y, z) && !InCluster(x, y.id) && InCluster(z, y.id)
    ensures forall e :: e in Assemble(rows, y.id).emails <==> Some(e) == y.email || Some(e) == z.email
  {
    AssembleLists(rows, y.id);
  }

  /** The same for the phone numbers. */
  lemma SecondaryClusterPhones(rows: seq<Contact>, x: Contact, y: Contact, z: Contact)
    requires RowsAre(rows, x, y, z) && !InCluster(x, y.id) && InCluster(z, y.id)
    ensures forall p :: p in Assemble(rows, y.id).phoneNumbers <==> Some(p) == y.phoneNumber || Some(p) == z.phoneNumber
  {
    AssembleLists(rows, y.id);
  }

  /** Both rows of that cluster are listed as secondaries, `y` included. */
  lemma SecondaryClusterIds(rows: seq<Contact>, x: Contact, y: Contact, z: Contact)
    requires RowsAre(rows, x, y, z) && InCluster(z, y.id)
    requires y.linkPrecedence == Secondary && z.linkPrecedence == Secondary
    ensures y.id in Assemble(rows, y.id).secondaryContactIds && z.id in Assemble(rows, y.id).secondaryContactIds
  {
    AssembleLists(rows, y.id);
  }

  /** (none, "3") finds only row 2, now a secondary, and writes nothing;
      the response for row 2 holds the values of rows 2 and 3 only. */
  lemma FifthStep(rows: seq<Contact>)
    requires rows == [survivor, demoted, below]
    ensures Candidates(rows, None, phone3) == [demoted]
    ensures !NeedsSecondary(demoted, None, phone3)
    ensures var r := Assemble(rows, 2);
      && "b@x.com" in r.emails && "a@x.com" !in r.emails
      && "2" in r.phoneNumbers && "3" in r.phoneNumbers && "1" !in r.phoneNumbers
      && 2 in r.secondaryContactIds && 3 in r.secondaryContactIds
  {
    ReportedRowCanBeSecondary();
    assert RowsAre(rows, survivor, demoted, below);
    SecondaryClusterEmails(rows, survivor, demoted, below);
    SecondaryClusterPhones(rows, survivor, demoted, below);
    SecondaryClusterIds(rows, survivor, demoted, below);
  }

  /** (a@x.com, "1") then (b@x.com, "2") on an empty table: two unrelated
      primaries. */
  method TwoPrimaries() returns (store: ContactStore)
    ensures fresh(store) && store.Valid()
    ensures store.rows == [survivor, primary2] && store.nextId == 3 && store.clock == 2
  {
    var isEmail := (s: string) => true;
    store := new ContactStore();
    FirstStep(store.rows, store.nextId, store.clock);
    var res := store.Identify(emailA, phone1, isEmail);
    SecondStep(store.rows, store.nextId, store.clock);
    res := store.Identify(emailB, phone2, isEmail);
  }

  /** (b@x.com, "3"): `below` is linked to `primary2`. */
  method LinkBelow(store: ContactStore)
    requires store.Valid() && store.rows == [survivor, primary2] && store.nextId == 3 && store.clock == 2
    modifies store
    ensures store.Valid()
    ensures store.rows == [survivor, primary2, below] && store.nextId == 4 && store.clock == 3
  {
    var isEmail := (s: string) => true;
    ThirdStep(store.rows, store.nextId, store.clock);
    assert isEmail(emailB.value);
    var res := store.Identify(emailB, phone3, isEmail);
  }

  /** (a@x.com, "2"): the two primaries merge under `survivor`. */
  method MergePrimaries(store: ContactStore)
    requires store.Valid() && store.rows == [survivor, primary2, below] && store.nextId == 4 && store.clock == 3
    modifies store
    ensures store.Valid()
    ensures store.rows == [survivor, demoted, below] && store.nextId == 4 && store.clock == 4
  {
    var isEmail := (s: string) => true;
    FourthStep(store.rows, store.nextId, store.clock);
    var res := store.Identify(emailA, phone2, isEmail);
  }

  /** (none, "3"): row 2 is reported. */
  method ReachDemoted(store: ContactStore) returns (res: Outcome)
    requires store.Valid() && store.rows == [survivor, demoted, below]
    modifies store
    ensures store.rows == [survivor, demoted, below] && unchanged(store)
    ensures res.Ok? && res.response.primaryContactId == 2
    ensures 2 in res.response.secondaryContactIds && 3 in res.response.secondaryContactIds
    ensures "b@x.com" in res.response.emails && "a@x.com" !in res.response.emails
    ensures "2" in res.response.phoneNumbers && "3" in res.response.phoneNumbers && "1" !in res.response.phoneNumbers
  {
    var isEmail := (s: string) => true;
    FifthStep(store.rows);
    res := store.Identify(None, phone3, isEmail);
  }

  /** Five requests from an empty table. After the merge in the fourth,
      the fifth reaches only the demoted row 2 and reports it as the
      primary: row 2 is a secondary, is listed among its own secondary
      ids, and the response leaves out the survivor's email and phone. */
  method SecondaryReported() returns (store: ContactStore, res: Outcome)
    ensures fresh(store) && store.Valid()
    ensures store.rows == [survivor, demoted, below] && store.nextId == 4 && store.clock == 4
    ensures res.Ok? && res.response.primaryContactId == 2 && demoted.linkPrecedence == Secondary
    ensures 2 in res.response.secondaryContactIds && 3 in res.response.secondaryContactIds
    ensures "b@x.com" in res.response.emails && "a@x.com" !in res.response.emails
    ensures "2" in res.response.phoneNumbers && "3" in res.response.phoneNumbers && "1" !in res.response.phoneNumbers
  {
    store := TwoPrimaries();
    LinkBelow(store);
    MergePrimaries(store);
    res := ReachDemoted(store);
  }
}
