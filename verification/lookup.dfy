/** The candidate lookup of the identify routine (`findPrimaryContacts`):
    a filter over the contacts table followed by ORDER BY createdAt. */
module Lookup {
  import opened Contacts
  import opened Ordering

  /** Some secondary row whose own email or phone equals a supplied value
      links to `id` (the `id IN (SELECT DISTINCT linked_id ...)` branch).
      Nothing requires the row with that id to be a primary. */
  predicate LinkedByHit(rows: seq<Contact>, id: nat, email: Option<string>, phoneNumber: Option<string>) {
    exists s :: s in rows && s.linkPrecedence == Secondary && s.linkedId == Some(id) && Hits(s, email, phoneNumber)
  }

  /** The WHERE clause of the lookup, for row `c` of table `rows`. */
  predicate IsCandidate(rows: seq<Contact>, c: Contact, email: Option<string>, phoneNumber: Option<string>) {
    || (c.linkPrecedence == Primary && Hits(c, email, phoneNumber))
    || LinkedByHit(rows, c.id, email, phoneNumber)
  }

  /** The rows of `s` that satisfy the WHERE clause evaluated against `rows`. */
  function Select(rows: seq<Contact>, s: seq<Contact>, email: Option<string>, phoneNumber: Option<string>): (r: seq<Contact>)
    ensures forall c :: c in r <==> c in s && IsCandidate(rows, c, email, phoneNumber)
  {
    if s == [] then
      []
    else
      assert s == [s[0]] + s[1..];
      (if IsCandidate(rows, s[0], email, phoneNumber) then [s[0]] else []) + Select(rows, s[1..], email, phoneNumber)
  }

  lemma {:induction false} SelectKeepsIdsUnique(rows: seq<Contact>, s: seq<Contact>, email: Option<string>, phoneNumber: Option<string>)
    requires UniqueIds(s)
    ensures UniqueIds(Select(rows, s, email, phoneNumber))
  {
    if s != [] {
      assert s == [s[0]] + s[1..];
      UniqueIdsTail(s);
      SelectKeepsIdsUnique(rows, s[1..], email, phoneNumber);
      var rest := Select(rows, s[1..], email, phoneNumber);
      if IsCandidate(rows, s[0], email, phoneNumber) {
        ConsFromTailKeepsIdsUnique(s, rest);
      }
    }
  }

  /** `findPrimaryContacts`: exactly the rows that satisfy the WHERE
      clause, oldest first. */
  function Candidates(rows: seq<Contact>, email: Option<string>, phoneNumber: Option<string>): (r: seq<Contact>)
    ensures forall c :: c in r <==> c in rows && IsCandidate(rows, c, email, phoneNumber)
    ensures Sorted(ByAge, r)
  {
    var selected := Select(rows, rows, email, phoneNumber);
    var r := SortBy(ByAge, selected);
    assert forall c :: c in r <==> c in multiset(selected);
    r
  }

  /** In a table with unique ids the lookup returns no row twice. */
  lemma CandidatesHaveUniqueIds(rows: seq<Contact>, email: Option<string>, phoneNumber: Option<string>)
    requires UniqueIds(rows)
    ensures UniqueIds(Candidates(rows, email, phoneNumber))
  {
    SelectKeepsIdsUnique(rows, rows, email, phoneNumber);
    SortKeepsIdsUnique(ByAge, Select(rows, rows, email, phoneNumber));
  }

  /** A row that satisfies the WHERE clause and is no younger than every
      other row that does comes first in the lookup. */
  lemma OldestCandidate(rows: seq<Contact>, email: Option<string>, phoneNumber: Option<string>, x: Contact)
    requires UniqueIds(rows) && x in rows && IsCandidate(rows, x, email, phoneNumber)
    requires forall c :: c in rows && IsCandidate(rows, c, email, phoneNumber) ==> Le(ByAge, x, c)
    ensures |Candidates(rows, email, phoneNumber)| > 0
    ensures Candidates(rows, email, phoneNumber)[0] == x
  {
    var r := Candidates(rows, email, phoneNumber);
    assert x in r;
    var j :| 0 <= j < |r| && r[j] == x;
    if j > 0 {
      LeAntisymmetric(ByAge, r[0], x);
      SameIdSameRow(rows, r[0], x);
    }
  }

  /** When `x` is the only row that satisfies the WHERE clause, the lookup
      returns `x` alone. */
  lemma SoleCandidate(rows: seq<Contact>, email: Option<string>, phoneNumber: Option<string>, x: Contact)
    requires UniqueIds(rows) && x in rows && IsCandidate(rows, x, email, phoneNumber)
    requires forall c :: c in rows && IsCandidate(rows, c, email, phoneNumber) ==> c == x
    ensures Candidates(rows, email, phoneNumber) == [x]
  {
    var r := Candidates(rows, email, phoneNumber);
    CandidatesHaveUniqueIds(rows, email, phoneNumber);
    assert x in r;
    var last := |r| - 1;
    assert r[0] in r && r[last] in r;
    assert r[0] == x && r[last] == x;
    assert last == 0;
  }
}
