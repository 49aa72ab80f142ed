/** The two ORDER BY clauses of the identify routine, as sort keys, and an
    insertion sort proved to sort by them and to permute its input. */
module Ordering {
  import opened Contacts

  /** `ByAge`: ORDER BY createdAt ASC (the candidate lookup).
      `ClusterOrder`: ORDER BY linkPrecedence ASC, then updatedAt for
      secondaries, then createdAt for primaries (the cluster query).
      Rows the database would leave tied are ordered by id. */
  datatype Order = ByAge | ClusterOrder

  function Key(o: Order, c: Contact): (int, int, int) {
    match o
    case ByAge => (c.createdAt, c.id, 0)
    case ClusterOrder =>
      if c.linkPrecedence == Primary then (0, c.createdAt, c.id) else (1, c.updatedAt, c.id)
  }

  /** Lexicographic order on keys: a total preorder on rows. */
  predicate Le(o: Order, a: Contact, b: Contact) {
    var ka, kb := Key(o, a), Key(o, b);
    ka.0 < kb.0 || (ka.0 == kb.0 && (ka.1 < kb.1 || (ka.1 == kb.1 && ka.2 <= kb.2)))
  }

  predicate Sorted(o: Order, s: seq<Contact>) {
    forall i, j :: 0 <= i < j < |s| ==> Le(o, s[i], s[j])
  }

  /** Both keys include the id, so rows ordered both ways share an id. */
  lemma LeAntisymmetric(o: Order, a: Contact, b: Contact)
    requires Le(o, a, b) && Le(o, b, a)
    ensures a.id == b.id
  {
  }

  /** A row that is no greater than every row of a sorted sequence can be
      put in front of it. */
  lemma ConsSorted(o: Order, y: Contact, rest: seq<Contact>)
    requires Sorted(o, rest) && forall c :: c in rest ==> Le(o, y, c)
    ensures Sorted(o, [y] + rest)
  {
    var r := [y] + rest;
    forall i, j | 0 <= i < j < |r|
      ensures Le(o, r[i], r[j])
    {
      assert r[j] == rest[j - 1] && rest[j - 1] in rest;
      if i > 0 {
        assert r[i] == rest[i - 1];
      }
    }
  }

  function Insert(o: Order, x: Contact, s: seq<Contact>): (r: seq<Contact>)
    requires Sorted(o, s)
    ensures Sorted(o, r)
    ensures multiset(r) == multiset(s) + multiset{x}
  {
    if s == [] || Le(o, x, s[0]) then
      assert forall c :: c in s ==> Le(o, x, c) by {
        forall c | c in s
          ensures Le(o, x, c)
        {
          var k :| 0 <= k < |s| && s[k] == c;
          assert k == 0 || Le(o, s[0], c);
        }
      }
      ConsSorted(o, x, s);
      [x] + s
    else
      var rest := Insert(o, x, s[1..]);
      assert s == [s[0]] + s[1..];
      assert forall c :: c in rest ==> Le(o, s[0], c) by {
        forall c | c in rest
          ensures Le(o, s[0], c)
        {
          assert c in multiset(rest);
          if c != x {
            var k :| 0 <= k < |s[1..]| && s[1..][k] == c;
            assert s[k + 1] == c;
          }
        }
      }
      ConsSorted(o, s[0], rest);
      [s[0]] + rest
  }

  /** The rows of `s` in key order. */
  function SortBy(o: Order, s: seq<Contact>): (r: seq<Contact>)
    ensures Sorted(o, r)
    ensures multiset(r) == multiset(s)
  {
    if s == [] then
      []
    else
      assert s == [s[0]] + s[1..];
      Insert(o, s[0], SortBy(o, s[1..]))
  }

  /** Inserting a row whose id is new keeps the ids unique. */
  lemma {:induction false} InsertKeepsIdsUnique(o: Order, x: Contact, s: seq<Contact>)
    requires Sorted(o, s) && UniqueIds(s) && x.id !in IdsOf(s)
    ensures UniqueIds(Insert(o, x, s))
  {
    if s != [] && !Le(o, x, s[0]) {
      assert s == [s[0]] + s[1..];
      var rest := Insert(o, x, s[1..]);
      UniqueIdsTail(s);
      InsertKeepsIdsUnique(o, x, s[1..]);
      forall c | c in rest
        ensures c.id != s[0].id
      {
        assert c in multiset(rest);
        if c != x {
          assert c in multiset(s[1..]);
          var m :| 0 <= m < |s[1..]| && s[1..][m] == c;
          assert s[m + 1] == c;
        }
      }
      ConsKeepsIdsUnique(s[0], rest);
    }
  }

  /** Sorting a table with unique ids yields unique ids. */
  lemma {:induction false} SortKeepsIdsUnique(o: Order, s: seq<Contact>)
    requires UniqueIds(s)
    ensures UniqueIds(SortBy(o, s))
  {
    if s != [] {
      assert s == [s[0]] + s[1..];
      UniqueIdsTail(s);
      SortKeepsIdsUnique(o, s[1..]);
      var rest := SortBy(o, s[1..]);
      forall c | c in rest
        ensures c.id != s[0].id
      {
        assert c in multiset(rest);
        assert c in multiset(s[1..]);
        var m :| 0 <= m < |s[1..]| && s[1..][m] == c;
        assert s[m + 1] == c;
      }
      InsertKeepsIdsUnique(o, s[0], rest);
    }
  }
}
