/** The one entity of the system: a row of the `contacts` table, and the
    reading of the request's two optional fields. */
module Contacts {

  datatype Option<+T> = None | Some(value: T)

  /** `link_precedence`, an ENUM('primary', 'secondary'); MySQL sorts an
      ENUM by declaration index, so Primary comes first. */
  datatype Precedence = Primary | Secondary

  /** A row of `contacts`. `createdAt` and `updatedAt` are readings of a
      logical clock; the soft-delete column is not modelled. */
  datatype Contact = Contact(
    id: nat,
    email: Option<string>,
    phoneNumber: Option<string>,
    linkedId: Option<nat>,
    linkPrecedence: Precedence,
    createdAt: nat,
    updatedAt: nat)

  /** A request field is supplied when it is present and not the empty
      string: null, undefined and "" are all falsy in JavaScript. */
  predicate Given(x: Option<string>) {
    x.Some? && x.value != ""
  }

  /** What a create stores for a request field (`field || null`). */
  function Stored(x: Option<string>): (r: Option<string>)
    ensures r.Some? <==> Given(x)
    ensures r.Some? ==> r == x
  {
    if Given(x) then x else None
  }

  /** The row's own email or phone equals a supplied value (exact equality). */
  predicate Hits(c: Contact, email: Option<string>, phoneNumber: Option<string>) {
    || (Given(email) && c.email == email)
    || (Given(phoneNumber) && c.phoneNumber == phoneNumber)
  }

  function IdsOf(s: seq<Contact>): set<nat> {
    set c | c in s :: c.id
  }

  /** `id` is the table's primary key. */
  predicate UniqueIds(s: seq<Contact>) {
    forall i, j :: 0 <= i < |s| && 0 <= j < |s| && s[i].id == s[j].id ==> i == j
  }

  /** Two rows of a table with unique ids that share an id are the same row. */
  lemma SameIdSameRow(s: seq<Contact>, a: Contact, b: Contact)
    requires UniqueIds(s) && a in s && b in s && a.id == b.id
    ensures a == b
  {
    var i :| 0 <= i < |s| && s[i] == a;
    var j :| 0 <= j < |s| && s[j] == b;
  }

  lemma UniqueIdsTail(s: seq<Contact>)
    requires UniqueIds(s) && s != []
    ensures UniqueIds(s[1..])
  {
    forall i, j | 0 <= i < |s[1..]| && 0 <= j < |s[1..]| && s[1..][i].id == s[1..][j].id
      ensures i == j
    {
      assert s[i + 1].id == s[j + 1].id;
    }
  }

  /** Putting a row with a new id in front keeps the ids unique. */
  lemma ConsKeepsIdsUnique(x: Contact, s: seq<Contact>)
    requires UniqueIds(s) && x.id !in IdsOf(s)
    ensures UniqueIds([x] + s)
  {
    var r := [x] + s;
    assert forall k :: 0 <= k < |s| ==> s[k] in s;
    forall i, j | 0 <= i < |r| && 0 <= j < |r| && r[i].id == r[j].id
      ensures i == j
    {
      if i > 0 && j > 0 {
        assert s[i - 1].id == s[j - 1].id;
      }
    }
  }

  /** Putting the head of `s` in front of rows drawn from its tail keeps
      the ids unique. */
  lemma ConsFromTailKeepsIdsUnique(s: seq<Contact>, rest: seq<Contact>)
    requires UniqueIds(s) && s != []
    requires UniqueIds(rest) && forall c :: c in rest ==> c in s[1..]
    ensures UniqueIds([s[0]] + rest)
  {
    forall c | c in rest
      ensures c.id != s[0].id
    {
      var m :| 0 <= m < |s[1..]| && s[1..][m] == c;
      assert s[m + 1] == c;
    }
    ConsKeepsIdsUnique(s[0], rest);
  }
}
