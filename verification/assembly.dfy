/** The response of the identify routine: the reported contact, the rows
    of its direct cluster in the cluster order, and the de-duplicated lists
    built from them. */
module Assembly {
  import opened Contacts
  import opened Ordering

  /** The `contact` object of the response body. */
  datatype Response = Response(
    primaryContactId: nat,
    emails: seq<string>,
    phoneNumbers: seq<string>,
    secondaryContactIds: seq<nat>)

  /** The WHERE clause of the cluster query: `id = pid OR linkedId = pid`. */
  predicate InCluster(c: Contact, pid: nat) {
    c.id == pid || c.linkedId == Some(pid)
  }

  predicate NoDuplicates<T(==)>(s: seq<T>) {
    forall i, j :: 0 <= i < j < |s| ==> s[i] != s[j]
  }

  function Members(s: seq<Contact>, pid: nat): (r: seq<Contact>)
    ensures forall c :: c in r <==> c in s && InCluster(c, pid)
  {
    if s == [] then
      []
    else
      assert s == [s[0]] + s[1..];
      (if InCluster(s[0], pid) then [s[0]] else []) + Members(s[1..], pid)
  }

  /** The cluster query: the row `pid` and the rows linked directly to it,
      primaries first, then secondaries by `updatedAt`. */
  function ClusterOf(rows: seq<Contact>, pid: nat): (r: seq<Contact>)
    ensures forall c :: c in r <==> c in rows && InCluster(c, pid)
    ensures forall i, j :: 0 <= i < j < |r| && r[i].linkPrecedence == Secondary ==> r[j].linkPrecedence == Secondary
    ensures forall i, j :: 0 <= i < j < |r| && r[i].linkPrecedence == Secondary ==> r[i].updatedAt <= r[j].updatedAt
  {
    var members := Members(rows, pid);
    var r := SortBy(ClusterOrder, members);
    assert forall c :: c in r <==> c in multiset(members);
    r
  }

  /** The two columns the response lists. */
  datatype Column = EmailColumn | PhoneColumn

  function Value(col: Column, c: Contact): Option<string> {
    match col
    case EmailColumn => c.email
    case PhoneColumn => c.phoneNumber
  }

  /** The non-null values of a column, in row order
      (`.map(c => c.email).filter(v => v !== null)`). */
  function Present(col: Column, cs: seq<Contact>): (r: seq<string>)
    ensures forall v :: v in r <==> exists c :: c in cs && Value(col, c) == Some(v)
    ensures cs != [] && Value(col, cs[0]).Some? ==> r != [] && r[0] == Value(col, cs[0]).value
  {
    if cs == [] then
      []
    else
      assert cs == [cs[0]] + cs[1..];
      (if Value(col, cs[0]).Some? then [Value(col, cs[0]).value] else []) + Present(col, cs[1..])
  }

  /** `.map(...).filter(...)` keeps row order: the values of a
      concatenation are the values of its parts, in turn. */
  lemma {:induction false} PresentAppend(col: Column, a: seq<Contact>, b: seq<Contact>)
    ensures Present(col, a + b) == Present(col, a) + Present(col, b)
  {
    if a != [] {
      assert (a + b)[1..] == a[1..] + b;
      PresentAppend(col, a[1..], b);
    } else {
      assert a + b == b;
    }
  }

  /** The position where `v` first occurs in `s`. */
  function FirstIndex(s: seq<string>, v: string): (k: nat)
    requires v in s
    ensures k < |s| && s[k] == v
    ensures forall m :: 0 <= m < k ==> s[m] != v
  {
    if s[0] == v then 0 else 1 + FirstIndex(s[1..], v)
  }

  lemma FirstIndexOfPrefix(s: seq<string>, n: nat, v: string)
    requires n <= |s| && v in s[..n]
    ensures FirstIndex(s, v) == FirstIndex(s[..n], v)
  {
    var k, k' := FirstIndex(s, v), FirstIndex(s[..n], v);
    assert s[k'] == v;
    assert k <= k';
    assert s[..n][k] == v;
  }

  /** Some row of `cs` holds `v` in column `col` before any row holds `w`. */
  predicate HeldBefore(col: Column, cs: seq<Contact>, v: string, w: string) {
    exists k :: 0 <= k < |cs| && Value(col, cs[k]) == Some(v) &&
      forall m :: 0 <= m <= k ==> Value(col, cs[m]) != Some(w)
  }

  /** A row that does not hold `w` can be put in front. */
  lemma HeldBeforeCons(col: Column, cs: seq<Contact>, v: string, w: string)
    requires cs != [] && Value(col, cs[0]) != Some(w) && HeldBefore(col, cs[1..], v, w)
    ensures HeldBefore(col, cs, v, w)
  {
    var k :| 0 <= k < |cs[1..]| && Value(col, cs[1..][k]) == Some(v) &&
      forall m :: 0 <= m <= k ==> Value(col, cs[1..][m]) != Some(w);
    forall m | 0 <= m <= k + 1
      ensures Value(col, cs[m]) != Some(w)
    {
      if m > 0 {
        assert cs[m] == cs[1..][m - 1];
      }
    }
    assert cs[k + 1] == cs[1..][k];
  }

  /** Past a first element other than `v`, the first position of `v`
      moves one place. */
  lemma FirstIndexPastHead(p: seq<string>, v: string)
    requires v in p && p[0] != v
    ensures v in p[1..] && FirstIndex(p, v) == 1 + FirstIndex(p[1..], v)
  {
    var k :| 0 <= k < |p| && p[k] == v;
    assert p[1..][k - 1] == v;
  }

  /** A value that first occurs before another in the values of a column
      is held by a row that comes before every row holding the other. */
  lemma {:induction false} PresentFirstSeen(col: Column, cs: seq<Contact>, v: string, w: string)
    requires v in Present(col, cs) && w in Present(col, cs)
    requires FirstIndex(Present(col, cs), v) < FirstIndex(Present(col, cs), w)
    ensures HeldBefore(col, cs, v, w)
  {
    var p := Present(col, cs);
    var rest := Present(col, cs[1..]);
    if Value(col, cs[0]) == Some(v) {
      assert v != w;
    } else {
      if Value(col, cs[0]).Some? {
        assert p == [Value(col, cs[0]).value] + rest;
        assert 0 < FirstIndex(p, w);
        assert p[0] != w && p[0] != v && p[1..] == rest;
        FirstIndexPastHead(p, v);
        FirstIndexPastHead(p, w);
      } else {
        assert p == rest;
      }
      PresentFirstSeen(col, cs[1..], v, w);
      HeldBeforeCons(col, cs, v, w);
    }
  }

  /** `p` de-duplicated, extended by `x` when `x` is new, is `s = p + [x]`
      de-duplicated. */
  lemma DedupExtend(p: seq<string>, x: string, s: seq<string>, d: seq<string>)
    requires s == p + [x]
    requires NoDuplicates(d)
    requires forall v :: v in d <==> v in p
    requires forall i, j :: 0 <= i < j < |d| ==> d[i] in p && d[j] in p && FirstIndex(p, d[i]) < FirstIndex(p, d[j])
    ensures var r := if x in d then d else d + [x];
      && NoDuplicates(r)
      && (forall v :: v in r <==> v in s)
      && (forall i, j :: 0 <= i < j < |r| ==> FirstIndex(s, r[i]) < FirstIndex(s, r[j]))
  {
    assert s[..|p|] == p;
    forall v | v in d
      ensures FirstIndex(s, v) == FirstIndex(p, v) < |p|
    {
      FirstIndexOfPrefix(s, |p|, v);
    }
    var r := if x in d then d else d + [x];
    forall i, j | 0 <= i < j < |r|
      ensures FirstIndex(s, r[i]) < FirstIndex(s, r[j])
    {
      assert r[i] == d[i] && d[i] in d;
      if j < |d| {
        assert r[j] == d[j] && d[j] in d;
      } else {
        assert r[j] == x && FirstIndex(s, x) == |p|;
      }
    }
  }

  /** The head of `s = p + [x]` heads `p` de-duplicated and extended. */
  lemma DedupExtendHead(p: seq<string>, x: string, s: seq<string>, d: seq<string>)
    requires s == p + [x]
    requires if p == [] then d == [] else d != [] && d[0] == p[0]
    ensures var r := if x in d then d else d + [x];
      r != [] && r[0] == s[0]
  {
    if p != [] {
      assert s[0] == p[0];
    }
  }

  /** `[...new Set(s)]`: each value once, in order of first occurrence. */
  function Dedup(s: seq<string>): (r: seq<string>)
    ensures NoDuplicates(r)
    ensures forall v :: v in r <==> v in s
    ensures forall i, j :: 0 <= i < j < |r| ==> FirstIndex(s, r[i]) < FirstIndex(s, r[j])
    ensures s != [] ==> r != [] && r[0] == s[0]
  {
    if s == [] then
      []
    else
      var n := |s| - 1;
      var d := Dedup(s[..n]);
      assert s == s[..n] + [s[n]];
      assert n > 0 ==> s[..n][0] == s[0];
      DedupExtend(s[..n], s[n], s, d);
      DedupExtendHead(s[..n], s[n], s, d);
      if s[n] in d then d else d + [s[n]]
  }

  /** The Set spread appends a value the first time it is seen and skips
      it afterwards. */
  lemma DedupSnoc(l: seq<string>, x: string)
    ensures Dedup(l + [x]) == if x in l then Dedup(l) else Dedup(l) + [x]
  {
    assert (l + [x])[..|l|] == l;
  }

  /** The secondary rows, in row order. */
  function Secondaries(cs: seq<Contact>): (r: seq<Contact>)
    ensures forall c :: c in r <==> c in cs && c.linkPrecedence == Secondary
  {
    if cs == [] then
      []
    else
      assert cs == [cs[0]] + cs[1..];
      (if cs[0].linkPrecedence == Secondary then [cs[0]] else []) + Secondaries(cs[1..])
  }

  /** The filter keeps row order. */
  lemma {:induction false} SecondariesAppend(a: seq<Contact>, b: seq<Contact>)
    ensures Secondaries(a + b) == Secondaries(a) + Secondaries(b)
  {
    if a != [] {
      assert (a + b)[1..] == a[1..] + b;
      SecondariesAppend(a[1..], b);
    } else {
      assert a + b == b;
    }
  }

  /** Rows listed by ascending `updatedAt`. */
  predicate UpdatedAscending(cs: seq<Contact>) {
    forall i, j :: 0 <= i < j < |cs| ==> cs[i].updatedAt <= cs[j].updatedAt
  }

  /** Every secondary row is listed no later, in `updatedAt`, than the
      rows after it (the cluster order). */
  predicate SecondariesAscending(cs: seq<Contact>) {
    forall i, j :: 0 <= i < j < |cs| && cs[i].linkPrecedence == Secondary ==> cs[i].updatedAt <= cs[j].updatedAt
  }

  lemma SecondariesAscendingTail(cs: seq<Contact>)
    requires SecondariesAscending(cs) && cs != []
    ensures SecondariesAscending(cs[1..])
    ensures cs[0].linkPrecedence == Secondary ==> forall c :: c in cs[1..] ==> cs[0].updatedAt <= c.updatedAt
  {
    forall i, j | 0 <= i < j < |cs[1..]| && cs[1..][i].linkPrecedence == Secondary
      ensures cs[1..][i].updatedAt <= cs[1..][j].updatedAt
    {
      assert cs[1..][i] == cs[i + 1] && cs[1..][j] == cs[j + 1];
    }
    forall c | c in cs[1..] && cs[0].linkPrecedence == Secondary
      ensures cs[0].updatedAt <= c.updatedAt
    {
      var m :| 0 <= m < |cs[1..]| && cs[1..][m] == c;
      assert cs[m + 1] == c;
    }
  }

  lemma ConsAscending(x: Contact, rest: seq<Contact>)
    requires UpdatedAscending(rest) && forall c :: c in rest ==> x.updatedAt <= c.updatedAt
    ensures UpdatedAscending([x] + rest)
  {
    var r := [x] + rest;
    forall i, j | 0 <= i < j < |r|
      ensures r[i].updatedAt <= r[j].updatedAt
    {
      assert r[j] == rest[j - 1] && rest[j - 1] in rest;
      if i > 0 {
        assert r[i] == rest[i - 1];
      }
    }
  }

  /** Secondaries that come in ascending `updatedAt` order, as the cluster
      query lists them, stay in that order once filtered out. */
  lemma {:induction false} SecondariesInOrder(cs: seq<Contact>)
    requires SecondariesAscending(cs)
    ensures UpdatedAscending(Secondaries(cs))
  {
    if cs != [] {
      SecondariesAscendingTail(cs);
      SecondariesInOrder(cs[1..]);
      if cs[0].linkPrecedence == Secondary {
        ConsAscending(cs[0], Secondaries(cs[1..]));
      }
    }
  }

  function Ids(cs: seq<Contact>): seq<nat> {
    seq(|cs|, i requires 0 <= i < |cs| => cs[i].id)
  }

  /** Response assembly: the reported id, the emails and phone numbers of
      the cluster with nulls and repeats dropped, and the ids of its
      secondary rows, all in cluster order. */
  function Assemble(rows: seq<Contact>, pid: nat): Response {
    var cluster := ClusterOf(rows, pid);
    Response(pid, Dedup(Present(EmailColumn, cluster)), Dedup(Present(PhoneColumn, cluster)), Ids(Secondaries(cluster)))
  }

  /** The response names `pid`, lists every email and phone number held by
      a row of its cluster exactly once and nothing else, and lists the id
      of every secondary row of the cluster and nothing else. */
  lemma AssembleLists(rows: seq<Contact>, pid: nat)
    ensures var r := Assemble(rows, pid);
      && r.primaryContactId == pid
      && NoDuplicates(r.emails)
      && (forall e :: e in r.emails <==> exists c :: c in rows && InCluster(c, pid) && c.email == Some(e))
      && NoDuplicates(r.phoneNumbers)
      && (forall p :: p in r.phoneNumbers <==> exists c :: c in rows && InCluster(c, pid) && c.phoneNumber == Some(p))
      && (forall k :: k in r.secondaryContactIds <==>
            exists c :: c in rows && InCluster(c, pid) && c.linkPrecedence == Secondary && c.id == k)
  {
    var secondaries := Secondaries(ClusterOf(rows, pid));
    var ids := Ids(secondaries);
    forall k | k in ids
      ensures exists c :: c in secondaries && c.id == k
    {
      var i :| 0 <= i < |ids| && ids[i] == k;
      assert secondaries[i] in secondaries;
    }
    forall c | c in secondaries
      ensures c.id in ids
    {
      var i :| 0 <= i < |secondaries| && secondaries[i] == c;
      assert ids[i] == c.id;
    }
  }

  /** The response lists keep the cluster order: an email (phone number)
      listed before another is held by a cluster row that comes before
      every row holding the other, and in a table with unique ids the
      secondary ids are listed by ascending `updatedAt`. */
  lemma AssembleOrder(rows: seq<Contact>, pid: nat)
    requires UniqueIds(rows)
    ensures var r, cluster := Assemble(rows, pid), ClusterOf(rows, pid);
      && (forall i, j :: 0 <= i < j < |r.emails| ==> HeldBefore(EmailColumn, cluster, r.emails[i], r.emails[j]))
      && (forall i, j :: 0 <= i < j < |r.phoneNumbers| ==> HeldBefore(PhoneColumn, cluster, r.phoneNumbers[i], r.phoneNumbers[j]))
      && (forall i, j, a, b ::
            (0 <= i < j < |r.secondaryContactIds| && a in rows && b in rows &&
             a.id == r.secondaryContactIds[i] && b.id == r.secondaryContactIds[j]) ==> a.updatedAt <= b.updatedAt)
  {
    var r, cluster := Assemble(rows, pid), ClusterOf(rows, pid);
    forall col: Column, i, j | 0 <= i < j < |Dedup(Present(col, cluster))|
      ensures HeldBefore(col, cluster, Dedup(Present(col, cluster))[i], Dedup(Present(col, cluster))[j])
    {
      var d := Dedup(Present(col, cluster));
      assert d[i] in d && d[j] in d;
      PresentFirstSeen(col, cluster, d[i], d[j]);
    }
    var secondaries := Secondaries(cluster);
    SecondariesInOrder(cluster);
    forall i, j, a, b | 0 <= i < j < |r.secondaryContactIds| && a in rows && b in rows &&
        a.id == r.secondaryContactIds[i] && b.id == r.secondaryContactIds[j]
      ensures a.updatedAt <= b.updatedAt
    {
      assert secondaries[i] in secondaries && secondaries[j] in secondaries;
      SameIdSameRow(rows, a, secondaries[i]);
      SameIdSameRow(rows, b, secondaries[j]);
    }
  }

  lemma {:induction false} MembersKeepsIdsUnique(s: seq<Contact>, pid: nat)
    requires UniqueIds(s)
    ensures UniqueIds(Members(s, pid))
  {
    if s != [] {
      UniqueIdsTail(s);
      MembersKeepsIdsUnique(s[1..], pid);
      if InCluster(s[0], pid) {
        ConsFromTailKeepsIdsUnique(s, Members(s[1..], pid));
      }
    }
  }

  lemma {:induction false} SecondariesKeepsIdsUnique(s: seq<Contact>)
    requires UniqueIds(s)
    ensures UniqueIds(Secondaries(s))
  {
    if s != [] {
      UniqueIdsTail(s);
      SecondariesKeepsIdsUnique(s[1..]);
      if s[0].linkPrecedence == Secondary {
        ConsFromTailKeepsIdsUnique(s, Secondaries(s[1..]));
      }
    }
  }

  /** In a table with unique ids, no secondary id is listed twice. */
  lemma SecondaryIdsDistinct(rows: seq<Contact>, pid: nat)
    requires UniqueIds(rows)
    ensures NoDuplicates(Assemble(rows, pid).secondaryContactIds)
  {
    MembersKeepsIdsUnique(rows, pid);
    SortKeepsIdsUnique(ClusterOrder, Members(rows, pid));
    var secondaries := Secondaries(ClusterOf(rows, pid));
    SecondariesKeepsIdsUnique(ClusterOf(rows, pid));
    var ids := Ids(secondaries);
    forall i, j | 0 <= i < j < |ids|
      ensures ids[i] != ids[j]
    {
      assert secondaries[i].id == ids[i] && secondaries[j].id == ids[j];
    }
  }

  /** When `x` is a primary of a table whose primaries are exactly its
      unlinked rows, the cluster of `x` starts with `x`, so its own email
      and phone number head the response lists. */
  lemma PrimaryListedFirst(rows: seq<Contact>, x: Contact)
    requires UniqueIds(rows) && x in rows && x.linkPrecedence == Primary
    requires forall c :: c in rows ==> (c.linkedId.None? <==> c.linkPrecedence == Primary)
    ensures ClusterOf(rows, x.id) != [] && ClusterOf(rows, x.id)[0] == x
    ensures x.email.Some? ==> Assemble(rows, x.id).emails != [] && Assemble(rows, x.id).emails[0] == x.email.value
    ensures x.phoneNumber.Some? ==> Assemble(rows, x.id).phoneNumbers != [] && Assemble(rows, x.id).phoneNumbers[0] == x.phoneNumber.value
  {
    var cluster := ClusterOf(rows, x.id);
    assert x in cluster;
    var j :| 0 <= j < |cluster| && cluster[j] == x;
    assert cluster[0].linkPrecedence == Primary;
    assert cluster[0] in cluster;
    SameIdSameRow(rows, cluster[0], x);
  }
}
