/** The writes the identify routine makes to the contacts table (a create,
    a demotion), the invariant they keep, and what the candidate lookup and
    the cluster query return after each of them. */
module Writes {
  import opened Contacts
  import opened Ordering
  import opened Lookup
  import opened Assembly

  /** What every row of the table satisfies: an id below the next
      auto-increment value, timestamps from the past, a link exactly on
      secondaries, and an email or a phone number. */
  predicate WellFormed(c: Contact, nextId: nat, clock: nat) {
    && c.id < nextId
    && c.createdAt <= c.updatedAt < clock
    && (c.linkedId.None? <==> c.linkPrecedence == Primary)
    && (c.email.Some? || c.phoneNumber.Some?)
  }

  /** The table invariant: unique ids, well-formed rows, and every
      `linkedId` naming a row of the table. */
  predicate TableOk(rows: seq<Contact>, nextId: nat, clock: nat) {
    && UniqueIds(rows)
    && (forall c :: c in rows ==> WellFormed(c, nextId, clock))
    && (forall c :: c in rows && c.linkedId.Some? ==> c.linkedId.value in IdsOf(rows))
  }

  /** The row `Contact.create` inserts when the lookup found nothing. */
  function NewPrimary(id: nat, t: nat, email: Option<string>, phoneNumber: Option<string>): Contact {
    Contact(id, Stored(email), Stored(phoneNumber), None, Primary, t, t)
  }

  /** The row `Contact.create` inserts under the single candidate `target`. */
  function NewSecondary(id: nat, t: nat, email: Option<string>, phoneNumber: Option<string>, target: nat): Contact {
    Contact(id, Stored(email), Stored(phoneNumber), Some(target), Secondary, t, t)
  }

  /** `contact.update({linkedId, linkPrecedence: 'secondary', updatedAt})`. */
  function Demote(c: Contact, survivorId: nat, t: nat): Contact {
    c.(linkPrecedence := Secondary, linkedId := Some(survivorId), updatedAt := t)
  }

  /** The table after every row whose id is in `losers` has been demoted
      under `survivorId`. */
  function Demoted(rows: seq<Contact>, losers: set<nat>, survivorId: nat, t: nat): seq<Contact> {
    seq(|rows|, k requires 0 <= k < |rows| => if rows[k].id in losers then Demote(rows[k], survivorId, t) else rows[k])
  }

  /** The single-candidate case creates a row exactly when both fields are
      supplied and either differs from the candidate's own value. */
  predicate NeedsSecondary(p: Contact, email: Option<string>, phoneNumber: Option<string>) {
    Given(email) && Given(phoneNumber) && !(p.email == email && p.phoneNumber == phoneNumber)
  }

  /** The one-element list a response gives for a supplied field. */
  function Listed(x: Option<string>): (r: seq<string>)
    ensures Given(x) <==> r != []
  {
    if Given(x) then [x.value] else []
  }

  lemma AppendKeepsIdsUnique(rows: seq<Contact>, x: Contact)
    requires UniqueIds(rows) && x.id !in IdsOf(rows)
    ensures UniqueIds(rows + [x])
  {
    var r := rows + [x];
    assert forall k :: 0 <= k < |rows| ==> rows[k] in rows;
    forall i, j | 0 <= i < |r| && 0 <= j < |r| && r[i].id == r[j].id
      ensures i == j
    {
      if i < |rows| && j < |rows| {
        assert rows[i].id == rows[j].id;
      }
    }
  }

  /** Appending a row adds to the WHERE clause's matches only the row the
      new row links to, and only when the new row is a secondary that hits. */
  lemma CandidateAfterAppend(rows: seq<Contact>, x: Contact, c: Contact, email: Option<string>, phoneNumber: Option<string>)
    ensures IsCandidate(rows + [x], c, email, phoneNumber) <==>
      || IsCandidate(rows, c, email, phoneNumber)
      || (x.linkPrecedence == Secondary && x.linkedId == Some(c.id) && Hits(x, email, phoneNumber))
  {
    if LinkedByHit(rows + [x], c.id, email, phoneNumber) {
      var s :| s in rows + [x] && s.linkPrecedence == Secondary && s.linkedId == Some(c.id) && Hits(s, email, phoneNumber);
      assert s in rows || s == x;
    }
    if LinkedByHit(rows, c.id, email, phoneNumber) {
      var s :| s in rows && s.linkPrecedence == Secondary && s.linkedId == Some(c.id) && Hits(s, email, phoneNumber);
      assert s in rows + [x];
    }
    if x.linkPrecedence == Secondary && x.linkedId == Some(c.id) && Hits(x, email, phoneNumber) {
      assert x in rows + [x];
    }
  }

  /** Creating the new primary keeps the table invariant. */
  lemma NewPrimaryKeepsTableOk(rows: seq<Contact>, nextId: nat, clock: nat, email: Option<string>, phoneNumber: Option<string>)
    requires TableOk(rows, nextId, clock)
    requires Given(email) || Given(phoneNumber)
    ensures TableOk(rows + [NewPrimary(nextId, clock, email, phoneNumber)], nextId + 1, clock + 1)
  {
    var x := NewPrimary(nextId, clock, email, phoneNumber);
    AppendKeepsIdsUnique(rows, x);
    assert IdsOf(rows) <= IdsOf(rows + [x]);
  }

  /** Creating a secondary under an existing row keeps the table invariant. */
  lemma NewSecondaryKeepsTableOk(rows: seq<Contact>, nextId: nat, clock: nat, email: Option<string>, phoneNumber: Option<string>, target: nat)
    requires TableOk(rows, nextId, clock)
    requires Given(email) && Given(phoneNumber) && target in IdsOf(rows)
    ensures TableOk(rows + [NewSecondary(nextId, clock, email, phoneNumber, target)], nextId + 1, clock + 1)
  {
    var x := NewSecondary(nextId, clock, email, phoneNumber, target);
    AppendKeepsIdsUnique(rows, x);
    assert IdsOf(rows) <= IdsOf(rows + [x]);
  }

  /** Demoting rows under an existing survivor keeps the table invariant. */
  lemma DemotedKeepsTableOk(rows: seq<Contact>, nextId: nat, clock: nat, losers: set<nat>, survivorId: nat)
    requires TableOk(rows, nextId, clock)
    requires survivorId in IdsOf(rows)
    ensures TableOk(Demoted(rows, losers, survivorId, clock), nextId, clock + 1)
  {
    var after := Demoted(rows, losers, survivorId, clock);
    assert forall k :: 0 <= k < |rows| ==> rows[k] in rows && after[k].id == rows[k].id;
    assert IdsOf(after) == IdsOf(rows) by {
      forall id | id in IdsOf(rows) ensures id in IdsOf(after) {
        var c :| c in rows && c.id == id;
        var k :| 0 <= k < |rows| && rows[k] == c;
        assert after[k] in after;
      }
      forall id | id in IdsOf(after) ensures id in IdsOf(rows) {
        var c :| c in after && c.id == id;
        var k :| 0 <= k < |after| && after[k] == c;
      }
    }
    forall c | c in after
      ensures WellFormed(c, nextId, clock + 1)
      ensures c.linkedId.Some? ==> c.linkedId.value in IdsOf(after)
    {
      var k :| 0 <= k < |after| && after[k] == c;
    }
  }

  /** With no candidate, the new primary is the only row the re-lookup
      returns. */
  lemma NewPrimaryIsSoleCandidate(rows: seq<Contact>, nextId: nat, clock: nat, email: Option<string>, phoneNumber: Option<string>)
    requires TableOk(rows, nextId, clock)
    requires Given(email) || Given(phoneNumber)
    requires Candidates(rows, email, phoneNumber) == []
    ensures Candidates(rows + [NewPrimary(nextId, clock, email, phoneNumber)], email, phoneNumber)
      == [NewPrimary(nextId, clock, email, phoneNumber)]
  {
    var x := NewPrimary(nextId, clock, email, phoneNumber);
    var after := rows + [x];
    NewPrimaryKeepsTableOk(rows, nextId, clock, email, phoneNumber);
    forall c | c in after && IsCandidate(after, c, email, phoneNumber)
      ensures c == x
    {
      CandidateAfterAppend(rows, x, c, email, phoneNumber);
      assert c in rows ==> c !in Candidates(rows, email, phoneNumber);
    }
    CandidateAfterAppend(rows, x, x, email, phoneNumber);
    SoleCandidate(after, email, phoneNumber, x);
  }

  /** Repeating a request that created a new primary writes nothing: the
      new primary is the sole candidate and already holds both values. */
  lemma RepeatAfterNewPrimary(rows: seq<Contact>, nextId: nat, clock: nat, email: Option<string>, phoneNumber: Option<string>)
    requires TableOk(rows, nextId, clock)
    requires Given(email) || Given(phoneNumber)
    requires Candidates(rows, email, phoneNumber) == []
    ensures var x := NewPrimary(nextId, clock, email, phoneNumber);
      Candidates(rows + [x], email, phoneNumber) == [x] && !NeedsSecondary(x, email, phoneNumber)
  {
    NewPrimaryIsSoleCandidate(rows, nextId, clock, email, phoneNumber);
  }

  /** With one candidate that needs a new secondary, the re-lookup still
      returns that candidate alone. */
  lemma NewSecondaryKeepsSoleCandidate(rows: seq<Contact>, nextId: nat, clock: nat, email: Option<string>, phoneNumber: Option<string>)
    requires TableOk(rows, nextId, clock)
    requires |Candidates(rows, email, phoneNumber)| == 1
    requires NeedsSecondary(Candidates(rows, email, phoneNumber)[0], email, phoneNumber)
    ensures var q := Candidates(rows, email, phoneNumber)[0];
      Candidates(rows + [NewSecondary(nextId, clock, email, phoneNumber, q.id)], email, phoneNumber) == [q]
  {
    var q := Candidates(rows, email, phoneNumber)[0];
    assert q in Candidates(rows, email, phoneNumber);
    var x := NewSecondary(nextId, clock, email, phoneNumber, q.id);
    var after := rows + [x];
    assert q.id in IdsOf(rows);
    NewSecondaryKeepsTableOk(rows, nextId, clock, email, phoneNumber, q.id);
    forall c | c in rows && IsCandidate(rows, c, email, phoneNumber)
      ensures c == q
    {
      assert c in Candidates(rows, email, phoneNumber);
    }
    assert forall s :: s in after && s.linkedId.Some? ==> s.linkedId.value in IdsOf(rows);
    forall c | c in after && IsCandidate(after, c, email, phoneNumber)
      ensures c == q
    {
      CandidateAfterAppend(rows, x, c, email, phoneNumber);
      if c in rows && c.id == q.id {
        SameIdSameRow(rows, c, q);
      }
    }
    CandidateAfterAppend(rows, x, q, email, phoneNumber);
    SoleCandidate(after, email, phoneNumber, q);
  }

  /** The surviving candidate is not among the demoted ones. */
  lemma SurvivorNotDemoted(rows: seq<Contact>, email: Option<string>, phoneNumber: Option<string>)
    requires UniqueIds(rows) && |Candidates(rows, email, phoneNumber)| >= 2
    ensures var cands := Candidates(rows, email, phoneNumber);
      cands[0].id !in IdsOf(cands[1..])
  {
    var cands := Candidates(rows, email, phoneNumber);
    CandidatesHaveUniqueIds(rows, email, phoneNumber);
    forall c | c in cands[1..]
      ensures c.id != cands[0].id
    {
      var i :| 0 <= i < |cands[1..]| && cands[1..][i] == c;
      assert cands[i + 1] == c;
    }
  }

  /** The merge changes exactly the candidates after the oldest: every
      other row, the oldest candidate and the secondaries of the demoted
      rows included, keeps all its fields, and a demoted row keeps its id,
      email, phone number and `createdAt`. */
  lemma MergeTouchesOnlyLosers(rows: seq<Contact>, email: Option<string>, phoneNumber: Option<string>, t: nat)
    requires UniqueIds(rows) && |Candidates(rows, email, phoneNumber)| >= 2
    ensures var cands := Candidates(rows, email, phoneNumber);
      var after := Demoted(rows, IdsOf(cands[1..]), cands[0].id, t);
      forall k :: 0 <= k < |rows| ==>
        if rows[k] in cands[1..] then
          && after[k].linkPrecedence == Secondary && after[k].linkedId == Some(cands[0].id) && after[k].updatedAt == t
          && after[k].(linkPrecedence := rows[k].linkPrecedence, linkedId := rows[k].linkedId, updatedAt := rows[k].updatedAt) == rows[k]
        else
          after[k] == rows[k]
  {
    var cands := Candidates(rows, email, phoneNumber);
    var losers := IdsOf(cands[1..]);
    forall k | 0 <= k < |rows| && rows[k].id in losers
      ensures rows[k] in cands[1..]
    {
      var c :| c in cands[1..] && c.id == rows[k].id;
      assert c in cands;
      assert rows[k] in rows;
      SameIdSameRow(rows, c, rows[k]);
    }
  }

  /** Demoting one more row extends the set of demoted ids. */
  lemma DemotedTwice(rows: seq<Contact>, losers: set<nat>, id: nat, survivorId: nat, t: nat)
    ensures Demoted(Demoted(rows, losers, survivorId, t), {id}, survivorId, t)
      == Demoted(rows, losers + {id}, survivorId, t)
  {
  }

  /** A demotion changes no id, so ids stay unique. */
  lemma DemotedKeepsIdsUnique(rows: seq<Contact>, losers: set<nat>, survivorId: nat, t: nat)
    requires UniqueIds(rows)
    ensures UniqueIds(Demoted(rows, losers, survivorId, t))
  {
    var after := Demoted(rows, losers, survivorId, t);
    forall i, j | 0 <= i < |after| && 0 <= j < |after| && after[i].id == after[j].id
      ensures i == j
    {
      assert rows[i].id == after[i].id && rows[j].id == after[j].id;
    }
  }

  /** A row that matched before a demotion still matches after it, when
      its matching secondaries are relinked to the row itself. */
  lemma SurvivorStillMatches(rows: seq<Contact>, losers: set<nat>, x: Contact, t: nat, email: Option<string>, phoneNumber: Option<string>)
    requires x in rows && x.id !in losers && IsCandidate(rows, x, email, phoneNumber)
    ensures x in Demoted(rows, losers, x.id, t)
    ensures IsCandidate(Demoted(rows, losers, x.id, t), x, email, phoneNumber)
  {
    var after := Demoted(rows, losers, x.id, t);
    var kx :| 0 <= kx < |rows| && rows[kx] == x;
    assert after[kx] == x;
    if !(x.linkPrecedence == Primary && Hits(x, email, phoneNumber)) {
      var s :| s in rows && s.linkPrecedence == Secondary && s.linkedId == Some(x.id) && Hits(s, email, phoneNumber);
      var ks :| 0 <= ks < |rows| && rows[ks] == s;
      assert after[ks] in after;
    }
  }

  /** A row that matches after the merge is the survivor or was a
      candidate before it. */
  lemma MatchAfterMerge(rows: seq<Contact>, losers: set<nat>, survivorId: nat, t: nat, email: Option<string>, phoneNumber: Option<string>, k: nat)
    requires k < |rows|
    requires IsCandidate(Demoted(rows, losers, survivorId, t), Demoted(rows, losers, survivorId, t)[k], email, phoneNumber)
    ensures rows[k].id == survivorId || IsCandidate(rows, rows[k], email, phoneNumber)
  {
    var after := Demoted(rows, losers, survivorId, t);
    var c := after[k];
    if !(c.linkPrecedence == Primary && Hits(c, email, phoneNumber)) {
      var s :| s in after && s.linkPrecedence == Secondary && s.linkedId == Some(c.id) && Hits(s, email, phoneNumber);
      var ks :| 0 <= ks < |after| && after[ks] == s;
      if rows[ks].id !in losers {
        assert rows[ks] in rows;
      }
    }
  }

  /** After a merge the re-lookup starts with the surviving candidate: the
      oldest candidate stays a match and no older row becomes one. */
  lemma MergeKeepsOldest(rows: seq<Contact>, nextId: nat, clock: nat, email: Option<string>, phoneNumber: Option<string>)
    requires TableOk(rows, nextId, clock)
    requires |Candidates(rows, email, phoneNumber)| >= 2
    ensures var cands := Candidates(rows, email, phoneNumber);
      var after := Demoted(rows, IdsOf(cands[1..]), cands[0].id, clock);
      && cands[0] in after
      && |Candidates(after, email, phoneNumber)| > 0
      && Candidates(after, email, phoneNumber)[0] == cands[0]
  {
    var cands := Candidates(rows, email, phoneNumber);
    var x := cands[0];
    var losers := IdsOf(cands[1..]);
    var after := Demoted(rows, losers, x.id, clock);
    SurvivorNotDemoted(rows, email, phoneNumber);
    DemotedKeepsIdsUnique(rows, losers, x.id, clock);
    assert x in cands;
    SurvivorStillMatches(rows, losers, x, clock, email, phoneNumber);
    forall c | c in rows && IsCandidate(rows, c, email, phoneNumber)
      ensures Le(ByAge, x, c)
    {
      assert c in cands;
    }
    forall c | c in after && IsCandidate(after, c, email, phoneNumber)
      ensures Le(ByAge, x, c)
    {
      var k :| 0 <= k < |after| && after[k] == c;
      MatchAfterMerge(rows, losers, x.id, clock, email, phoneNumber, k);
      assert Key(ByAge, c) == Key(ByAge, rows[k]);
      assert rows[k] in rows;
      if rows[k].id == x.id {
        SameIdSameRow(rows, rows[k], x);
      }
    }
    OldestCandidate(after, email, phoneNumber, x);
  }

  lemma {:induction false} NoMembers(rows: seq<Contact>, pid: nat)
    requires forall c :: c in rows ==> !InCluster(c, pid)
    ensures Members(rows, pid) == []
  {
    if rows != [] {
      assert rows[0] in rows;
      assert forall c :: c in rows[1..] ==> c in rows;
      NoMembers(rows[1..], pid);
    }
  }

  lemma {:induction false} MembersAppend(rows: seq<Contact>, x: Contact, pid: nat)
    ensures Members(rows + [x], pid) == Members(rows, pid) + Members([x], pid)
  {
    if rows != [] {
      assert (rows + [x])[1..] == rows[1..] + [x];
      MembersAppend(rows[1..], x, pid);
    } else {
      assert rows + [x] == [x];
    }
  }

  /** The cluster of a new primary is that row alone. */
  lemma NewPrimaryCluster(rows: seq<Contact>, nextId: nat, clock: nat, email: Option<string>, phoneNumber: Option<string>)
    requires TableOk(rows, nextId, clock)
    ensures ClusterOf(rows + [NewPrimary(nextId, clock, email, phoneNumber)], nextId)
      == [NewPrimary(nextId, clock, email, phoneNumber)]
  {
    var x := NewPrimary(nextId, clock, email, phoneNumber);
    forall c | c in rows
      ensures !InCluster(c, nextId)
    {
      assert c.linkedId.Some? ==> c.linkedId.value in IdsOf(rows);
    }
    NoMembers(rows, nextId);
    MembersAppend(rows, x, nextId);
    assert Members([x], nextId) == [x];
    assert [x][1..] == [];
    assert SortBy(ClusterOrder, [x]) == [x];
  }

  lemma DedupShort(l: seq<string>)
    requires |l| <= 1
    ensures Dedup(l) == l
  {
    if l != [] {
      assert l[..0] == [];
    }
  }

  /** The lists of a one-row cluster hold that row's own values. */
  lemma SingleRowLists(x: Contact)
    ensures Present(EmailColumn, [x]) == if x.email.Some? then [x.email.value] else []
    ensures Present(PhoneColumn, [x]) == if x.phoneNumber.Some? then [x.phoneNumber.value] else []
    ensures x.linkPrecedence == Primary ==> Secondaries([x]) == []
  {
    assert [x][1..] == [];
  }

  /** The response after creating a new primary lists that row alone: its
      id, the supplied email and phone, and no secondaries. */
  lemma NewPrimaryResponse(rows: seq<Contact>, nextId: nat, clock: nat, email: Option<string>, phoneNumber: Option<string>)
    requires TableOk(rows, nextId, clock)
    ensures Assemble(rows + [NewPrimary(nextId, clock, email, phoneNumber)], nextId)
      == Response(nextId, Listed(email), Listed(phoneNumber), [])
  {
    var x := NewPrimary(nextId, clock, email, phoneNumber);
    NewPrimaryCluster(rows, nextId, clock, email, phoneNumber);
    SingleRowResponse(rows + [x], nextId, x);
  }

  /** The response for a cluster that is one primary row. */
  lemma SingleRowResponse(rows: seq<Contact>, pid: nat, x: Contact)
    requires ClusterOf(rows, pid) == [x] && x.linkPrecedence == Primary
    ensures Assemble(rows, pid) == Response(pid,
      if x.email.Some? then [x.email.value] else [],
      if x.phoneNumber.Some? then [x.phoneNumber.value] else [],
      [])
  {
    SingleRowLists(x);
    DedupShort(Present(EmailColumn, [x]));
    DedupShort(Present(PhoneColumn, [x]));
  }
}
