/** The contacts table as a mutable store, and the identify routine as a
    method that updates it inside one all-or-nothing transaction. */
module Store {
  import opened Contacts
  import opened Lookup
  import opened Assembly
  import opened Writes

  /** What one identify request ends in. */
  datatype Outcome =
    | Ok(response: Response)
    // 400 'Email or phoneNumber is required'
    | MissingInput
    // 400 'Validation error': a create was refused by the email validator
    | ValidationFailed
    // 404 'No primary contact found': the re-lookup came back empty
    | NoPrimary

  class ContactStore {
    /** The visible rows of the `contacts` table. */
    var rows: seq<Contact>
    /** The next auto-increment id. */
    var nextId: nat
    /** The logical clock that stamps `createdAt` and `updatedAt`. */
    var clock: nat

    ghost predicate Valid()
      reads this
    {
      TableOk(rows, nextId, clock)
    }

    constructor ()
      ensures Valid()
      ensures rows == [] && nextId == 1 && clock == 0
    {
      rows := [];
      nextId := 1;
      clock := 0;
    }

    /** `deleteAll`: every row disappears from the table's visible rows;
        ids are not reused. */
    method DeleteAll()
      requires Valid()
      modifies this
      ensures Valid()
      ensures rows == [] && nextId == old(nextId) && clock == old(clock)
    {
      rows := [];
    }

    /** The merge step: every row of `cands` but the first is updated
        to a secondary linked to the first, one update after the other,
        all stamped with the current clock reading. */
    method DemoteAllBut(cands: seq<Contact>)
      requires cands != []
      modifies this
      ensures rows == Demoted(old(rows), IdsOf(cands[1..]), cands[0].id, old(clock))
      ensures nextId == old(nextId) && clock == old(clock) + 1
    {
      var oldest := cands[0];
      var i := 1;
      while i < |cands|
        invariant 1 <= i <= |cands|
        invariant rows == Demoted(old(rows), IdsOf(cands[1..i]), oldest.id, clock)
        invariant nextId == old(nextId) && clock == old(clock)
      {
        DemotedTwice(old(rows), IdsOf(cands[1..i]), cands[i].id, oldest.id, clock);
        assert cands[1..i + 1] == cands[1..i] + [cands[i]];
        rows := Demoted(rows, {cands[i].id}, oldest.id, clock);
        i := i + 1;
      }
      assert cands[1..i] == cands[1..];
      clock := clock + 1;
    }

    /** No candidate: `Contact.create` stores a new primary holding the
        supplied values. */
    method CreatePrimary(email: Option<string>, phoneNumber: Option<string>)
      requires Valid()
      requires Given(email) || Given(phoneNumber)
      requires Candidates(rows, email, phoneNumber) == []
      modifies this
      ensures Valid()
      ensures rows == old(rows) + [NewPrimary(old(nextId), old(clock), email, phoneNumber)]
      ensures nextId == old(nextId) + 1 && clock == old(clock) + 1
      ensures Candidates(rows, email, phoneNumber) == [NewPrimary(old(nextId), old(clock), email, phoneNumber)]
    {
      var x := NewPrimary(nextId, clock, email, phoneNumber);
      var created := rows + [x];
      assert TableOk(created, nextId + 1, clock + 1) by {
        NewPrimaryKeepsTableOk(rows, nextId, clock, email, phoneNumber);
      }
      assert Candidates(created, email, phoneNumber) == [x] by {
        NewPrimaryIsSoleCandidate(rows, nextId, clock, email, phoneNumber);
      }
      rows, nextId, clock := created, nextId + 1, clock + 1;
    }

    /** One candidate `p` that lacks one of the supplied values:
        `Contact.create` stores a new secondary linked to it. */
    method CreateSecondary(email: Option<string>, phoneNumber: Option<string>, p: Contact)
      requires Valid()
      requires Candidates(rows, email, phoneNumber) == [p]
      requires NeedsSecondary(p, email, phoneNumber)
      modifies this
      ensures Valid()
      ensures rows == old(rows) + [NewSecondary(old(nextId), old(clock), email, phoneNumber, p.id)]
      ensures nextId == old(nextId) + 1 && clock == old(clock) + 1
      ensures Candidates(rows, email, phoneNumber) == [p]
    {
      assert p in Candidates(rows, email, phoneNumber);
      NewSecondaryKeepsTableOk(rows, nextId, clock, email, phoneNumber, p.id);
      NewSecondaryKeepsSoleCandidate(rows, nextId, clock, email, phoneNumber);
      rows, nextId, clock := rows + [NewSecondary(nextId, clock, email, phoneNumber, p.id)], nextId + 1, clock + 1;
    }

    /** Several candidates: every one but the oldest becomes a secondary of
        the oldest, which stays first in the lookup. */
    method Merge(email: Option<string>, phoneNumber: Option<string>, cands: seq<Contact>)
      requires Valid()
      requires cands == Candidates(rows, email, phoneNumber) && |cands| >= 2
      modifies this
      ensures Valid()
      ensures rows == Demoted(old(rows), IdsOf(cands[1..]), cands[0].id, old(clock))
      ensures nextId == old(nextId) && clock == old(clock) + 1
      ensures cands[0] in rows
      ensures |Candidates(rows, email, phoneNumber)| > 0 && Candidates(rows, email, phoneNumber)[0] == cands[0]
    {
      assert cands[0] in cands;
      MergeKeepsOldest(rows, nextId, clock, email, phoneNumber);
      DemotedKeepsTableOk(rows, nextId, clock, IdsOf(cands[1..]), cands[0].id);
      DemoteAllBut(cands);
    }

    /** The re-lookup and the response: the oldest row the lookup now
        finds is reported with its cluster; when it finds nothing the
        request ends in 'No primary contact found'. */
    method Report(email: Option<string>, phoneNumber: Option<string>) returns (res: Outcome)
      ensures Candidates(rows, email, phoneNumber) == [] ==> res == NoPrimary
      ensures Candidates(rows, email, phoneNumber) != [] ==>
        res == Ok(Assemble(rows, Candidates(rows, email, phoneNumber)[0].id))
    {
      var primaries := Candidates(rows, email, phoneNumber);
      if primaries == [] {
        return NoPrimary;
      }
      res := Ok(Assemble(rows, primaries[0].id));
    }

    /** No candidate: a new primary, unless the validator refuses the
        email; the response lists the new row alone. */
    method ResolveNone(email: Option<string>, phoneNumber: Option<string>, isEmail: string -> bool) returns (res: Outcome)
      requires Valid()
      requires Given(email) || Given(phoneNumber)
      requires Candidates(rows, email, phoneNumber) == []
      modifies this
      ensures Valid()
      ensures if Given(email) && !isEmail(email.value) then
          res == ValidationFailed && unchanged(this)
        else
          && rows == old(rows) + [NewPrimary(old(nextId), old(clock), email, phoneNumber)]
          && nextId == old(nextId) + 1 && clock == old(clock) + 1
          && res == Ok(Response(old(nextId), Listed(email), Listed(phoneNumber), []))
    {
      if Given(email) && !isEmail(email.value) {
        return ValidationFailed;
      }
      NewPrimaryResponse(rows, nextId, clock, email, phoneNumber);
      CreatePrimary(email, phoneNumber);
      res := Report(email, phoneNumber);
    }

    /** One candidate `p`: a new secondary under `p` when both values are
        supplied and `p` does not hold both; otherwise no write. Either way
        `p` is reported. */
    method ResolveOne(email: Option<string>, phoneNumber: Option<string>, isEmail: string -> bool) returns (res: Outcome)
      requires Valid()
      requires |Candidates(rows, email, phoneNumber)| == 1
      modifies this
      ensures Valid()
      ensures var p := Candidates(old(rows), email, phoneNumber)[0];
        if !NeedsSecondary(p, email, phoneNumber) then
          unchanged(this) && res == Ok(Assemble(rows, p.id))
        else if !isEmail(email.value) then
          res == ValidationFailed && unchanged(this)
        else
          && rows == old(rows) + [NewSecondary(old(nextId), old(clock), email, phoneNumber, p.id)]
          && nextId == old(nextId) + 1 && clock == old(clock) + 1
          && res == Ok(Assemble(rows, p.id))
    {
      var p := Candidates(rows, email, phoneNumber)[0];
      if Given(email) && Given(phoneNumber) {
        if p.email == email && p.phoneNumber == phoneNumber {
          // the candidate already holds both values
        } else {
          if !isEmail(email.value) {
            return ValidationFailed;
          }
          CreateSecondary(email, phoneNumber, p);
        }
      }
      res := Report(email, phoneNumber);
    }

    /** Several candidates: every one but the oldest is demoted under the
        oldest, which is reported. */
    method ResolveMany(email: Option<string>, phoneNumber: Option<string>) returns (res: Outcome)
      requires Valid()
      requires |Candidates(rows, email, phoneNumber)| >= 2
      modifies this
      ensures Valid()
      ensures var cands := Candidates(old(rows), email, phoneNumber);
        && rows == Demoted(old(rows), IdsOf(cands[1..]), cands[0].id, old(clock))
        && cands[0] in rows
        && nextId == old(nextId) && clock == old(clock) + 1
        && res == Ok(Assemble(rows, cands[0].id))
    {
      Merge(email, phoneNumber, Candidates(rows, email, phoneNumber));
      res := Report(email, phoneNumber);
    }

    /** `identify`: validate the input, look up the candidates, dispatch on
        their number, then look up again and assemble the response. Every
        branch leaves a match behind, so the response is never 'No primary
        contact found'. */
    method Identify(email: Option<string>, phoneNumber: Option<string>, isEmail: string -> bool) returns (res: Outcome)
      requires Valid()
      modifies this
      ensures Valid()
      // nothing supplied
      ensures !Given(email) && !Given(phoneNumber) ==> res == MissingInput && unchanged(this)
      // all or nothing
      ensures !res.Ok? ==> unchanged(this)
      ensures res != NoPrimary
      // no candidate: one new primary
      ensures (Given(email) || Given(phoneNumber)) && |Candidates(old(rows), email, phoneNumber)| == 0 ==>
        if Given(email) && !isEmail(email.value) then
          res == ValidationFailed
        else
          && rows == old(rows) + [NewPrimary(old(nextId), old(clock), email, phoneNumber)]
          && nextId == old(nextId) + 1 && clock == old(clock) + 1
          && res == Ok(Response(old(nextId), Listed(email), Listed(phoneNumber), []))
      // one candidate: a new secondary under it, or nothing
      ensures (Given(email) || Given(phoneNumber)) && |Candidates(old(rows), email, phoneNumber)| == 1 ==>
        var p := Candidates(old(rows), email, phoneNumber)[0];
        if !NeedsSecondary(p, email, phoneNumber) then
          unchanged(this) && res == Ok(Assemble(rows, p.id))
        else if !isEmail(email.value) then
          res == ValidationFailed
        else
          && rows == old(rows) + [NewSecondary(old(nextId), old(clock), email, phoneNumber, p.id)]
          && nextId == old(nextId) + 1 && clock == old(clock) + 1
          && res == Ok(Assemble(rows, p.id))
      // several candidates: every one but the oldest is demoted under it
      ensures (Given(email) || Given(phoneNumber)) && |Candidates(old(rows), email, phoneNumber)| >= 2 ==>
        var cands := Candidates(old(rows), email, phoneNumber);
        && rows == Demoted(old(rows), IdsOf(cands[1..]), cands[0].id, old(clock))
        && cands[0] in rows
        && nextId == old(nextId) && clock == old(clock) + 1
        && res == Ok(Assemble(rows, cands[0].id))
    {
      if !Given(email) && !Given(phoneNumber) {
        return MissingInput;
      }
      var existing := Candidates(rows, email, phoneNumber);
      if |existing| == 0 {
        res := ResolveNone(email, phoneNumber, isEmail);
      } else if |existing| == 1 {
        res := ResolveOne(email, phoneNumber, isEmail);
      } else {
        res := ResolveMany(email, phoneNumber);
      }
    }
  }
}
