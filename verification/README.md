# Contact identity resolution, modelled in Dafny

This project models the `identify` routine of a contact-reconciliation
service (`src/controllers/contact.controller.ts`). A request carries an
optional email and an optional phone number. The routine looks them up in
the `contacts` table, then updates the table in one of three ways:

- it creates a new primary contact when nothing matches;
- it links a new secondary contact to the one match;
- it merges several matching primaries under the oldest one.

Finally it answers with the reported contact's id, the emails and phone
numbers of its cluster, and the ids of the cluster's secondary contacts.

The model is split into six modules.

- `Contacts` (contacts.dfy) defines the table row. It also says when a
  request field counts as supplied: present and not the empty string,
  because null, undefined and `""` are all falsy.
- `Ordering` (ordering.dfy) states the two ORDER BY clauses as sort keys.
  An insertion sort is proved to sort by them and to permute its input.
- `Lookup` (lookup.dfy) is the candidate query `findPrimaryContacts`, a
  filter followed by the sort. Its second branch returns the `linkedId`
  target of any secondary that matches. Nothing requires that target to be
  a primary.
- `Assembly` (assembly.dfy) builds the response: the cluster query, the
  null-free and duplicate-free value lists in first-seen order, and the
  secondary ids.
- `Writes` (writes.dfy) holds the rows each write produces, the table
  invariant `TableOk`, and the lemmas showing that every branch keeps the
  invariant and leaves a match for the second lookup.
- `Store` (store.dfy) is the mutable table. The class `ContactStore` holds
  the rows, the next auto-increment id and a logical clock. `Identify`
  validates the input and dispatches on the number of candidates to
  `ResolveNone`, `ResolveOne` or `ResolveMany`. Each of these writes
  through `CreatePrimary`, `CreateSecondary` or `Merge` and answers
  through `Report`, which is the second lookup with its 'No primary
  contact found' branch. `Identify` is proved never to reach that branch.

Two request sequences are modelled in scenarios.dfy.

- `Scenarios` runs requests against a fresh store.
- `Chains` runs five requests after which the reported contact is a
  secondary row.

The code does not fully match two properties one would expect of this
routine. The model follows the code in both cases.

- **Repeated requests are not idempotent.** A repeated request that
  carries both an email and a phone number, finds exactly one candidate,
  and differs from that candidate's own email or phone number adds a new
  secondary every time. A request that lacks either field writes nothing
  in that branch (`contact.controller.ts:128`). The single-candidate branch compares the
  request only with the candidate's own email and phone
  (`contact.controller.ts:128-129`), never with the secondaries already
  linked to it. `Scenarios.RepeatedLink` proves this.
  Idempotence does hold after a request that created a new primary
  (`Writes.RepeatAfterNewPrimary`).
- **The reported contact can be a secondary.** A merge leaves the
  secondaries of a demoted primary pointing at the demoted row. A request
  that reaches only such a secondary then reports the demoted row itself,
  and lists its id among its own secondary ids
  (`Chains.SecondaryReported`).

## Model

| member | source | states |
|---|---|---|
| Contacts.Stored | src/controllers/contact.controller.ts:107-108 | a create stores a request field exactly when it is supplied (non-empty), and stores it unchanged |
| Ordering.Insert | src/controllers/contact.controller.ts:98 | inserting into a sorted list yields a sorted list holding the old rows plus the new one (multiset) |
| Ordering.SortBy | src/controllers/contact.controller.ts:98 | the ORDER BY result is sorted by the key and is a permutation of its input |
| Ordering.SortKeepsIdsUnique | src/controllers/contact.controller.ts:96-100 | sorting a table with unique ids yields unique ids |
| Lookup.Select | src/controllers/contact.controller.ts:66-94 | the WHERE clause keeps exactly the rows that are a matching primary or the `linkedId` target of a matching secondary |
| Lookup.Candidates | src/controllers/contact.controller.ts:65-101 | a row is returned iff it is in the table and satisfies the WHERE clause; the result is ordered by createdAt ascending |
| Lookup.CandidatesHaveUniqueIds | src/controllers/contact.controller.ts:96-100 | the lookup returns no row twice when ids are unique |
| Lookup.OldestCandidate | src/controllers/contact.controller.ts:154-155 | a matching row that is no younger than every other match is the first row returned |
| Lookup.SoleCandidate | src/controllers/contact.controller.ts:113-114 | when exactly one row matches, the lookup returns that row alone |
| Assembly.ClusterOf | src/controllers/contact.controller.ts:162-176 | the cluster query returns exactly the row with the reported id and the rows linked directly to it, primaries first, secondaries by ascending updatedAt |
| Assembly.Present | src/controllers/contact.controller.ts:179-181 | the non-null values of a column, holding exactly the values some row has, led by the first row's value |
| Assembly.PresentAppend | src/controllers/contact.controller.ts:179-181 | `.map(...).filter(...)` keeps row order: the values of two concatenated row lists are the values of the first, then those of the second |
| Assembly.PresentFirstSeen | src/controllers/contact.controller.ts:178-188 | a value that first occurs before another among the column values is held by a row that precedes every row holding the other |
| Assembly.Dedup | src/controllers/contact.controller.ts:178-182 | the Set spread holds each value once, exactly the input's values, in first-occurrence order, led by the input's first value |
| Assembly.Secondaries | src/controllers/contact.controller.ts:190-191 | keeps exactly the secondary rows |
| Assembly.SecondariesAppend | src/controllers/contact.controller.ts:190-191 | the filter keeps row order: the secondaries of two concatenated row lists are those of the first, then those of the second |
| Assembly.SecondariesInOrder | src/controllers/contact.controller.ts:170-174 | rows in the cluster order (secondaries by ascending updatedAt) give secondaries in ascending updatedAt order |
| Assembly.AssembleLists | src/controllers/contact.controller.ts:178-203 | the response names the reported id; its emails and phone numbers are duplicate-free and are exactly the values held by cluster rows; its secondary ids are exactly the ids of the cluster's secondary rows |
| Assembly.AssembleOrder | src/controllers/contact.controller.ts:170-192 | the response keeps the cluster order: an email or phone number listed before another is held by a cluster row preceding every row holding the other; secondary ids are listed by ascending updatedAt |
| Assembly.SecondaryIdsDistinct | src/controllers/contact.controller.ts:190-192 | no secondary id is listed twice |
| Assembly.PrimaryListedFirst | src/controllers/contact.controller.ts:170-188 | a primary heads its own cluster, so its own email and phone number head the response lists |
| Writes.CandidateAfterAppend | src/controllers/contact.controller.ts:65-101 | after a row is added, a row matches iff it matched before or the new row is a matching secondary linked to it |
| Writes.NewPrimaryKeepsTableOk | src/controllers/contact.controller.ts:106-112 | creating a primary with a fresh id keeps the table invariant |
| Writes.NewSecondaryKeepsTableOk | src/controllers/contact.controller.ts:131-137 | creating a secondary linked to an existing row keeps the table invariant |
| Writes.DemotedKeepsTableOk | src/controllers/contact.controller.ts:140-151 | demoting rows under an existing survivor keeps the table invariant |
| Writes.NewPrimaryIsSoleCandidate | src/controllers/contact.controller.ts:106-112 | after creating a primary when nothing matched, the second lookup returns that row alone |
| Writes.RepeatAfterNewPrimary | tests/contact.test.ts:35-55 | repeating a request that created a primary finds that primary alone and writes nothing |
| Writes.NewSecondaryKeepsSoleCandidate | src/controllers/contact.controller.ts:128-139 | after linking a new secondary to the only candidate, the second lookup still returns that candidate alone |
| Writes.SurvivorNotDemoted | src/controllers/contact.controller.ts:141 | the oldest candidate is not among those demoted |
| Writes.MergeTouchesOnlyLosers | src/controllers/contact.controller.ts:140-151 | the merge changes only the candidates after the oldest (precedence, linkedId, updatedAt); every other row, including the secondaries of demoted rows, is unchanged |
| Writes.SurvivorStillMatches | src/controllers/contact.controller.ts:140-155 | the oldest candidate still matches after the merge |
| Writes.MatchAfterMerge | src/controllers/contact.controller.ts:140-155 | a row that matches after the merge is the survivor or matched before |
| Writes.MergeKeepsOldest | src/controllers/contact.controller.ts:140-160 | after the merge, the second lookup returns the oldest candidate first |
| Writes.NewPrimaryCluster | src/controllers/contact.controller.ts:162-176 | the cluster of a new primary is that row alone |
| Writes.NewPrimaryResponse | src/controllers/contact.controller.ts:106-112 | the response for a new primary is its id, the supplied email and phone, and no secondaries |
| Writes.SingleRowResponse | src/controllers/contact.controller.ts:178-192 | a cluster made of one primary row answers with that row's email and phone number, if held, and no secondary ids |
| Store.ContactStore.DeleteAll | src/controllers/contact.controller.ts:32-53 | every row disappears from the table; ids are not reused |
| Store.ContactStore.DemoteAllBut | src/controllers/contact.controller.ts:140-151 | the update loop leaves the table equal to `Demoted` of the old table, all stamped with one clock reading |
| Store.ContactStore.CreatePrimary | src/controllers/contact.controller.ts:106-112 | appends the new primary with the next id, keeps the invariant, and leaves it the sole match |
| Store.ContactStore.CreateSecondary | src/controllers/contact.controller.ts:128-139 | appends the new secondary linked to the candidate, keeps the invariant, and leaves the candidate the sole match |
| Store.ContactStore.Merge | src/controllers/contact.controller.ts:140-151 | demotes every candidate but the oldest, keeps the invariant, and leaves the oldest first in the lookup |
| Store.ContactStore.Report | src/controllers/contact.controller.ts:154-160 | an empty second lookup answers 'No primary contact found'; otherwise the response is assembled around its first row |
| Store.ContactStore.ResolveNone | src/controllers/contact.controller.ts:106-112 | no candidate: a refused email fails validation with the table unchanged; otherwise exactly one new primary is appended and the response lists it alone |
| Store.ContactStore.ResolveOne | src/controllers/contact.controller.ts:113-139 | one candidate: no write unless both fields are supplied and one differs from the candidate's; then one secondary linked to it, or a validation failure with the table unchanged; the candidate is reported |
| Store.ContactStore.ResolveMany | src/controllers/contact.controller.ts:140-151 | several candidates: all but the oldest are demoted under it, no row is created, and the oldest is reported |
| Store.ContactStore.Identify | src/controllers/contact.controller.ts:55-227 | missing input fails with the table unchanged; any failure leaves the table unchanged; 'No primary contact found' never happens; for 0, 1 and 2+ candidates the new table, id counter, clock and response are as above |
| Scenarios.NewIdentity | tests/contact.test.ts:20-33 | a first request on an empty store creates primary 1 and answers with id 1, its email, its phone number and no secondaries |
| Scenarios.LinkedResponse | tests/contact.test.ts:57-76 | the cluster of primary 1 and one secondary with a new phone number answers with id 1, the shared email once, both phone numbers and secondary id 2 |
| Scenarios.RelinkedResponse | src/controllers/contact.controller.ts:178-192 | with a second identical secondary, the phone numbers stay the same two, and the secondary ids become 2 and 3 |
| Scenarios.LinkPhone2 | src/controllers/contact.controller.ts:128-139 | a known email with a new phone number, while the primary is the only match, appends one secondary under it and answers with the primary's cluster |
| Scenarios.LinkOnce | tests/contact.test.ts:57-76 | after the two requests the table holds the primary and one secondary, and the response is id 1, [a@x.com], [1, 2], [2] |
| Scenarios.LinkAgain | src/controllers/contact.controller.ts:128-139 | the same linking request again adds secondary 3, and the response lists secondary ids 2 and 3 |
| Scenarios.RepeatedLink | src/controllers/contact.controller.ts:128-139 | two identical requests give different responses: secondary ids [2] after the first, [2, 3] after the second |
| Chains.ReportedRowCanBeSecondary | src/controllers/contact.controller.ts:79-92 | in a well-formed table, a request can find a secondary row as its only candidate, and that row is then reported |
| Chains.TwoCandidates | src/controllers/contact.controller.ts:96-101 | when exactly two rows match, the older comes first and the other is the only row after it |
| Chains.FourthStep | src/controllers/contact.controller.ts:140-151 | merging two primaries demotes the younger under the older; a secondary linked to the demoted row keeps its link |
| Chains.SecondaryClusterIds | src/controllers/contact.controller.ts:162-192 | the cluster of a secondary row lists that row's own id among the secondary ids |
| Chains.SecondaryReported | src/controllers/contact.controller.ts:55-227 | five requests from an empty store: (a@x.com, 1), (b@x.com, 2), (b@x.com, 3), (a@x.com, 2), (none, 3); the last reports row 2, a secondary, lists 2 and 3 as secondary ids, and leaves out the survivor's email and phone number |

## Left out

- HTTP plumbing: status codes, JSON bodies, the response key spelled `primaryContatctId`, and console logging. `Outcome` names each answer instead.
- Sequelize and MySQL: transactions are modelled only as all-or-nothing table updates, and raw SQL literals only by what they select.
- The store errors that give the 500 answer are not modelled. One of them depends on the input: `email` and `phoneNumber` are `VARCHAR(255)` columns (`src/models/contact.model.ts:31-42`), so MySQL in strict mode refuses a longer value, and the source rolls back and answers 500. The model has no column width: it stores such a value and answers Ok.
- The MySQL case-insensitive collation is not modelled. Matching is exact string equality, so the case-sensitivity test in `tests/contact.test.ts` does not hold here.
- The email validator `isEmail` (`src/models/contact.model.ts:39-41`) is a foreign library. It is the parameter `isEmail`, consulted only on a create that stores an email.
- Timestamps: a request reads the logical clock once, and every write of that request is stamped with that reading. The clock advances after a request that wrote. Rows that tie on a sort key are ordered by id. The clock never gives two requests the same reading. In the source, `DataTypes.DATE` is a MySQL DATETIME with whole-second resolution, so rows written by different requests in the same second tie on createdAt or updatedAt. MySQL then picks the merge survivor (`contact.controller.ts:141`) and orders same-second secondaries in the cluster (`contact.controller.ts:172`), and the model does not capture that choice.
- `Promise.all` over the demotions is modelled as a sequential loop, so no interleaving of the updates is modelled. Concurrent requests, locking and isolation are not modelled either.
- The missing-input answer (`contact.controller.ts:61-63`) returns 400 without committing or rolling back the transaction opened at `contact.controller.ts:56`. The model leaves the table unchanged, which is right for the rows. It does not model the connection that transaction keeps: the pool holds at most 5 connections (`src/config/database.ts`). After five such requests, opening a transaction waits out its timeout and fails, and every later request answers 500. The connection pool is not part of this model.
- The soft-delete column is not modelled. `DeleteAll` on the paranoid model hides every row and leaves the id counter alone.
- Store.ContactStore.Identify: the response is stated through `Assemble`. Its list properties are proved separately: contents in `Assembly.AssembleLists`, order in `Assembly.AssembleOrder`, distinct ids in `Assembly.SecondaryIdsDistinct`, and the primary's own values first in `Assembly.PrimaryListedFirst`.
