# Identity reconciliation: a Dafny model of `identifyUser`

The service keeps a table of contacts. Each contact has:

- an id;
- an optional email and an optional phone number;
- a link precedence, Primary or Secondary;
- an optional `linkedId`;
- a creation time;
- a soft-delete mark.

`identifyUser` takes an observation `(email?, phoneNumber?)`. In order, it:

1. refuses a request with neither identifier;
2. finds the live contacts that share an identifier with the request;
3. when there are none, creates a new Primary;
4. otherwise, maps each match to its effective primary id;
5. fetches the whole cluster those ids span, ordered by creation time;
6. keeps the earliest Primary and demotes every other Primary to a Secondary of it;
7. creates a new Secondary when the request brings an identifier the cluster does not hold;
8. replies with the cluster's emails and phone numbers (the primary's first) and the sorted ids of its Secondaries.

The model has these modules:

- `Contacts` (`contacts.dfy`): the records, the request, the reply, and the table state.
  - `WellFormed`: the table is kept in creation order.
  - `Linked`: the link shape the service itself writes, with every link naming an id already handed out.
- `Resolver` (`resolver.dfy`): every decision of the call as a function of the table and the request.
  - `Resolve`: the whole call, as the reply and the table it leaves behind.
- `Store` (`store.dfy`): the table as a class `ContactStore` with a `seq<Contact>`, an id counter and a clock.
  - `Identify`: the call as a method that changes the table step by step, proved equal to `Resolve`.
  - `CollectAnchors` and `CollectIdentifiers`: the two accumulation loops of the source, proved against their specification functions.
- `Invariants` (`invariants.dfy`): the call keeps the table in creation order and keeps the link shape.
- `Properties` (`properties.dfy`): what one call guarantees. It covers:
  - the election;
  - the demotions;
  - when a row is created;
  - the contents, order and uniqueness of the reply lists;
  - the secondary ids.
- `Repeat` (`repeat.dfy`): sending the same request again right after a successful call changes nothing, and gets the same reply when the first call merged nothing.
- `Scenarios` (`scenarios.dfy`): small tables worked through `Resolve`.
- `Sequences` and `Wrappers`: generic sequence functions and `Option`.

Modelling choices:

- **Truthiness.** An identifier is truthy when it is present and not the empty string, as in JavaScript. A falsy identifier is stored as null (`value || null`).
- **Matching.** A missing identifier is passed to the query as `undefined`. The model assumes that this query arm then matches nothing. So matching is exact equality on the request's truthy identifiers, and the query's `deletedAt: null` condition keeps deleted rows out.
- **Order.** The table is a sequence in creation order:
  - ids increase along it;
  - creation times never decrease;
  - the id counter and the clock stay ahead of every row.
  
  The cluster query's `orderBy createdAt` is therefore the table order, with ties on `createdAt` going to the smaller id.
- **No Primary.** When the fetched cluster holds no Primary, the source dereferences an undefined `chosen` before it writes anything. The handler then replies with the zeroed body and status 500. The model returns `ServerError` with the zeroed body and the table unchanged.
- **Stale snapshot.** The reply is built from the rows fetched before the demotion. A Primary demoted in the same call therefore still counts as Primary there and is not listed among the secondary ids.
- **Shallow links.** A demoted Primary's own earlier Secondaries keep their link to it.

The intended behaviour of the service is that every cluster keeps exactly one Primary with every Secondary linked to it, that a merge reply lists every row of the merged cluster other than the primary as a Secondary, that repeating a request gives the same reply, and that the only errors are invalid input and store failures. The code departs from that intent in four places, and the model follows the code:

- **Merge reply.** Take Primary 1 with `a@x.com`, Primary 2 with `222`, and a request carrying both. Row 2 is demoted, so the intended `secondaryContactIds` is `[2]`. The code replies `[]` because of the stale snapshot (`Scenarios.MergeScenario`).
- **Repeats.** The code gives an identical reply to a repeat only when the first call merged nothing: it was refused, it created a Primary, it failed, or the cluster it fetched held one Primary (`Repeat.RepeatRepliesAlike`). After a merge, the second reply also lists the demoted ids. What always holds is that the repeat creates and demotes nothing (`Repeat.RepeatChangesNothing`).
- **One Primary per cluster.** Because of shallow links, a request that reaches a cluster only through an old Secondary of a demoted Primary finds no Primary, and the call ends in the 500 reply (`Scenarios.ShallowLinkScenario`).
- **Errors.** Besides invalid input, the code also fails when a cluster has no Primary, as above. Store failures are not modelled.

## Model

| member | source | states |
|---|---|---|
| Contacts.OrNull | identityService.ts:42-43 | storing an identifier as null when it is falsy keeps a truthy one as it is |
| Contacts.UniqueIds | identityService.ts:40-46 | in a table in creation order, two rows with the same id are the same row |
| Sequences.Filter | identityService.ts:78-80 | `filter` keeps exactly the elements that pass, and no more of them |
| Sequences.FilterPairwise | identityService.ts:78-80 | filtering keeps the relative order of the rows it keeps |
| Sequences.FilterDistinct | identityService.ts:127 | filtering a duplicate-free list keeps it duplicate-free |
| Sequences.FirstSeen | identityService.ts:115-124 | a JavaScript `Set` filled in order lists each value once, the same values as its input |
| Sequences.FirstSeenOrder | identityService.ts:115-124 | the `Set` lists values in the order of their first occurrence |
| Sequences.FrontProperties | identityService.ts:126-131 | moving a listed value to the front keeps the list duplicate-free with the same values and puts that value first |
| Sequences.FrontPairwise | identityService.ts:127 | behind the moved value the remaining values keep their order |
| Sequences.InsertAscending | identityService.ts:136 | inserting into an ascending list keeps it ascending, strictly when the value is new |
| Sequences.SortAscending | identityService.ts:136 | the numeric sort returns a permutation of its input |
| Sequences.SortAscendingOrders | identityService.ts:136 | the numeric sort is ascending, strictly when the ids are distinct |
| Resolver.Matches | identityService.ts:29-37 | the matches are exactly the live rows sharing a truthy identifier with the request |
| Resolver.AnchorsByPrecedence | identityService.ts:58-65 | an id is an effective primary id exactly when it is the id of a matching Primary or the non-zero link of a matching Secondary |
| Resolver.AnchorsSnoc | identityService.ts:59-65 | one more match adds its effective primary id, if it has one |
| Resolver.Cluster | identityService.ts:67-76 | the cluster is exactly the live rows whose id or link is an effective primary id |
| Resolver.Primaries | identityService.ts:78-80 | the primaries are exactly the cluster's Primary rows |
| Resolver.Demote | identityService.ts:84-93 | the bulk update keeps the table's length |
| Resolver.Values | identityService.ts:96-121 | the values the reply loop visits are exactly the values the union sets hold: the non-empty values of the field across the cluster |
| Resolver.IdentifiersSnoc | identityService.ts:118-121 | one more row adds its value unless it is falsy or already listed |
| Resolver.SecondaryIds | identityService.ts:133-135 | the listed ids are exactly those of the Secondary rows |
| Resolver.SecondaryIdsDistinct | identityService.ts:133-135 | rows with distinct ids give a duplicate-free id list |
| Resolver.Resolve | identityService.ts:14-158 | invalid input exactly when neither identifier is truthy; an error reply carries the zeroed body and leaves the table as it was; a call adds at most one row and advances the id counter by the rows it adds |
| Invariants.AppendWellFormed | identityService.ts:104-111 | a row created with the next id and the current clock keeps the table in creation order |
| Invariants.DemoteWellFormed | identityService.ts:84-93 | the bulk update keeps ids, creation times and the table order |
| Invariants.DemoteLinked | identityService.ts:84-93 | demoting to a truthy id already handed out keeps every row's link shape and every link behind the id counter |
| Invariants.AppendLinked | identityService.ts:104-111 | adding a row with the link shape whose link names an id already handed out keeps the table's links in shape |
| Invariants.ResolveKeepsWellFormed | identityService.ts:14-158 | every call keeps the table in creation order with the counters ahead of every row |
| Invariants.ResolveKeepsLinked | identityService.ts:39-113 | every call keeps the link shape: Primaries unlinked, Secondaries linked to a truthy id already handed out |
| Store.CollectAnchors | identityService.ts:58-65 | the loop collects exactly the effective primary ids of the matches |
| Store.CollectIdentifiers | identityService.ts:115-124 | the loop collects the emails and the phone numbers each once, in first-seen order |
| Store.ContactStore.Create | identityService.ts:40-46 | `create` appends a row with the next id and the current time, and the table stays in creation order |
| Store.ContactStore.Identify | identityService.ts:14-158 | the method replies as `Resolve` does and leaves the table `Resolve` describes, keeping it in creation order |
| Properties.ClusterOrdered | identityService.ts:67-76 | the cluster and its primaries come out in creation order |
| Properties.ChosenIsEarliest | identityService.ts:75-81 | the chosen primary is a Primary of the cluster, and every other Primary was created no earlier and has a larger id |
| Properties.DemotedAreOtherPrimaries | identityService.ts:83-94 | the update touches a row exactly when the row's id is among the ids of the later primaries, that is, when it is a Primary of the cluster other than the chosen one |
| Properties.LaterIds | identityService.ts:78-93 | among rows in creation order, a table row carries the id of a row after the first exactly when it is one of those later rows |
| Properties.MergeDemotesOtherPrimaries | identityService.ts:83-94 | every other Primary of the cluster becomes a Secondary linked to the chosen id; no other existing row changes, and Secondaries never change |
| Properties.NewSecondaryOnlyForUnseen | identityService.ts:96-113 | a row is created exactly when the request brings an identifier missing from the cluster's unions, and it is a live Secondary linked to the chosen id with the next id and the request's identifiers |
| Properties.NoMatchCreatesPrimary | identityService.ts:39-56 | without a match exactly one row is added: an unlinked Primary with the request's identifiers, and the reply lists only those identifiers and no secondary ids |
| Properties.ArrangedIdentifiers | identityService.ts:115-131 | a reply list is duplicate-free, holds exactly the union, starts with the primary's own value when it has one, and keeps the rest in first-seen order |
| Properties.FrontOrder | identityService.ts:126-131 | moving the primary's value to the front keeps the first-seen order of the others |
| Properties.SortedSecondaryIds | identityService.ts:133-136 | the secondary ids ascend strictly and are exactly those of the Secondary members |
| Properties.MembersShape | identityService.ts:96-112 | the rows the reply is built from hold the chosen primary and have distinct ids, and their union is the cluster's plus the new row's identifiers |
| Properties.MatchedReply | identityService.ts:103-145 | a matched call replies Ok with the projection of the cluster, plus the new Secondary when one is created, around the chosen primary |
| Properties.MatchedReplyLists | identityService.ts:115-131 | after a match, the reply names the chosen primary, and each list is duplicate-free, holds exactly the cluster's values plus the new row's, and starts with the primary's own value |
| Properties.MatchedReplySecondaryIds | identityService.ts:133-136 | after a match, the secondary ids ascend strictly and are the snapshot's Secondaries plus the new row; no Primary of the snapshot, demoted or not, is listed |
| Repeat.MatchInCluster | identityService.ts:58-76 | with the usual link shape every match lies in the cluster it anchors |
| Repeat.SettledIsFixed | identityService.ts:96-113 | when the request's identifiers are known and its cluster has one Primary, the call changes nothing and projects the fetched cluster |
| Repeat.NoMatchSettles | identityService.ts:39-56 | after a call that created a Primary, that row is its cluster's only Primary and holds the request's identifiers |
| Repeat.ResolveSteps | identityService.ts:83-113 | after a matched call, the table is the old rows with the other Primaries demoted, followed by the new Secondary if one was created |
| Repeat.DemotedAlike | identityService.ts:84-93 | demotion keeps a row's id, identifiers, deletion mark and whether it matches |
| Repeat.AnchorsAfterRewrite | identityService.ts:58-65 | after the demotions, a request anchors at the chosen id or at an id it anchored at before |
| Repeat.KeptPrimary | identityService.ts:84-113 | a Primary after the demotions and the insert is an old row that was not demoted |
| Repeat.PrimaryAfterRewrite | identityService.ts:78-94 | after the demotions, the chosen primary is the only Primary reachable from the request |
| Repeat.ChosenAfterRewrite | identityService.ts:58-94 | after the demotions, the chosen primary is still in the table and the request still anchors at it |
| Repeat.ChosenStaysInCluster | identityService.ts:58-81 | after a matched call, the chosen primary is still a Primary of the request's cluster |
| Repeat.OnlyChosenPrimary | identityService.ts:78-94 | after a matched call, every Primary of the request's cluster is the chosen one |
| Repeat.MatchedKnown | identityService.ts:96-113 | after a matched call, every truthy identifier of the request is on a live row |
| Repeat.MatchedSettles | identityService.ts:83-113 | after a matched call, the chosen primary is the cluster's only Primary and the request's identifiers are known |
| Repeat.RepeatChangesNothing | identityService.ts:29-113 | repeating a request right after it succeeded creates and demotes nothing and names the same primary |
| Repeat.QuietRewrite | identityService.ts:67-76 | when nothing was demoted, the cluster fetched again is the old one plus the new row |
| Repeat.MatchedReplyIs | identityService.ts:112-145 | a matched call replies with the projection of its snapshot plus the row it created |
| Repeat.StepMembers | identityService.ts:103-112 | the rows a matched reply is built from are the snapshot followed by the rows the call added |
| Repeat.RepeatCluster | identityService.ts:67-76 | when the first call merged nothing, the repeat fetches the first snapshot plus the created row |
| Repeat.StepCluster | identityService.ts:58-76 | after a call that demoted nothing, the cluster fetched again is the first snapshot followed by the rows the call added |
| Repeat.RepeatReply | identityService.ts:115-145 | the repeat of a matched call projects the cluster it fetches around the same chosen primary |
| Repeat.MatchedRepliesAlike | identityService.ts:29-145 | when a matched call fetched a cluster with one Primary, the repeat sends back the very same reply |
| Repeat.NoMatchCluster | identityService.ts:39-76 | after a call that created a Primary, that row alone is the request's cluster |
| Repeat.SoleProjection | identityService.ts:48-55 | a lone Primary projects to its own identifiers and no secondary ids, the reply of the call that created it |
| Repeat.NoMatchRepliesAlike | identityService.ts:39-145 | repeating a request that created a Primary sends back the very same reply |
| Repeat.RepeatRepliesAlike | identityService.ts:18-145 | whenever the first call's cluster held at most one Primary (a refused request, a first contact, a server error, or a match without a merge), the repeat sends back the very same reply |
| Scenarios.NoIdentifierScenario | identityService.ts:18-27 | a request with neither identifier gets the zeroed invalid-input reply and the table is untouched |
| Scenarios.FirstContactScenario | identityService.ts:39-56 | an empty table and `{email: "a@x.com"}` give Primary 1 and the reply `(1, ["a@x.com"], [], [])` |
| Scenarios.NewSecondaryScenario | identityService.ts:96-145 | Primary 1 `{a@x.com, 111}` and the request `{b@x.com, 111}` give Secondary 2 linked to 1 and the reply `(1, [a@x.com, b@x.com], [111], [2])` |
| Scenarios.MergeScenario | identityService.ts:83-136 | Primaries 1 `{a@x.com}` and 2 `{222}` and the request `{a@x.com, 222}` demote 2 under 1 and reply `(1, [a@x.com], [222], [])` |
| Scenarios.ShallowLinkScenario | identityService.ts:58-94 | after a merge demotes 2, a request matching only its old Secondary 3 reaches no Primary and gets the server error, with the table untouched |

## Left out

- The Express plumbing is not modelled: reading `req.body`, `res.status(...).json(...)` and the numeric status codes. The reply carries a `Status` tag instead: `Ok` for 200, `InvalidInput` for 400, `ServerError` for 500.
- `app.ts` (server bootstrap) and the `prisma` client it is expected to provide are not part of this model.
- The database queries are modelled as filters over the table sequence. The treatment of `undefined` in a query arm is assumed to match nothing, as described above.
- Database failures are not modelled: the store never fails. `ServerError` arises only from a cluster without a Primary.
- Ties on `createdAt` are broken by id. The table order stands for the database's ordering, as described above.
- `updatedAt` and the wall-clock `new Date()` are not modelled. `createdAt` comes from an abstract counter that advances on each insert.
- The `console.error` logging is not modelled.
- Concurrency is not modelled. Each call runs alone and atomically, whereas the source awaits several store calls without a transaction.
- Request fields that are not strings (for example a numeric `phoneNumber` in the JSON body) are not modelled: identifiers are optional strings.
- Store.ContactStore.Identify: requires the table to be in creation order with the counters ahead of every row. This stands for the database's id sequence and timestamps, which the source does not check.
- Repeat.RepeatChangesNothing: assumes every row has the link shape the service itself writes: a Primary has no link, and a Secondary has a non-zero link to an id already handed out. A Secondary with a null or zero link, written by some other tool, could leave its row outside every cluster.
- Repeat.RepeatRepliesAlike: holds only when the first call merged nothing. After a merge, the second reply also lists the ids demoted by the first call. It also assumes the link shape above, including that every link names an id already handed out: a row linked to the id a new Primary is about to get would join that Primary's cluster on the repeat.
- Resolver.Demote: its own contract states only the length. Its effect on each row is stated by `Properties.MergeDemotesOtherPrimaries`.
