# Shiptivity client board: rank maintenance

Shiptivity is a kanban-style board of shipping clients. Each client sits in
one of three swimlanes (`backlog`, `in-progress`, `complete`) and has a
`priority` that ranks it within its lane, where 1 is the top. The server
keeps the board in one SQLite table, `clients`. Its one piece of real logic
is the `PUT /api/v1/clients/:id` handler. The handler moves a client to
another lane and/or re-ranks it, then renumbers the lanes involved so that
no two clients of a lane share a priority. A helper, `filterClients`, lists
one lane's members in ascending priority.

The model has six modules:

- `Clients` (clients.dfy): the data model.
  - The `Lane` datatype (the three lanes checked by the status filter) and
    the `Client` record.
  - The row-level `UPDATE` statements, and `select ... where status = ?` (`Select`).
  - The ranking invariant: in every lane the priorities are exactly 1..n,
    once each (`Contiguous`, `WellRanked`).
- `Filter` (filter.dfy): `filterClients`, modelled as filtering plus a stable
  insertion sort by priority. JavaScript's `Array.prototype.sort` is stable,
  so members with equal priority keep the table's row order.
- `Ranking` (ranking.dfy): the handler's effect on the table as a pure
  function of the table before the request (`ReassignRows`). It is built
  from the lane-move branch (`MovedRows`), the same-lane branch
  (`ReorderedRows`) and the response (`Selected`).
- `RankProperties` (properties.dfy): what those functions guarantee.
  - Each lane a move touches ends with exactly 1..n, in the order of the
    previous priorities.
  - In the same lane, the target gets exactly its requested value and the
    others are ranked around it.
  - The no-op cases, idempotence, and preservation of the ranking invariant.
- `Table` (table.dfy): the handler itself, imperative. The table is an array
  of rows in a class. Each SQL `UPDATE` is a loop that writes the matching
  slot. Each `forEach` is a `while` loop with its invariants. The mutable
  counter `updatedPriority` is kept as in the source. Each method is proved
  to leave exactly the table the `Ranking` functions describe.
- `Scenarios` (scenarios.dfy): three small worked boards. Each one is
  computed through the snapshot, the sort and the renumbering.

Inputs are modelled as follows:
- The request's `status` and `priority` are `Option<Lane>` and `Option<int>`.
- A `priority` of 0 or an absent `priority` is false under JavaScript
  truthiness, so neither branch runs.
- An absent `status` never equals the client's lane.
- Client ids are unique (`UniqueIds`). The code relies on this when it looks a
  client up by id and when each `UPDATE ... WHERE id = ?` writes one row. Nothing
  in the handler enforces it: it would come from the `clients` table's primary
  key, and the table's schema is not part of this model. Every lemma about a
  table requires it.

## Model

| member | source | states |
|---|---|---|
| Clients.SetPriority | server.js:160 | the single-row priority `UPDATE`; `StaySnapshot` states that it rewrites exactly the target's priority, keeps ids unique and keeps the lane's size |
| Clients.SetPriorityAndStatus | server.js:140 | the single-row priority-and-status `UPDATE`; `MoveSnapshot` states that it rewrites exactly the target's priority and lane and keeps ids unique |
| Clients.Contiguous | server.js:110 | the ranking invariant for one lane: its members hold exactly the priorities 1..n, once each; `RenumberContiguous`, `MoveOldLane`, `MoveNewLane` and `StayContiguous` state when it holds after a request |
| Clients.WellRanked | server.js:109-110 | the invariant for the whole board: every lane is `Contiguous`; `ReassignWellRanked` states exactly when a request keeps it |
| Clients.IndexOf | server.js:127-128 | `clients.find` by id: returns the first row with that id, or -1 when none has it |
| Clients.Select | server.js:183 | `filter` by status: every result row is a table row of that lane, and every table row of that lane is in the result |
| Clients.CountSameMembers | server.js:110 | two tables that agree on who is in a lane have the same lane size |
| Clients.ContiguousFrame | server.js:110 | a lane whose members are all left untouched keeps priorities exactly 1..n |
| Filter.Insert | server.js:183 | stable insertion: the result is the input plus the element, as a multiset |
| Filter.SortByPriority | server.js:183 | the sort returns a permutation of its input |
| Filter.SortSorted | server.js:183 | the sort's output is ascending by priority |
| Filter.SortTableOrdered | server.js:183 | sorting a table-ordered list yields ascending priority, with equal priorities in table order (stability) |
| Filter.SelectInTableOrder | server.js:183 | filtering by lane keeps table order |
| Filter.FilterClients | server.js:182-184 | `filterClients`: filter by lane, then the stable sort by priority; `FilterClientsSpec`, `FilterClientsPosition` and `FilterClientsOrder` state what it returns |
| Filter.FilterClientsSpec | server.js:182-184 | `filterClients` returns exactly the lane's rows, each once, as a permutation of the filtered rows: the lane size, distinct ids, ascending priority, ties in table order |
| Filter.FilterClientsPosition | server.js:182-184 | a table row appears in `filterClients` output exactly when it is in the lane, and is found there unchanged |
| Filter.FilterClientsOrder | server.js:182-184 | a lane member with a smaller priority, or an equal priority and an earlier row, comes first in `filterClients` output |
| Ranking.Truthy | server.js:139 | JavaScript truthiness of the request's `priority`: present and not 0; `NoOp` states that a falsy priority writes nothing |
| Ranking.MovesLane | server.js:139 | the lane-move guard `status && priority && status !== prevStatus`; `BranchesExclusive` and `MoveWellRanked` are stated under it |
| Ranking.StaysInLane | server.js:159 | the same-lane guard `priority && status === prevStatus`; `BranchesExclusive` and `StayWellRanked` are stated under it |
| Ranking.Ahead | server.js:183 | the sort order on row indices: smaller priority first, ties in row order; `AheadIsPrecedes` proves it is the order `filterClients` uses |
| Ranking.AheadIsPrecedes | server.js:183 | with unique ids, ranking ahead by row index is exactly the `filterClients` sort order |
| Ranking.Renumbered | server.js:147-156 | one `forEach` renumbering: each listed client gets its 1-based position; `RenumberFrame`, `RenumberContiguous` and `RenumberOrder` state its effect, and `RenumberLane` is proved to write it |
| Ranking.SkipRenumbered | server.js:165-175 | the counter loop's result: the j-th other client gets `SkipRank(p, j)`; `StayLane`, `StayCovers` and `StayDistinct` state its effect, and `RenumberAround` is proved to write it |
| Ranking.MovedRows | server.js:139-157 | the lane-move branch: the snapshot after the first `UPDATE`, the old lane renumbered, then the new lane; `MoveSteps`, `MoveOldLane` and `MoveNewLane` state its effect |
| Ranking.ReorderedRows | server.js:159-176 | the same-lane branch: the snapshot after the `UPDATE`, then the counter loop over the other members; `StayLane`, `StayContiguous` and `StayDistinct` state its effect |
| Ranking.Selected | server.js:178-179 | the response: the requested lane in ascending priority, empty for an absent status; `Reassign` is proved to return it |
| Ranking.BranchesExclusive | server.js:139-159 | the lane-move and same-lane guards never both hold |
| Ranking.SkipRank | server.js:165-173 | the counter value handed to the j-th other member is never the requested value, and is j+1 or j+2 |
| Ranking.ReassignRows | server.js:126-179 | the request keeps the number of rows, and every id and other field; only the target's lane can change; an unknown id leaves the table unchanged |
| RankProperties.RenumberFrame | server.js:147-149 | renumbering a lane by its `filterClients` order changes only priorities, touches no other lane, and gives each member a rank in 1..n |
| RankProperties.RenumberContiguous | server.js:147-149 | renumbering a lane by its `filterClients` order leaves the lane holding exactly 1..n |
| RankProperties.RenumberOrder | server.js:147-149 | that renumbering keeps the lane's order: an earlier member ends with a smaller rank |
| RankProperties.MoveSteps | server.js:142-156 | the lane-move table equals renumbering the new lane in the `filterClients` order of the intermediate table (after the old lane's renumbering), and `MovedRows` takes that order from the snapshot, so either order gives the same table; the intermediate table keeps ids unique, gives the target its new lane and priority, leaves every row outside the old lane as in the snapshot, holds 1..n-1 in the old lane, and the new lane has one more member than before |
| RankProperties.MoveOldLane | server.js:139-149 | lane move, old lane: the remaining members hold exactly 1..n (one fewer than before), ranked in the order of their previous priorities, ties in table order |
| RankProperties.MoveNewLane | server.js:151-156 | lane move, new lane: the target is in the new lane, which holds exactly 1..m (one more than before), ranked by the snapshot's priorities with the target keyed by its requested value; the third lane is untouched |
| RankProperties.MoveOldPair | server.js:144-149 | two remaining old-lane members keep their relative order |
| RankProperties.MoveNewPair | server.js:151-156 | two new-lane members are ranked by snapshot priority, with ties in table order |
| RankProperties.StayLane | server.js:159-175 | same lane: the target ends at exactly the requested value; every other member gets a rank other than it, within 1..SkipBound, strictly increasing in the order of their previous priorities; other lanes and all other fields are unchanged |
| RankProperties.StayOthersOrder | server.js:163-168 | the counter loop walks the other members in the order of their previous priorities |
| RankProperties.StayCovers | server.js:165-175 | with n other members, every positive integer up to SkipBound(n, p) except p is held by one of them |
| RankProperties.StayContiguous | server.js:159-175 | same lane: the lane holds exactly 1..n afterwards if and only if the requested value lies in 1..n |
| RankProperties.StayDistinct | server.js:165-175 | same lane: no two members of the lane share a rank |
| RankProperties.NoOp | server.js:139-159 | with priority absent or 0, or status absent, nothing is written; a status-only request does not move the client |
| RankProperties.ReassignWellRanked | server.js:126-179 | starting from a well-ranked board, every lane is still exactly 1..n afterwards, except exactly when a same-lane request asks for a value outside 1..n |
| RankProperties.MoveWellRanked | server.js:139-157 | a lane move keeps every lane well ranked |
| RankProperties.StayWellRanked | server.js:159-176 | a same-lane request keeps the board well ranked if and only if the value lies in 1..n |
| RankProperties.RanksAroundGap | server.js:165-173 | n-1 strictly ascending ranks from 1..n that avoid p are exactly the counter's sequence |
| RankProperties.OthersHoldSkipRanks | server.js:163-173 | in a well-ranked lane, the other members already hold the counter's ranks around the target's own |
| RankProperties.SameRequestIdempotent | server.js:159-175 | in a well-ranked lane, asking for a client's own lane and own priority leaves the whole table unchanged |
| RankProperties.WithoutOrder | server.js:168 | skipping the target keeps the other members' order |
| RankProperties.RenumberedStep | server.js:147-148 | one `forEach` step adds one renumbered member and changes nothing else |
| RankProperties.SkipRenumberedStep | server.js:166-171 | one counter step adds one ranked member and changes nothing else |
| Scenarios.PromoteWithinLane | server.js:159-175 | backlog A(1) B(2) C(3), B asks for 1: A becomes 2, B 1, C 3 |
| Scenarios.MoveAcrossLanes | server.js:139-156 | backlog A(1) E(2), in progress D(1); A moves to in progress at 1: E becomes 1; A and D tie, so A takes 1 and D 2 |
| Scenarios.LoneClientOutOfRange | server.js:159-175 | a lane's only client asks for 5, keeps 5, and the lane is no longer exactly 1..1 |
| Table.Find | server.js:128 | the linear search returns the first row with the id, or nothing exactly when no row has it |
| Table.ClientTable.UpdatePriority | server.js:160 | the single-row priority `UPDATE` |
| Table.ClientTable.UpdatePriorityAndStatus | server.js:140 | the single-row priority-and-status `UPDATE` |
| Table.ClientTable.RenumberLane | server.js:147-156 | the `forEach` gives every listed client its 1-based position |
| Table.ClientTable.RenumberAround | server.js:165-175 | the counter loop gives every other listed client its counter rank, skipping the requested value |
| Table.ClientTable.Reassign | server.js:126-179 | the handler leaves exactly `ReassignRows` of the old table, answers with the requested lane sorted by priority, and fails with NotFound, writing nothing, for an unknown id |

## Left out

- HTTP plumbing is not modelled: Express routing, CORS, JSON body parsing, status codes and `app.listen`. The NotFound error stands for the 404 response.
- The SQLite connection, its lifecycle and the signal handlers are not modelled. The table is an in-memory array in row order, and a full-table read is a snapshot of it.
- `validateId` and `validatePriority` are not modelled. The id and the priority are taken as integers. The missing `return` after a 400 response only causes a second send, so it is left out too.
- JavaScript type coercion is left out. A string, fractional or NaN priority, and the `===` comparison it would defeat in the counter loop, are not modelled.
- Invalid status strings are left out. `status` is a `Lane`, and the lane check is carried by the `Lane` type.
- The response's select with an absent status binds `undefined`, which matches no row. It is modelled as an empty result.
- The GET endpoints are not modelled. They are plain queries with no ranking logic.
- Concurrent requests are not modelled. There is no transaction around the read and the writes, and the model runs one request at a time.
- Integer width is not modelled. Priorities are unbounded integers. The handler itself only computes values up to one more than a lane's size.
- The doc comment on the PUT handler says a status-only request changes the client's status. The code writes nothing in that case, and the model follows the code (`RankProperties.NoOp`).
- On a request that matches neither branch, the response lists the requested lane, not the client's current lane. The model follows the code (`Ranking.Selected`).
