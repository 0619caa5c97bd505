/**
  The effect of `PUT /api/v1/clients/:id` on the table, as a function of the
  table before the request: the target's write, then the renumbering of the
  lanes involved. The imperative handler in module Table is proved to leave
  exactly this table behind; the lemmas here say what that table looks like.
 */
module Ranking {
  import opened Clients
  import opened Filter

  /** JavaScript truthiness of the `priority` field: absent and 0 are both false. */
  predicate Truthy(priority: Option<int>)
  {
    priority.Some? && priority.value != 0
  }

  /** The guard of the lane-move branch: `status && priority && status !== prevStatus`. */
  predicate MovesLane(prev: Lane, status: Option<Lane>, priority: Option<int>)
  {
    status.Some? && Truthy(priority) && status.value != prev
  }

  /** The guard of the same-lane branch: `priority && status === prevStatus`. */
  predicate StaysInLane(prev: Lane, status: Option<Lane>, priority: Option<int>)
  {
    Truthy(priority) && status == Some(prev)
  }

  /** The two branches never both run. */
  lemma BranchesExclusive(prev: Lane, status: Option<Lane>, priority: Option<int>)
    ensures !(MovesLane(prev, status, priority) && StaysInLane(prev, status, priority))
  {
  }

  /**
    Row `a` ranks ahead of row `b`: `Precedes` stated on row indices, which
    is the form the lemmas about a table use (see `AheadIsPrecedes`).
   */
  ghost predicate Ahead(rows: seq<Client>, a: int, b: int)
    requires 0 <= a < |rows| && 0 <= b < |rows|
  {
    rows[a].priority < rows[b].priority || (rows[a].priority == rows[b].priority && a < b)
  }

  /** With unique ids, ranking ahead by row index is the sort order `filterClients` produces. */
  lemma AheadIsPrecedes(rows: seq<Client>, a: int, b: int)
    requires UniqueIds(rows) && 0 <= a < |rows| && 0 <= b < |rows|
    ensures Ahead(rows, a, b) <==> Precedes(rows, rows[a], rows[b])
  {
    IndexOfUnique(rows, a);
    IndexOfUnique(rows, b);
  }

  /**
    Every client listed in `order` takes its 1-based position there as its
    priority; the `forEach((client, index) => ... index + 1 ...)` loops.
   */
  function Renumbered(rows: seq<Client>, order: seq<Client>): seq<Client>
  {
    seq(|rows|, k requires 0 <= k < |rows| =>
      var j := IndexOf(order, rows[k].id);
      if 0 <= j then rows[k].(priority := j + 1) else rows[k])
  }

  /** The members of `s` other than the one with id `id`, in order. */
  function Without(s: seq<Client>, id: int): (r: seq<Client>)
    ensures |r| <= |s|
  {
    if s == [] then []
    else if s[0].id == id then Without(s[1..], id)
    else [s[0]] + Without(s[1..], id)
  }

  /**
    The rank the skipping counter of the same-lane branch hands to the j-th
    other member (from 0): the j+1-th positive integer other than `p`.
   */
  function SkipRank(p: int, j: nat): (r: int)
    ensures r != p && 1 <= r
    ensures r == j + 1 || r == j + 2
  {
    if 1 <= p <= j + 1 then j + 2 else j + 1
  }

  /** Every client listed in `others` takes the skipping counter's rank for its position. */
  function SkipRenumbered(rows: seq<Client>, others: seq<Client>, p: int): seq<Client>
  {
    seq(|rows|, k requires 0 <= k < |rows| =>
      var j := IndexOf(others, rows[k].id);
      if 0 <= j then rows[k].(priority := SkipRank(p, j)) else rows[k])
  }

  /** The table the lane-move branch leaves: both lanes renumbered from one snapshot. */
  function MovedRows(rows: seq<Client>, id: int, prev: Lane, lane: Lane, p: int): seq<Client>
  {
    var snap := SetPriorityAndStatus(rows, id, p, lane);
    Renumbered(Renumbered(snap, FilterClients(snap, prev)), FilterClients(snap, lane))
  }

  /** The table the same-lane branch leaves: the other members ranked around `p`. */
  function ReorderedRows(rows: seq<Client>, id: int, lane: Lane, p: int): seq<Client>
  {
    var snap := SetPriority(rows, id, p);
    SkipRenumbered(snap, Without(FilterClients(snap, lane), id), p)
  }

  /**
    The table after the request (id, status, priority). Only `priority` and
    `status` are ever written, only the target's status can change, and
    nothing is added or removed; an unknown id changes nothing.
   */
  function ReassignRows(rows: seq<Client>, id: int, status: Option<Lane>, priority: Option<int>): (r: seq<Client>)
    requires UniqueIds(rows)
    ensures |r| == |rows|
    ensures forall k :: 0 <= k < |rows| ==>
      r[k].id == rows[k].id && r[k].details == rows[k].details &&
      (r[k].status == rows[k].status || rows[k].id == id)
    ensures IndexOf(rows, id) < 0 ==> r == rows
  {
    var t := IndexOf(rows, id);
    if t < 0 then rows
    else
      var prev := rows[t].status;
      if MovesLane(prev, status, priority) then MovedRows(rows, id, prev, status.value, priority.value)
      else if StaysInLane(prev, status, priority) then ReorderedRows(rows, id, prev, priority.value)
      else rows
  }

  /**
    The response body: `select * from clients where status = ?` sorted by
    priority. An absent status matches no row.
   */
  function Selected(rows: seq<Client>, status: Option<Lane>): seq<Client>
  {
    match status
    case None => []
    case Some(lane) => FilterClients(rows, lane)
  }
}
