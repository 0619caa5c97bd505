/**
  The data model of the client board: one table of clients, each in one of
  three swimlanes and holding a priority rank inside its lane (1 = top).
 */
module Clients {

  /** The three swimlanes, the only values the `status` column may hold. */
  datatype Lane = Backlog | InProgress | Complete

  /**
    One row of the `clients` table. `details` stands for the descriptive
    columns (name, description, ...) that the ranking code never writes.
   */
  datatype Client = Client(id: int, status: Lane, priority: int, details: string)

  datatype Option<T> = None | Some(value: T)

  datatype Error = NotFound(id: int)

  datatype Result<T> = Ok(value: T) | Err(error: Error)

  /** `id` is the table's key: no two rows share one. */
  predicate UniqueIds(rows: seq<Client>)
  {
    forall i, j :: 0 <= i < j < |rows| ==> rows[i].id != rows[j].id
  }

  /**
    The position of the first row whose id is `id`, or -1 when no row has it;
    this is the `find` the handler runs over a full-table read.
   */
  function IndexOf(rows: seq<Client>, id: int): (r: int)
    ensures -1 <= r < |rows|
    ensures 0 <= r ==> rows[r].id == id
    ensures forall j :: 0 <= j < |rows| && (r < 0 || j < r) ==> rows[j].id != id
  {
    if rows == [] then -1
    else if rows[0].id == id then 0
    else
      var t := IndexOf(rows[1..], id);
      if t < 0 then -1 else t + 1
  }

  /** With unique ids a row is found exactly where it is. */
  lemma IndexOfUnique(rows: seq<Client>, k: int)
    requires UniqueIds(rows) && 0 <= k < |rows|
    ensures IndexOf(rows, rows[k].id) == k
  {
  }

  /** `UPDATE clients SET priority = p WHERE id = id`. */
  function SetPriority(rows: seq<Client>, id: int, p: int): seq<Client>
  {
    seq(|rows|, k requires 0 <= k < |rows| =>
      if rows[k].id == id then rows[k].(priority := p) else rows[k])
  }

  /** `UPDATE clients SET priority = p, status = lane WHERE id = id`. */
  function SetPriorityAndStatus(rows: seq<Client>, id: int, p: int, lane: Lane): seq<Client>
  {
    seq(|rows|, k requires 0 <= k < |rows| =>
      if rows[k].id == id then rows[k].(priority := p, status := lane) else rows[k])
  }

  /**
    The rows of one lane in table order: `select * from clients where
    status = ?`, and equally the `filter` step of `filterClients`.
   */
  function Select(rows: seq<Client>, lane: Lane): (r: seq<Client>)
    ensures |r| <= |rows|
    ensures forall c :: c in r ==> c in rows && c.status == lane
    ensures forall k :: 0 <= k < |rows| && rows[k].status == lane ==> rows[k] in r
  {
    if rows == [] then []
    else if rows[0].status == lane then [rows[0]] + Select(rows[1..], lane)
    else Select(rows[1..], lane)
  }

  /** The number of clients in a lane. */
  function Count(rows: seq<Client>, lane: Lane): nat
  {
    |Select(rows, lane)|
  }

  /**
    The ranking invariant of one lane: with n members, every member's
    priority lies in 1..n, no two members share one, and every value in
    1..n is held, so the priorities are exactly 1..n once each.
   */
  ghost predicate Contiguous(rows: seq<Client>, lane: Lane)
  {
    && (forall k :: 0 <= k < |rows| && rows[k].status == lane ==>
          1 <= rows[k].priority <= Count(rows, lane))
    && (forall i, j :: 0 <= i < j < |rows| && rows[i].status == lane && rows[j].status == lane ==>
          rows[i].priority != rows[j].priority)
    && (forall v :: 1 <= v <= Count(rows, lane) ==> Taken(rows, lane, v))
  }

  /** Some member of `lane` holds priority `v`. */
  ghost predicate Taken(rows: seq<Client>, lane: Lane, v: int)
  {
    exists k :: 0 <= k < |rows| && rows[k].status == lane && rows[k].priority == v
  }

  /** Every lane of the board satisfies the ranking invariant. */
  ghost predicate WellRanked(rows: seq<Client>)
  {
    forall lane :: Contiguous(rows, lane)
  }

  /** Rows that agree on who is in `lane` have the same count for it. */
  lemma {:induction false} CountSameMembers(rows: seq<Client>, rows': seq<Client>, lane: Lane)
    requires |rows| == |rows'|
    requires forall k :: 0 <= k < |rows| ==> (rows[k].status == lane <==> rows'[k].status == lane)
    ensures Count(rows, lane) == Count(rows', lane)
  {
    if rows != [] {
      CountSameMembers(rows[1..], rows'[1..], lane);
    }
  }

  /** Rows that agree on every status have the same lane counts. */
  lemma CountSameStatus(rows: seq<Client>, rows': seq<Client>, lane: Lane)
    requires |rows| == |rows'|
    requires forall k :: 0 <= k < |rows| ==> rows[k].status == rows'[k].status
    ensures Count(rows, lane) == Count(rows', lane)
  {
    CountSameMembers(rows, rows', lane);
  }

  /** A lane whose members and rows are all left as they were keeps the ranking invariant. */
  lemma ContiguousFrame(rows: seq<Client>, rows': seq<Client>, lane: Lane)
    requires |rows| == |rows'|
    requires forall k :: 0 <= k < |rows| ==> (rows[k].status == lane <==> rows'[k].status == lane)
    requires forall k :: 0 <= k < |rows| && rows[k].status == lane ==> rows'[k] == rows[k]
    requires Contiguous(rows, lane)
    ensures Contiguous(rows', lane)
  {
    CountSameMembers(rows, rows', lane);
    forall v | 1 <= v <= Count(rows', lane)
      ensures Taken(rows', lane, v)
    {
      assert Taken(rows, lane, v);
      var k :| 0 <= k < |rows| && rows[k].status == lane && rows[k].priority == v;
      assert rows'[k] == rows[k];
    }
  }
}
