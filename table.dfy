/**
  The `clients` table and the `PUT /api/v1/clients/:id` handler, statement
  by statement: every SQL `UPDATE` is a write into one array slot per
  matching row, every `select * from clients` a snapshot of the array.
 */
module Table {
  import opened Clients
  import opened Filter
  import opened Ranking
  import RankProperties

  /** `clients.find(client => client.id === id)`: the first row with that id. */
  method Find(clients: seq<Client>, id: int) returns (r: Option<Client>)
    ensures r.None? <==> forall k :: 0 <= k < |clients| ==> clients[k].id != id
    ensures r.Some? ==> 0 <= IndexOf(clients, id) && r.value == clients[IndexOf(clients, id)]
  {
    var i := 0;
    while i < |clients|
      invariant 0 <= i <= |clients|
      invariant forall k :: 0 <= k < i ==> clients[k].id != id
    {
      if clients[i].id == id {
        return Some(clients[i]);
      }
      i := i + 1;
    }
    return None;
  }

  class ClientTable {
    /** The rows, in the order a full-table read returns them. */
    const rows: array<Client>

    /** `id` is the table's primary key. */
    ghost predicate Valid()
      reads rows
    {
      UniqueIds(rows[..])
    }

    constructor (init: seq<Client>)
      requires UniqueIds(init)
      ensures Valid() && fresh(rows) && rows[..] == init
    {
      rows := new Client[|init|](k requires 0 <= k < |init| => init[k]);
    }

    /** `UPDATE clients SET priority = p WHERE id = id`. */
    method UpdatePriority(id: int, p: int)
      requires Valid()
      modifies rows
      ensures Valid()
      ensures rows[..] == SetPriority(old(rows[..]), id, p)
    {
      var i := 0;
      while i < rows.Length
        invariant 0 <= i <= rows.Length
        invariant forall k :: 0 <= k < i ==>
          rows[k] == if old(rows[k]).id == id then old(rows[k]).(priority := p) else old(rows[k])
        invariant forall k :: i <= k < rows.Length ==> rows[k] == old(rows[k])
      {
        if rows[i].id == id {
          rows[i] := rows[i].(priority := p);
        }
        i := i + 1;
      }
    }

    /** `UPDATE clients SET priority = p, status = lane WHERE id = id`. */
    method UpdatePriorityAndStatus(id: int, p: int, lane: Lane)
      requires Valid()
      modifies rows
      ensures Valid()
      ensures rows[..] == SetPriorityAndStatus(old(rows[..]), id, p, lane)
    {
      var i := 0;
      while i < rows.Length
        invariant 0 <= i <= rows.Length
        invariant forall k :: 0 <= k < i ==>
          rows[k] == if old(rows[k]).id == id then old(rows[k]).(priority := p, status := lane) else old(rows[k])
        invariant forall k :: i <= k < rows.Length ==> rows[k] == old(rows[k])
      {
        if rows[i].id == id {
          rows[i] := rows[i].(priority := p, status := lane);
        }
        i := i + 1;
      }
    }

    /**
      `order.forEach((client, index) => UPDATE priority = index + 1 WHERE
      id = client.id)`: each listed client takes its 1-based position.
     */
    method RenumberLane(order: seq<Client>)
      requires Valid() && UniqueIds(order)
      modifies rows
      ensures Valid()
      ensures rows[..] == Renumbered(old(rows[..]), order)
    {
      ghost var before := rows[..];
      var index := 0;
      assert order[..0] == [];
      assert rows[..] == Renumbered(before, order[..0]);
      while index < |order|
        invariant 0 <= index <= |order|
        invariant Valid()
        invariant rows[..] == Renumbered(before, order[..index])
      {
        RankProperties.RenumberedStep(before, order, index);
        UpdatePriority(order[index].id, index + 1);
        index := index + 1;
      }
      assert order[..index] == order;
    }

    /**
      The same-lane loop: every member of `order` other than `id` takes the
      counter `updatedPriority`, which is bumped once more when it meets `p`.
     */
    method RenumberAround(order: seq<Client>, id: int, p: int)
      requires Valid() && UniqueIds(order)
      modifies rows
      ensures Valid()
      ensures rows[..] == SkipRenumbered(old(rows[..]), Without(order, id), p)
    {
      ghost var before := rows[..];
      ghost var others := Without(order, id);
      RankProperties.WithoutUnique(order, id);
      ghost var done := 0;
      var updatedPriority := 1;
      var i := 0;
      assert order[0..] == order && others[..0] == [];
      assert rows[..] == SkipRenumbered(before, others[..0], p);
      while i < |order|
        invariant 0 <= i <= |order|
        invariant Valid()
        invariant 0 <= done <= |others|
        invariant others[done..] == Without(order[i..], id)
        invariant updatedPriority == done + 1 + (if 1 <= p <= done then 1 else 0)
        invariant rows[..] == SkipRenumbered(before, others[..done], p)
      {
        var client := order[i];
        ghost var rest := Without(order[i + 1..], id);
        RankProperties.WithoutStep(order, id, i);
        if client.id != id {
          assert others[done..] == [client] + rest;
          assert others[done] == others[done..][0] == client;
          assert others[done + 1..] == others[done..][1..] == rest;
          RankProperties.SkipRenumberedStep(before, others, p, done);
          if updatedPriority == p {
            updatedPriority := updatedPriority + 1;
          }
          var adjustedPriority := updatedPriority;
          assert adjustedPriority == SkipRank(p, done);
          UpdatePriority(client.id, adjustedPriority);
          assert rows[..] == SkipRenumbered(before, others[..done + 1], p);
          updatedPriority := updatedPriority + 1;
          done := done + 1;
        } else {
          assert others[done..] == rest;
        }
        i := i + 1;
      }
      assert others[..done] == others;
    }

    /**
      `PUT /api/v1/clients/:id` with body `{ status, priority }`: leaves the
      table `ReassignRows` describes and answers with the requested lane's
      members sorted by priority, or fails with NotFound, writing nothing,
      when no client has the id.
     */
    method Reassign(id: int, status: Option<Lane>, priority: Option<int>) returns (result: Result<seq<Client>>)
      requires Valid()
      modifies rows
      ensures Valid()
      ensures rows[..] == ReassignRows(old(rows[..]), id, status, priority)
      ensures result == if IndexOf(old(rows[..]), id) < 0 then Err(NotFound(id)) else Ok(Selected(rows[..], status))
    {
      var clients := rows[..];
      var client := Find(clients, id);
      if client.None? {
        return Err(NotFound(id));
      }
      var prevStatus := client.value.status;

      if status.Some? && Truthy(priority) && status.value != prevStatus {
        UpdatePriorityAndStatus(id, priority.value, status.value);
        clients := rows[..];
        var fromPrevStatus := FilterClients(clients, prevStatus);
        FilterClientsSpec(clients, prevStatus);
        RenumberLane(fromPrevStatus);
        var fromNewStatus := FilterClients(clients, status.value);
        FilterClientsSpec(clients, status.value);
        RenumberLane(fromNewStatus);
      }

      if Truthy(priority) && status == Some(prevStatus) {
        UpdatePriority(id, priority.value);
        clients := rows[..];
        var fromCurrentStatus := FilterClients(clients, status.value);
        FilterClientsSpec(clients, status.value);
        RenumberAround(fromCurrentStatus, id, priority.value);
      }

      result := Ok(Selected(rows[..], status));
    }
  }
}
