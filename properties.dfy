/**
  What the renumbering does to the lanes: the properties of the table that
  `PUT /api/v1/clients/:id` leaves behind.
 */
module RankProperties {
  import opened Clients
  import opened Filter
  import opened Ranking

  /** Rows that agree on statuses and on every row of `lane` select the same lane. */
  lemma {:induction false} SelectFrame(rows: seq<Client>, rows': seq<Client>, lane: Lane)
    requires |rows| == |rows'|
    requires forall k :: 0 <= k < |rows| ==> rows[k].status == rows'[k].status
    requires forall k :: 0 <= k < |rows| && rows[k].status == lane ==> rows'[k] == rows[k]
    ensures Select(rows, lane) == Select(rows', lane)
  {
    if rows != [] {
      SelectFrame(rows[1..], rows'[1..], lane);
    }
  }

  /** Where a row of the table ends up after its lane is renumbered in `filterClients` order. */
  lemma RenumberedRow(rows: seq<Client>, lane: Lane, k: int)
    requires UniqueIds(rows) && 0 <= k < |rows|
    ensures |Renumbered(rows, FilterClients(rows, lane))| == |rows|
    ensures rows[k].status == lane ==>
      0 <= IndexOf(FilterClients(rows, lane), rows[k].id) < Count(rows, lane) &&
      Renumbered(rows, FilterClients(rows, lane))[k] ==
        rows[k].(priority := IndexOf(FilterClients(rows, lane), rows[k].id) + 1)
    ensures rows[k].status != lane ==> Renumbered(rows, FilterClients(rows, lane))[k] == rows[k]
  {
    FilterClientsSpec(rows, lane);
    FilterClientsPosition(rows, lane, k);
  }

  /**
    Renumbering a lane in `filterClients` order changes only the priorities
    of that lane's members and keeps them within 1..n.
   */
  lemma RenumberFrame(rows: seq<Client>, lane: Lane)
    requires UniqueIds(rows)
    ensures |Renumbered(rows, FilterClients(rows, lane))| == |rows|
    ensures var r := Renumbered(rows, FilterClients(rows, lane));
      forall k :: 0 <= k < |rows| ==> r[k] == rows[k].(priority := r[k].priority)
    ensures var r := Renumbered(rows, FilterClients(rows, lane));
      forall k :: 0 <= k < |rows| && rows[k].status != lane ==> r[k] == rows[k]
    ensures var r := Renumbered(rows, FilterClients(rows, lane));
      forall k :: 0 <= k < |rows| && rows[k].status == lane ==> 1 <= r[k].priority <= Count(rows, lane)
  {
    var r := Renumbered(rows, FilterClients(rows, lane));
    forall k | 0 <= k < |rows|
      ensures r[k] == rows[k].(priority := r[k].priority)
      ensures rows[k].status != lane ==> r[k] == rows[k]
      ensures rows[k].status == lane ==> 1 <= r[k].priority <= Count(rows, lane)
    {
      RenumberedRow(rows, lane, k);
    }
  }

  /** No two members of a renumbered lane share a rank. */
  lemma RenumberDistinct(rows: seq<Client>, lane: Lane)
    requires UniqueIds(rows)
    ensures |Renumbered(rows, FilterClients(rows, lane))| == |rows|
    ensures var r := Renumbered(rows, FilterClients(rows, lane));
      forall i, j :: 0 <= i < j < |rows| && rows[i].status == lane && rows[j].status == lane ==>
        r[i].priority != r[j].priority
  {
    var r := Renumbered(rows, FilterClients(rows, lane));
    forall i, j | 0 <= i < j < |rows| && rows[i].status == lane && rows[j].status == lane
      ensures r[i].priority != r[j].priority
    {
      RenumberedRow(rows, lane, i);
      RenumberedRow(rows, lane, j);
      FilterClientsPosition(rows, lane, i);
      FilterClientsPosition(rows, lane, j);
    }
  }

  /** Every rank 1..n is handed to some member of the renumbered lane. */
  lemma RenumberCovers(rows: seq<Client>, lane: Lane, v: int)
    requires UniqueIds(rows) && 1 <= v <= Count(rows, lane)
    ensures Taken(Renumbered(rows, FilterClients(rows, lane)), lane, v)
  {
    var l := FilterClients(rows, lane);
    var r := Renumbered(rows, l);
    FilterClientsSpec(rows, lane);
    assert l[v - 1] in l;
    var m :| 0 <= m < |rows| && rows[m] == l[v - 1];
    IndexOfUnique(l, v - 1);
    RenumberedRow(rows, lane, m);
    assert r[m].status == lane && r[m].priority == v;
  }

  /**
    Renumbering a lane in `filterClients` order gives its members exactly
    the ranks 1..n (`RenumberFrame` says nothing else changes).
   */
  lemma RenumberContiguous(rows: seq<Client>, lane: Lane)
    requires UniqueIds(rows)
    ensures |Renumbered(rows, FilterClients(rows, lane))| == |rows|
    ensures Contiguous(Renumbered(rows, FilterClients(rows, lane)), lane)
  {
    var r := Renumbered(rows, FilterClients(rows, lane));
    RenumberFrame(rows, lane);
    RenumberDistinct(rows, lane);
    CountSameStatus(rows, r, lane);
    forall v | 1 <= v <= Count(r, lane) ensures Taken(r, lane, v) {
      RenumberCovers(rows, lane, v);
    }
  }

  /**
    After renumbering, the lane's members rank in ascending order of their
    previous priorities, with ties in table order.
   */
  lemma RenumberOrder(rows: seq<Client>, lane: Lane, a: int, b: int)
    requires UniqueIds(rows) && 0 <= a < |rows| && 0 <= b < |rows|
    requires rows[a].status == lane && rows[b].status == lane && Ahead(rows, a, b)
    ensures |Renumbered(rows, FilterClients(rows, lane))| == |rows|
    ensures Renumbered(rows, FilterClients(rows, lane))[a].priority <
      Renumbered(rows, FilterClients(rows, lane))[b].priority
  {
    RenumberedRow(rows, lane, a);
    RenumberedRow(rows, lane, b);
    AheadIsPrecedes(rows, a, b);
    FilterClientsOrder(rows, lane, a, b);
  }

  /** Moving one row from lane `a` to lane `b` takes one from `a`'s count and adds one to `b`'s. */
  lemma {:induction false} CountMove(rows: seq<Client>, rows': seq<Client>, t: int)
    requires |rows| == |rows'| && 0 <= t < |rows|
    requires rows[t].status != rows'[t].status
    requires forall k :: 0 <= k < |rows| && k != t ==> rows[k].status == rows'[k].status
    ensures Count(rows', rows[t].status) + 1 == Count(rows, rows[t].status)
    ensures Count(rows', rows'[t].status) == Count(rows, rows'[t].status) + 1
  {
    if t == 0 {
      CountSameStatus(rows[1..], rows'[1..], rows[0].status);
      CountSameStatus(rows[1..], rows'[1..], rows'[0].status);
    } else {
      CountMove(rows[1..], rows'[1..], t - 1);
    }
  }

  /** The snapshot the lane-move branch re-reads: the target moved, every other row as it was. */
  lemma MoveSnapshot(rows: seq<Client>, t: int, lane: Lane, p: int)
    requires UniqueIds(rows) && 0 <= t < |rows|
    ensures |SetPriorityAndStatus(rows, rows[t].id, p, lane)| == |rows|
    ensures SetPriorityAndStatus(rows, rows[t].id, p, lane)[t] == rows[t].(priority := p, status := lane)
    ensures forall k :: 0 <= k < |rows| && k != t ==> SetPriorityAndStatus(rows, rows[t].id, p, lane)[k] == rows[k]
    ensures UniqueIds(SetPriorityAndStatus(rows, rows[t].id, p, lane))
  {
  }

  /** The lane-move table once the old lane is renumbered and before the new one is. */
  function MoveMid(rows: seq<Client>, t: int, lane: Lane, p: int): seq<Client>
    requires 0 <= t < |rows|
  {
    var snap := SetPriorityAndStatus(rows, rows[t].id, p, lane);
    Renumbered(snap, FilterClients(snap, rows[t].status))
  }

  /**
    The lane-move table in two steps: the old lane renumbered, then the new
    lane renumbered in the order `filterClients` gives on that intermediate
    table, which is the order it gave on the snapshot.
   */
  lemma MoveSteps(rows: seq<Client>, t: int, lane: Lane, p: int)
    requires UniqueIds(rows) && 0 <= t < |rows| && lane != rows[t].status
    ensures UniqueIds(MoveMid(rows, t, lane, p))
    ensures |MoveMid(rows, t, lane, p)| == |rows|
    ensures MovedRows(rows, rows[t].id, rows[t].status, lane, p) ==
      Renumbered(MoveMid(rows, t, lane, p), FilterClients(MoveMid(rows, t, lane, p), lane))
    ensures MoveMid(rows, t, lane, p)[t] == rows[t].(priority := p, status := lane)
    ensures forall k :: 0 <= k < |rows| && rows[k].status != rows[t].status ==>
      MoveMid(rows, t, lane, p)[k] == SetPriorityAndStatus(rows, rows[t].id, p, lane)[k]
    ensures forall k :: 0 <= k < |rows| && k != t ==> MoveMid(rows, t, lane, p)[k].status == rows[k].status
    ensures Contiguous(MoveMid(rows, t, lane, p), rows[t].status)
    ensures Count(MoveMid(rows, t, lane, p), rows[t].status) + 1 == Count(rows, rows[t].status)
    ensures Count(MoveMid(rows, t, lane, p), lane) == Count(rows, lane) + 1
  {
    var id, prev := rows[t].id, rows[t].status;
    var snap := SetPriorityAndStatus(rows, id, p, lane);
    MoveSnapshot(rows, t, lane, p);
    var mid := MoveMid(rows, t, lane, p);
    RenumberContiguous(snap, prev);
    RenumberFrame(snap, prev);
    SelectFrame(snap, mid, lane);
    CountMove(rows, snap, t);
    CountSameStatus(snap, mid, prev);
    CountSameStatus(snap, mid, lane);
  }

  /**
    Lane move, old lane: the old lane's remaining members hold exactly 1..n,
    ranked in the order of their previous priorities (ties in table order).
   */
  lemma MoveOldLane(rows: seq<Client>, t: int, lane: Lane, p: int)
    requires UniqueIds(rows) && 0 <= t < |rows| && lane != rows[t].status && p != 0
    ensures var r := ReassignRows(rows, rows[t].id, Some(lane), Some(p));
      |r| == |rows| && Contiguous(r, rows[t].status) &&
      Count(r, rows[t].status) + 1 == Count(rows, rows[t].status)
    ensures var r := ReassignRows(rows, rows[t].id, Some(lane), Some(p));
      forall a, b ::
        0 <= a < |rows| && 0 <= b < |rows| && a != t && b != t &&
        rows[a].status == rows[t].status && rows[b].status == rows[t].status && Ahead(rows, a, b)
        ==> r[a].priority < r[b].priority
  {
    var id, prev := rows[t].id, rows[t].status;
    var r := ReassignRows(rows, id, Some(lane), Some(p));
    IndexOfUnique(rows, t);
    assert r == MovedRows(rows, id, prev, lane, p);
    MoveOldShape(rows, t, lane, p);
    forall a, b | 0 <= a < |rows| && 0 <= b < |rows| && a != t && b != t &&
      rows[a].status == prev && rows[b].status == prev && Ahead(rows, a, b)
      ensures r[a].priority < r[b].priority
    {
      MoveOldPair(rows, t, lane, p, a, b);
    }
  }

  /** The old lane after a lane move, apart from its order. */
  lemma MoveOldShape(rows: seq<Client>, t: int, lane: Lane, p: int)
    requires UniqueIds(rows) && 0 <= t < |rows| && lane != rows[t].status
    ensures |MovedRows(rows, rows[t].id, rows[t].status, lane, p)| == |rows|
    ensures Contiguous(MovedRows(rows, rows[t].id, rows[t].status, lane, p), rows[t].status)
    ensures Count(MovedRows(rows, rows[t].id, rows[t].status, lane, p), rows[t].status) + 1 ==
      Count(rows, rows[t].status)
  {
    var prev := rows[t].status;
    MoveSteps(rows, t, lane, p);
    var mid := MoveMid(rows, t, lane, p);
    var r := MovedRows(rows, rows[t].id, prev, lane, p);
    RenumberContiguous(mid, lane);
    RenumberFrame(mid, lane);
    CountSameStatus(mid, r, prev);
    ContiguousFrame(mid, r, prev);
  }

  /** One pair of remaining old-lane members in the lane-move branch. */
  lemma MoveOldPair(rows: seq<Client>, t: int, lane: Lane, p: int, a: int, b: int)
    requires UniqueIds(rows) && 0 <= t < |rows| && lane != rows[t].status
    requires 0 <= a < |rows| && 0 <= b < |rows| && a != t && b != t
    requires rows[a].status == rows[t].status && rows[b].status == rows[t].status && Ahead(rows, a, b)
    ensures |MovedRows(rows, rows[t].id, rows[t].status, lane, p)| == |rows|
    ensures MovedRows(rows, rows[t].id, rows[t].status, lane, p)[a].priority <
      MovedRows(rows, rows[t].id, rows[t].status, lane, p)[b].priority
  {
    var prev := rows[t].status;
    var snap := SetPriorityAndStatus(rows, rows[t].id, p, lane);
    MoveSnapshot(rows, t, lane, p);
    MoveSteps(rows, t, lane, p);
    var mid := MoveMid(rows, t, lane, p);
    var r := MovedRows(rows, rows[t].id, prev, lane, p);
    assert mid == Renumbered(snap, FilterClients(snap, prev));
    RenumberFrame(mid, lane);
    assert snap[a] == rows[a] && snap[b] == rows[b];
    assert Ahead(snap, a, b);
    RenumberOrder(snap, prev, a, b);
    assert r[a] == mid[a] && r[b] == mid[b];
  }

  /**
    Lane move, new lane: the target ends in the new lane, whose members hold
    exactly 1..m, ranked by their priorities in the re-read snapshot (the
    target's key being the requested value, ties in table order); the
    third lane is untouched.
   */
  lemma MoveNewLane(rows: seq<Client>, t: int, lane: Lane, p: int)
    requires UniqueIds(rows) && 0 <= t < |rows| && lane != rows[t].status && p != 0
    ensures var r := ReassignRows(rows, rows[t].id, Some(lane), Some(p));
      |r| == |rows| && r[t].status == lane && Contiguous(r, lane) &&
      Count(r, lane) == Count(rows, lane) + 1
    ensures var r := ReassignRows(rows, rows[t].id, Some(lane), Some(p));
      forall k :: 0 <= k < |rows| && rows[k].status != rows[t].status && rows[k].status != lane ==>
        r[k] == rows[k]
    ensures var r := ReassignRows(rows, rows[t].id, Some(lane), Some(p));
      forall a, b ::
        0 <= a < |rows| && 0 <= b < |rows| && r[a].status == lane && r[b].status == lane &&
        Ahead(SetPriorityAndStatus(rows, rows[t].id, p, lane), a, b)
        ==> r[a].priority < r[b].priority
  {
    var r := ReassignRows(rows, rows[t].id, Some(lane), Some(p));
    IndexOfUnique(rows, t);
    assert r == MovedRows(rows, rows[t].id, rows[t].status, lane, p);
    MoveNewShape(rows, t, lane, p);
    forall a, b | 0 <= a < |rows| && 0 <= b < |rows| &&
      r[a].status == lane && r[b].status == lane && Ahead(SetPriorityAndStatus(rows, rows[t].id, p, lane), a, b)
      ensures r[a].priority < r[b].priority
    {
      IndexOfUnique(rows, a);
      IndexOfUnique(rows, b);
      MoveNewPair(rows, t, lane, p, a, b);
    }
  }

  /** The new lane after a lane move, apart from its order. */
  lemma MoveNewShape(rows: seq<Client>, t: int, lane: Lane, p: int)
    requires UniqueIds(rows) && 0 <= t < |rows| && lane != rows[t].status
    ensures |MovedRows(rows, rows[t].id, rows[t].status, lane, p)| == |rows|
    ensures MovedRows(rows, rows[t].id, rows[t].status, lane, p)[t].status == lane
    ensures Contiguous(MovedRows(rows, rows[t].id, rows[t].status, lane, p), lane)
    ensures Count(MovedRows(rows, rows[t].id, rows[t].status, lane, p), lane) == Count(rows, lane) + 1
    ensures forall k :: 0 <= k < |rows| && rows[k].status != rows[t].status && rows[k].status != lane ==>
      MovedRows(rows, rows[t].id, rows[t].status, lane, p)[k] == rows[k]
  {
    MoveSnapshot(rows, t, lane, p);
    MoveSteps(rows, t, lane, p);
    var mid := MoveMid(rows, t, lane, p);
    var r := MovedRows(rows, rows[t].id, rows[t].status, lane, p);
    RenumberContiguous(mid, lane);
    RenumberFrame(mid, lane);
    CountSameStatus(mid, r, lane);
  }

  /** One pair of new-lane members in the lane-move branch. */
  lemma MoveNewPair(rows: seq<Client>, t: int, lane: Lane, p: int, a: int, b: int)
    requires UniqueIds(rows) && 0 <= t < |rows| && lane != rows[t].status
    requires 0 <= a < |rows| && 0 <= b < |rows|
    requires (a == t || rows[a].status == lane) && (b == t || rows[b].status == lane)
    requires Ahead(SetPriorityAndStatus(rows, rows[t].id, p, lane), a, b)
    ensures MovedRows(rows, rows[t].id, rows[t].status, lane, p)[a].priority <
      MovedRows(rows, rows[t].id, rows[t].status, lane, p)[b].priority
  {
    var snap := SetPriorityAndStatus(rows, rows[t].id, p, lane);
    MoveSnapshot(rows, t, lane, p);
    MoveSteps(rows, t, lane, p);
    var mid := MoveMid(rows, t, lane, p);
    RenumberFrame(mid, lane);
    assert mid[a].status == lane && mid[b].status == lane;
    assert a != t ==> rows[a].status == lane;
    assert b != t ==> rows[b].status == lane;
    assert mid[a] == snap[a];
    assert mid[b] == snap[b];
    assert Ahead(mid, a, b);
    RenumberOrder(mid, lane, a, b);
  }

  /** `Without` keeps exactly the elements whose id differs. */
  lemma {:induction false} WithoutMembers(s: seq<Client>, id: int)
    ensures forall x :: x in Without(s, id) <==> x in s && x.id != id
  {
    if s != [] {
      WithoutMembers(s[1..], id);
      assert s == [s[0]] + s[1..];
    }
  }

  /** Dropping one id keeps the remaining ids distinct. */
  lemma {:induction false} WithoutUnique(s: seq<Client>, id: int)
    requires UniqueIds(s)
    ensures UniqueIds(Without(s, id))
  {
    if s != [] {
      WithoutUnique(s[1..], id);
      WithoutMembers(s[1..], id);
      var w := Without(s[1..], id);
      if s[0].id != id {
        forall x | x in w ensures x.id != s[0].id {
          var m :| 0 <= m < |s[1..]| && s[1..][m] == x;
          assert s[m + 1] == x;
        }
        var r := [s[0]] + w;
        forall i, j | 0 <= i < j < |r| ensures r[i].id != r[j].id {
          assert r[j] == w[j - 1] && w[j - 1] in w;
        }
      }
    }
  }

  lemma {:induction false} WithoutAppend(a: seq<Client>, b: seq<Client>, id: int)
    ensures Without(a + b, id) == Without(a, id) + Without(b, id)
  {
    if a != [] {
      assert (a + b)[1..] == a[1..] + b;
      WithoutAppend(a[1..], b, id);
    } else {
      assert a + b == b;
    }
  }

  /** Extending a list of distinct ids by one element leaves the earlier positions alone. */
  lemma IndexOfExtend(s: seq<Client>, m: int, id: int)
    requires UniqueIds(s) && 0 <= m < |s|
    ensures IndexOf(s[..m + 1], id) ==
      if s[m].id == id then m else IndexOf(s[..m], id)
  {
    var a, b := s[..m], s[..m + 1];
    assert forall j :: 0 <= j < m ==> b[j] == a[j];
    if s[m].id == id {
      assert b[m].id == id;
    } else {
      var i := IndexOf(a, id);
      if 0 <= i {
        assert b[i] == a[i];
      }
    }
  }

  /** One more step of the index-order renumbering loop. */
  lemma RenumberedStep(rows: seq<Client>, order: seq<Client>, m: int)
    requires UniqueIds(order) && 0 <= m < |order|
    ensures Renumbered(rows, order[..m + 1]) == SetPriority(Renumbered(rows, order[..m]), order[m].id, m + 1)
  {
    var after, step := Renumbered(rows, order[..m + 1]), SetPriority(Renumbered(rows, order[..m]), order[m].id, m + 1);
    forall k | 0 <= k < |rows|
      ensures after[k] == step[k]
    {
      IndexOfExtend(order, m, rows[k].id);
    }
  }

  /** One more step of the skipping-counter loop. */
  lemma SkipRenumberedStep(rows: seq<Client>, others: seq<Client>, p: int, m: int)
    requires UniqueIds(others) && 0 <= m < |others|
    ensures SkipRenumbered(rows, others[..m + 1], p) ==
      SetPriority(SkipRenumbered(rows, others[..m], p), others[m].id, SkipRank(p, m))
  {
    var after, step := SkipRenumbered(rows, others[..m + 1], p), SetPriority(SkipRenumbered(rows, others[..m], p), others[m].id, SkipRank(p, m));
    forall k | 0 <= k < |rows|
      ensures after[k] == step[k]
    {
      IndexOfExtend(others, m, rows[k].id);
    }
  }

  /** Walking a list one element at a time, as the same-lane loop does. */
  lemma WithoutStep(s: seq<Client>, id: int, i: int)
    requires 0 <= i < |s|
    ensures Without(s[..i + 1], id) == Without(s[..i], id) + (if s[i].id != id then [s[i]] else [])
    ensures Without(s[i..], id) == (if s[i].id != id then [s[i]] else []) + Without(s[i + 1..], id)
  {
    assert s[..i + 1] == s[..i] + [s[i]];
    WithoutAppend(s[..i], [s[i]], id);
    assert s[i..] == [s[i]] + s[i + 1..];
  }

  /** With one member carrying `id`, dropping it leaves one fewer. */
  lemma {:induction false} WithoutLength(s: seq<Client>, id: int)
    requires UniqueIds(s) && 0 <= IndexOf(s, id)
    ensures |Without(s, id)| == |s| - 1
  {
    if s[0].id != id {
      WithoutLength(s[1..], id);
    } else {
      assert forall x :: x in s[1..] ==> x.id != id by {
        forall x | x in s[1..] ensures x.id != id {
          var m :| 0 <= m < |s[1..]| && s[1..][m] == x;
          assert s[m + 1] == x;
        }
      }
      WithoutNone(s[1..], id);
    }
  }

  lemma {:induction false} WithoutNone(s: seq<Client>, id: int)
    requires forall x :: x in s ==> x.id != id
    ensures Without(s, id) == s
  {
    if s != [] {
      assert forall x :: x in s[1..] ==> x in s;
      WithoutNone(s[1..], id);
    }
  }

  /** Dropping one id keeps the order of the others. */
  lemma WithoutOrder(s: seq<Client>, id: int, i: int, j: int)
    requires UniqueIds(s) && 0 <= i < j < |s| && s[i].id != id && s[j].id != id
    ensures 0 <= IndexOf(Without(s, id), s[i].id) < IndexOf(Without(s, id), s[j].id)
  {
    var w := Without(s, id);
    WithoutUnique(s, id);
    assert s == s[..j] + s[j..];
    WithoutAppend(s[..j], s[j..], id);
    var front := Without(s[..j], id);
    assert s[j..] == [s[j]] + s[j + 1..];
    assert Without(s[j..], id) == [s[j]] + Without(s[j + 1..], id);
    assert w[|front|] == s[j];
    IndexOfUnique(w, |front|);
    assert s[..j][i] == s[i];
    WithoutMembers(s[..j], id);
    assert s[i] in front;
    var m :| 0 <= m < |front| && front[m] == s[i];
    assert w[m] == s[i];
    IndexOfUnique(w, m);
  }

  /** The highest rank the skipping counter hands to n other members. */
  function SkipBound(n: int, p: int): int
  {
    if 1 <= p <= n then n + 1 else n
  }

  /** The snapshot the same-lane branch re-reads: the target at `p`, every other row as it was. */
  lemma StaySnapshot(rows: seq<Client>, t: int, p: int)
    requires UniqueIds(rows) && 0 <= t < |rows|
    ensures |SetPriority(rows, rows[t].id, p)| == |rows|
    ensures SetPriority(rows, rows[t].id, p)[t] == rows[t].(priority := p)
    ensures forall k :: 0 <= k < |rows| && k != t ==> SetPriority(rows, rows[t].id, p)[k] == rows[k]
    ensures UniqueIds(SetPriority(rows, rows[t].id, p))
    ensures Count(SetPriority(rows, rows[t].id, p), rows[t].status) == Count(rows, rows[t].status)
  {
    CountSameStatus(rows, SetPriority(rows, rows[t].id, p), rows[t].status);
  }

  /** Where each row ends up in the same-lane branch. */
  lemma StayRow(rows: seq<Client>, t: int, p: int, k: int)
    requires UniqueIds(rows) && 0 <= t < |rows| && 0 <= k < |rows|
    ensures |ReorderedRows(rows, rows[t].id, rows[t].status, p)| == |rows|
    ensures var r := ReorderedRows(rows, rows[t].id, rows[t].status, p);
      k == t ==> r[k] == rows[t].(priority := p)
    ensures var r := ReorderedRows(rows, rows[t].id, rows[t].status, p);
      rows[k].status != rows[t].status ==> r[k] == rows[k]
    ensures var r, others := ReorderedRows(rows, rows[t].id, rows[t].status, p), StayOthers(rows, t, p);
      k != t && rows[k].status == rows[t].status ==>
        0 <= IndexOf(others, rows[k].id) < Count(rows, rows[t].status) - 1 &&
        r[k] == rows[k].(priority := SkipRank(p, IndexOf(others, rows[k].id)))
  {
    var id, lane := rows[t].id, rows[t].status;
    var snap := SetPriority(rows, id, p);
    StaySnapshot(rows, t, p);
    var l := FilterClients(snap, lane);
    var others := StayOthers(rows, t, p);
    assert others == Without(l, id);
    FilterClientsSpec(snap, lane);
    FilterClientsPosition(snap, lane, k);
    FilterClientsPosition(snap, lane, t);
    WithoutLength(l, id);
    WithoutMembers(l, id);
    var j := IndexOf(others, rows[k].id);
    if k != t && rows[k].status == lane {
      assert snap[k] in l;
      assert snap[k] in others;
      var m :| 0 <= m < |others| && others[m] == snap[k];
    }
    if rows[k].status != lane {
      assert snap[k] !in l;
      assert snap[k] !in others;
    }
  }

  /** Some member of `lane` other than row `t` holds priority `v`. */
  ghost predicate TakenByOther(rows: seq<Client>, lane: Lane, t: int, v: int)
  {
    exists k :: 0 <= k < |rows| && k != t && rows[k].status == lane && rows[k].priority == v
  }

  /**
    Same lane, target and others: the target's priority becomes exactly the
    requested value `p`; every other member of the lane gets a rank other
    than `p`, within 1..SkipBound(n, p) for its n other members, ranked in
    the order of their previous priorities (ties in table order); no row of
    another lane changes.
   */
  lemma StayLane(rows: seq<Client>, t: int, p: int, r: seq<Client>)
    requires UniqueIds(rows) && 0 <= t < |rows| && p != 0
    requires r == ReassignRows(rows, rows[t].id, Some(rows[t].status), Some(p))
    ensures |r| == |rows| && r[t] == rows[t].(priority := p)
    ensures forall k :: 0 <= k < |rows| && rows[k].status != rows[t].status ==> r[k] == rows[k]
    ensures forall k :: 0 <= k < |rows| ==> r[k] == rows[k].(priority := r[k].priority)
    ensures forall k :: 0 <= k < |rows| && k != t && rows[k].status == rows[t].status ==>
      r[k].priority != p && 1 <= r[k].priority <= SkipBound(Count(rows, rows[t].status) - 1, p)
    ensures forall a, b ::
      0 <= a < |rows| && 0 <= b < |rows| && a != t && b != t &&
      rows[a].status == rows[t].status && rows[b].status == rows[t].status && Ahead(rows, a, b)
      ==> r[a].priority < r[b].priority
  {
    var id, lane := rows[t].id, rows[t].status;
    IndexOfUnique(rows, t);
    assert r == ReorderedRows(rows, id, lane, p);
    StayShape(rows, t, p);
    forall a, b | 0 <= a < |rows| && 0 <= b < |rows| && a != t && b != t &&
      rows[a].status == lane && rows[b].status == lane && Ahead(rows, a, b)
      ensures r[a].priority < r[b].priority
    {
      StayPair(rows, t, p, a, b);
    }
  }

  /** The other members of the lane, in the order the same-lane branch walks them. */
  function StayOthers(rows: seq<Client>, t: int, p: int): seq<Client>
    requires 0 <= t < |rows|
  {
    Without(FilterClients(SetPriority(rows, rows[t].id, p), rows[t].status), rows[t].id)
  }

  /** The other members are walked in the order of their previous priorities. */
  lemma StayOthersOrder(rows: seq<Client>, t: int, p: int, a: int, b: int)
    requires UniqueIds(rows) && 0 <= t < |rows|
    requires 0 <= a < |rows| && 0 <= b < |rows| && a != t && b != t
    requires rows[a].status == rows[t].status && rows[b].status == rows[t].status && Ahead(rows, a, b)
    ensures 0 <= IndexOf(StayOthers(rows, t, p), rows[a].id) < IndexOf(StayOthers(rows, t, p), rows[b].id)
  {
    var id, lane := rows[t].id, rows[t].status;
    var snap := SetPriority(rows, id, p);
    StaySnapshot(rows, t, p);
    var l := FilterClients(snap, lane);
    assert Ahead(snap, a, b);
    AheadIsPrecedes(snap, a, b);
    FilterClientsOrder(snap, lane, a, b);
    FilterClientsPosition(snap, lane, a);
    FilterClientsPosition(snap, lane, b);
    FilterClientsSpec(snap, lane);
    var ia, ib := IndexOf(l, rows[a].id), IndexOf(l, rows[b].id);
    assert l[ia] == rows[a] && l[ib] == rows[b];
    IndexOfUnique(rows, t);
    WithoutOrder(l, id, ia, ib);
  }

  /** The same-lane table row by row, apart from the order of the others. */
  lemma StayShape(rows: seq<Client>, t: int, p: int)
    requires UniqueIds(rows) && 0 <= t < |rows|
    ensures |ReorderedRows(rows, rows[t].id, rows[t].status, p)| == |rows|
    ensures ReorderedRows(rows, rows[t].id, rows[t].status, p)[t] == rows[t].(priority := p)
    ensures var r := ReorderedRows(rows, rows[t].id, rows[t].status, p);
      forall k :: 0 <= k < |rows| && rows[k].status != rows[t].status ==> r[k] == rows[k]
    ensures var r := ReorderedRows(rows, rows[t].id, rows[t].status, p);
      forall k :: 0 <= k < |rows| ==> r[k] == rows[k].(priority := r[k].priority)
    ensures var r := ReorderedRows(rows, rows[t].id, rows[t].status, p);
      forall k :: 0 <= k < |rows| && k != t && rows[k].status == rows[t].status ==>
        r[k].priority != p && 1 <= r[k].priority <= SkipBound(Count(rows, rows[t].status) - 1, p)
  {
    var r := ReorderedRows(rows, rows[t].id, rows[t].status, p);
    forall k | 0 <= k < |rows|
      ensures k == t ==> r[k] == rows[t].(priority := p)
      ensures rows[k].status != rows[t].status ==> r[k] == rows[k]
      ensures r[k] == rows[k].(priority := r[k].priority)
      ensures k != t && rows[k].status == rows[t].status ==>
        r[k].priority != p && 1 <= r[k].priority <= SkipBound(Count(rows, rows[t].status) - 1, p)
    {
      StayRow(rows, t, p, k);
    }
  }

  /** One pair of other members in the same-lane branch. */
  lemma StayPair(rows: seq<Client>, t: int, p: int, a: int, b: int)
    requires UniqueIds(rows) && 0 <= t < |rows|
    requires 0 <= a < |rows| && 0 <= b < |rows| && a != t && b != t
    requires rows[a].status == rows[t].status && rows[b].status == rows[t].status && Ahead(rows, a, b)
    ensures |ReorderedRows(rows, rows[t].id, rows[t].status, p)| == |rows|
    ensures ReorderedRows(rows, rows[t].id, rows[t].status, p)[a].priority <
      ReorderedRows(rows, rows[t].id, rows[t].status, p)[b].priority
  {
    StayOthersOrder(rows, t, p, a, b);
    StayRow(rows, t, p, a);
    StayRow(rows, t, p, b);
  }

  /**
    Same lane, range of ranks: with n other members and requested value p,
    every one of the first n positive integers other than p is held by one
    of the other members.
   */
  lemma StayCovers(rows: seq<Client>, t: int, p: int, v: int)
    requires UniqueIds(rows) && 0 <= t < |rows|
    requires 1 <= v <= SkipBound(Count(rows, rows[t].status) - 1, p) && v != p
    ensures TakenByOther(ReorderedRows(rows, rows[t].id, rows[t].status, p), rows[t].status, t, v)
  {
    var id, lane := rows[t].id, rows[t].status;
    var snap := SetPriority(rows, id, p);
    StaySnapshot(rows, t, p);
    var l := FilterClients(snap, lane);
    var others := Without(l, id);
    FilterClientsSpec(snap, lane);
    FilterClientsPosition(snap, lane, t);
    WithoutLength(l, id);
    WithoutUnique(l, id);
    WithoutMembers(l, id);
    var j := if 1 <= p < v then v - 2 else v - 1;
    assert SkipRank(p, j) == v;
    assert others[j] in others;
    var m :| 0 <= m < |snap| && snap[m] == others[j];
    IndexOfUnique(others, j);
    IndexOfUnique(rows, t);
    assert m != t;
    StayRow(rows, t, p, m);
  }

  /**
    Same lane, whole lane: afterwards the lane holds exactly 1..n for its n
    members if and only if the requested value lies in 1..n; a larger (or a
    negative) value leaves the target outside the range, the other members
    being packed into the first n-1 ranks.
   */
  lemma StayContiguous(rows: seq<Client>, t: int, p: int, r: seq<Client>)
    requires UniqueIds(rows) && 0 <= t < |rows| && p != 0
    requires r == ReassignRows(rows, rows[t].id, Some(rows[t].status), Some(p))
    ensures Contiguous(r, rows[t].status) <==> 1 <= p <= Count(rows, rows[t].status)
  {
    var lane := rows[t].status;
    IndexOfUnique(rows, t);
    assert r == ReorderedRows(rows, rows[t].id, lane, p);
    StayShape(rows, t, p);
    CountSameStatus(rows, r, lane);
    if 1 <= p <= Count(rows, lane) {
      StayInRange(rows, t, p);
    } else {
      assert r[t].status == lane && r[t].priority == p;
    }
  }

  /** The same-lane table when the requested value lies within the lane's size. */
  lemma StayInRange(rows: seq<Client>, t: int, p: int)
    requires UniqueIds(rows) && 0 <= t < |rows| && 1 <= p <= Count(rows, rows[t].status)
    ensures Contiguous(ReorderedRows(rows, rows[t].id, rows[t].status, p), rows[t].status)
  {
    var lane := rows[t].status;
    var r := ReorderedRows(rows, rows[t].id, lane, p);
    var n := Count(rows, lane);
    StayShape(rows, t, p);
    CountSameStatus(rows, r, lane);
    assert SkipBound(n - 1, p) <= n;
    forall k | 0 <= k < |r| && r[k].status == lane ensures 1 <= r[k].priority <= n {
      assert r[k] == rows[k].(priority := r[k].priority);
      if k != t {
        assert r[k].priority <= SkipBound(n - 1, p);
      }
    }
    StayDistinct(rows, t, p);
    StayCoversAll(rows, t, p);
    assert forall v :: 1 <= v <= n ==> Taken(r, lane, v);
  }

  /** In the same-lane table no two members of the lane share a rank. */
  lemma StayDistinct(rows: seq<Client>, t: int, p: int)
    requires UniqueIds(rows) && 0 <= t < |rows|
    ensures |ReorderedRows(rows, rows[t].id, rows[t].status, p)| == |rows|
    ensures var r := ReorderedRows(rows, rows[t].id, rows[t].status, p);
      forall i, j :: 0 <= i < j < |rows| && r[i].status == rows[t].status && r[j].status == rows[t].status
        ==> r[i].priority != r[j].priority
  {
    var lane := rows[t].status;
    var r := ReorderedRows(rows, rows[t].id, lane, p);
    StayShape(rows, t, p);
    forall i, j | 0 <= i < j < |r| && r[i].status == lane && r[j].status == lane
      ensures r[i].priority != r[j].priority
    {
      if i != t && j != t {
        if Ahead(rows, i, j) {
          StayPair(rows, t, p, i, j);
        } else {
          StayPair(rows, t, p, j, i);
        }
      }
    }
  }

  /** In the same-lane table, with 1 <= p <= n, every rank 1..n is held. */
  lemma StayCoversAll(rows: seq<Client>, t: int, p: int)
    requires UniqueIds(rows) && 0 <= t < |rows| && 1 <= p <= Count(rows, rows[t].status)
    ensures forall v :: 1 <= v <= Count(rows, rows[t].status) ==>
      Taken(ReorderedRows(rows, rows[t].id, rows[t].status, p), rows[t].status, v)
  {
    var lane := rows[t].status;
    var r := ReorderedRows(rows, rows[t].id, lane, p);
    forall v | 1 <= v <= Count(rows, lane) ensures Taken(r, lane, v) {
      if v != p {
        StayCovers(rows, t, p, v);
      } else {
        StayShape(rows, t, p);
        assert r[t].status == lane && r[t].priority == v;
      }
    }
  }

  /**
    No-op cases: with priority absent or 0, or status absent, neither branch
    runs and the table is unchanged; in particular a status-only request
    does not move the client.
   */
  lemma NoOp(rows: seq<Client>, id: int, status: Option<Lane>, priority: Option<int>)
    requires UniqueIds(rows)
    requires !Truthy(priority) || status.None?
    ensures ReassignRows(rows, id, status, priority) == rows
  {
  }

  /**
    The ranking invariant across a request for an existing client: if every
    lane held exactly 1..n before, every lane still does afterwards, except
    when a same-lane request asks for a priority outside 1..n of its lane.
   */
  lemma ReassignWellRanked(rows: seq<Client>, t: int, status: Option<Lane>, priority: Option<int>)
    requires UniqueIds(rows) && 0 <= t < |rows| && WellRanked(rows)
    ensures WellRanked(ReassignRows(rows, rows[t].id, status, priority)) <==>
      !(StaysInLane(rows[t].status, status, priority) &&
        !(1 <= priority.value <= Count(rows, rows[t].status)))
  {
    var prev := rows[t].status;
    IndexOfUnique(rows, t);
    if MovesLane(prev, status, priority) {
      MoveWellRanked(rows, t, status.value, priority.value);
    } else if StaysInLane(prev, status, priority) {
      StayWellRanked(rows, t, priority.value);
    }
  }

  /** A lane move keeps every lane well ranked. */
  lemma MoveWellRanked(rows: seq<Client>, t: int, lane: Lane, p: int)
    requires UniqueIds(rows) && 0 <= t < |rows| && WellRanked(rows)
    requires lane != rows[t].status && p != 0
    ensures WellRanked(ReassignRows(rows, rows[t].id, Some(lane), Some(p)))
  {
    var prev := rows[t].status;
    var r := ReassignRows(rows, rows[t].id, Some(lane), Some(p));
    IndexOfUnique(rows, t);
    assert r == MovedRows(rows, rows[t].id, prev, lane, p);
    forall other: Lane ensures Contiguous(r, other) {
      if other == prev {
        MoveOldShape(rows, t, lane, p);
      } else if other == lane {
        MoveNewShape(rows, t, lane, p);
      } else {
        MoveNewShape(rows, t, lane, p);
        assert Contiguous(rows, other);
        ContiguousFrame(rows, r, other);
      }
    }
  }

  /** A same-lane request keeps every lane well ranked exactly when p lies in 1..n. */
  lemma StayWellRanked(rows: seq<Client>, t: int, p: int)
    requires UniqueIds(rows) && 0 <= t < |rows| && WellRanked(rows) && p != 0
    ensures WellRanked(ReassignRows(rows, rows[t].id, Some(rows[t].status), Some(p))) <==>
      1 <= p <= Count(rows, rows[t].status)
  {
    var prev := rows[t].status;
    var r := ReassignRows(rows, rows[t].id, Some(prev), Some(p));
    StayLane(rows, t, p, r);
    StayContiguous(rows, t, p, r);
    forall other: Lane | other != prev ensures Contiguous(r, other) {
      assert Contiguous(rows, other);
      ContiguousFrame(rows, r, other);
    }
  }

  /** Strictly ascending priorities rise by at least one per position. */
  lemma {:induction false} RisingGap(s: seq<Client>, i: int, j: int)
    requires forall a, b :: 0 <= a < b < |s| ==> s[a].priority < s[b].priority
    requires 0 <= i <= j < |s|
    ensures s[j].priority - s[i].priority >= j - i
  {
    if i < j {
      RisingGap(s, i, j - 1);
    }
  }

  /**
    n-1 strictly ascending ranks drawn from 1..n without p are exactly the
    ranks the skipping counter hands out: the j-th of them is SkipRank(p, j).
   */
  lemma RanksAroundGap(s: seq<Client>, p: int, n: int)
    requires 1 <= p <= n && |s| == n - 1
    requires forall a, b :: 0 <= a < b < |s| ==> s[a].priority < s[b].priority
    requires forall a :: 0 <= a < |s| ==> 1 <= s[a].priority <= n && s[a].priority != p
    ensures forall j :: 0 <= j < |s| ==> s[j].priority == SkipRank(p, j)
  {
    forall j | 0 <= j < |s| ensures s[j].priority == SkipRank(p, j) {
      RisingGap(s, 0, j);
      RisingGap(s, j, |s| - 1);
      if p <= j + 1 && s[j].priority == j + 1 {
        RisingGap(s, 0, p - 1);
        RisingGap(s, p - 1, j);
        assert false;
      }
      if j + 1 < p && s[j].priority == j + 2 {
        RisingGap(s, j, p - 2);
        RisingGap(s, p - 2, |s| - 1);
        assert false;
      }
    }
  }

  /** Dropping one id keeps a list ascending by priority. */
  lemma {:induction false} WithoutSorted(s: seq<Client>, id: int)
    requires Sorted(s)
    ensures Sorted(Without(s, id))
  {
    if s != [] {
      WithoutSorted(s[1..], id);
      if s[0].id != id {
        var w := Without(s[1..], id);
        WithoutMembers(s[1..], id);
        var r := [s[0]] + w;
        forall i, j | 0 <= i < j < |r| ensures r[i].priority <= r[j].priority {
          assert r[j] == w[j - 1] && w[j - 1] in w;
          if i > 0 {
            assert r[i] == w[i - 1];
          } else {
            var m :| 0 <= m < |s[1..]| && s[1..][m] == r[j];
            assert s[m + 1] == r[j];
          }
        }
      }
    }
  }

  /** Asking for a client's own priority leaves the snapshot as the table was. */
  lemma OwnPrioritySnapshot(rows: seq<Client>, t: int)
    requires UniqueIds(rows) && 0 <= t < |rows|
    ensures SetPriority(rows, rows[t].id, rows[t].priority) == rows
  {
    var r := SetPriority(rows, rows[t].id, rows[t].priority);
    forall k | 0 <= k < |rows| ensures r[k] == rows[k] {
      if rows[k].id == rows[t].id {
        IndexOfUnique(rows, k);
        IndexOfUnique(rows, t);
      }
    }
  }

  /**
    The other members of the lane as the same-lane branch walks them, when
    the target asks for its own priority: n-1 distinct rows of the lane
    other than the target, ascending by priority.
   */
  lemma OthersShape(rows: seq<Client>, t: int)
    requires UniqueIds(rows) && 0 <= t < |rows|
    ensures |StayOthers(rows, t, rows[t].priority)| == Count(rows, rows[t].status) - 1
    ensures forall x :: x in StayOthers(rows, t, rows[t].priority) ==>
      x in rows && x.status == rows[t].status && x.id != rows[t].id
    ensures Sorted(StayOthers(rows, t, rows[t].priority))
    ensures UniqueIds(StayOthers(rows, t, rows[t].priority))
  {
    var id, lane := rows[t].id, rows[t].status;
    OwnPrioritySnapshot(rows, t);
    var l := FilterClients(rows, lane);
    FilterClientsSpec(rows, lane);
    FilterClientsPosition(rows, lane, t);
    IndexOfUnique(rows, t);
    WithoutLength(l, id);
    WithoutMembers(l, id);
    WithoutUnique(l, id);
    SortSorted(Select(rows, lane));
    WithoutSorted(l, id);
  }

  /**
    In a well-ranked lane the other members, in the order the same-lane
    branch walks them, already hold the ranks around the target's own.
   */
  lemma OthersHoldSkipRanks(rows: seq<Client>, t: int)
    requires UniqueIds(rows) && 0 <= t < |rows| && Contiguous(rows, rows[t].status)
    ensures forall x :: x in StayOthers(rows, t, rows[t].priority) ==> x in rows && x.status == rows[t].status
    ensures forall j :: 0 <= j < |StayOthers(rows, t, rows[t].priority)| ==>
      StayOthers(rows, t, rows[t].priority)[j].priority == SkipRank(rows[t].priority, j)
  {
    var lane, p := rows[t].status, rows[t].priority;
    var n := Count(rows, lane);
    var others := StayOthers(rows, t, p);
    OthersShape(rows, t);
    OthersInRange(rows, t);
    OthersRising(rows, t);
    RanksAroundGap(others, p, n);
  }

  /** In a well-ranked lane the others' priorities lie in 1..n and miss the target's. */
  lemma OthersInRange(rows: seq<Client>, t: int)
    requires UniqueIds(rows) && 0 <= t < |rows| && Contiguous(rows, rows[t].status)
    ensures 1 <= rows[t].priority <= Count(rows, rows[t].status)
    ensures forall a :: 0 <= a < |StayOthers(rows, t, rows[t].priority)| ==>
      1 <= StayOthers(rows, t, rows[t].priority)[a].priority <= Count(rows, rows[t].status) &&
      StayOthers(rows, t, rows[t].priority)[a].priority != rows[t].priority
  {
    var others := StayOthers(rows, t, rows[t].priority);
    OthersShape(rows, t);
    forall a | 0 <= a < |others|
      ensures 1 <= others[a].priority <= Count(rows, rows[t].status) && others[a].priority != rows[t].priority
    {
      assert others[a] in others;
      var k :| 0 <= k < |rows| && rows[k] == others[a];
      assert k != t;
      if k < t {
        assert rows[k].priority != rows[t].priority;
      } else {
        assert rows[t].priority != rows[k].priority;
      }
    }
  }

  /** In a well-ranked lane the others' priorities strictly rise. */
  lemma OthersRising(rows: seq<Client>, t: int)
    requires UniqueIds(rows) && 0 <= t < |rows| && Contiguous(rows, rows[t].status)
    ensures forall a, b :: 0 <= a < b < |StayOthers(rows, t, rows[t].priority)| ==>
      StayOthers(rows, t, rows[t].priority)[a].priority < StayOthers(rows, t, rows[t].priority)[b].priority
  {
    var others := StayOthers(rows, t, rows[t].priority);
    OthersShape(rows, t);
    forall a, b | 0 <= a < b < |others| ensures others[a].priority < others[b].priority {
      assert others[a] in others && others[b] in others;
      var i :| 0 <= i < |rows| && rows[i] == others[a];
      var j :| 0 <= j < |rows| && rows[j] == others[b];
      assert i != j;
      if i < j {
        assert rows[i].priority != rows[j].priority;
      } else {
        assert rows[j].priority != rows[i].priority;
      }
    }
  }

  /**
    Idempotence: in a well-ranked lane, asking for a client's own lane and
    own priority leaves the whole table as it was.
   */
  lemma SameRequestIdempotent(rows: seq<Client>, t: int)
    requires UniqueIds(rows) && 0 <= t < |rows| && Contiguous(rows, rows[t].status)
    ensures ReassignRows(rows, rows[t].id, Some(rows[t].status), Some(rows[t].priority)) == rows
  {
    var id, lane, p := rows[t].id, rows[t].status, rows[t].priority;
    var r := ReassignRows(rows, id, Some(lane), Some(p));
    IndexOfUnique(rows, t);
    assert Select(rows, lane) != [];
    assert r == ReorderedRows(rows, id, lane, p);
    forall k | 0 <= k < |rows| ensures r[k] == rows[k] {
      SameRequestRow(rows, t, k);
    }
  }

  /** One row of `SameRequestIdempotent`. */
  lemma SameRequestRow(rows: seq<Client>, t: int, k: int)
    requires UniqueIds(rows) && 0 <= t < |rows| && 0 <= k < |rows| && Contiguous(rows, rows[t].status)
    ensures |ReorderedRows(rows, rows[t].id, rows[t].status, rows[t].priority)| == |rows|
    ensures ReorderedRows(rows, rows[t].id, rows[t].status, rows[t].priority)[k] == rows[k]
  {
    var lane, p := rows[t].status, rows[t].priority;
    var others := StayOthers(rows, t, p);
    StayRow(rows, t, p, k);
    if k != t && rows[k].status == lane {
      OthersHoldSkipRanks(rows, t);
      var j := IndexOf(others, rows[k].id);
      assert others[j] in others;
      var m :| 0 <= m < |rows| && rows[m] == others[j];
      IndexOfUnique(rows, m);
      IndexOfUnique(rows, k);
    }
  }
}
