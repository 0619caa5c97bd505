/**
  Worked boards: the handler's effect on small concrete tables, computed
  step by step through the snapshot, the sort and the renumbering.
 */
module Scenarios {
  import opened Clients
  import opened Filter
  import opened Ranking

  const A := Client(1, Backlog, 1, "A")
  const B := Client(2, Backlog, 2, "B")
  const C := Client(3, Backlog, 3, "C")

  /** The backlog after B's own write of rank 1, as the same-lane branch reads it back. */
  lemma PromoteOrder()
    ensures SetPriority([A, B, C], 2, 1) == [A, B.(priority := 1), C]
    ensures Without(FilterClients([A, B.(priority := 1), C], Backlog), 2) == [A, C]
  {
    var b1 := B.(priority := 1);
    var snap := [A, b1, C];
    var written := SetPriority([A, B, C], 2, 1);
    assert |written| == 3 && written[0] == A && written[1] == b1 && written[2] == C;
    assert written == snap;
    assert snap[1..] == [b1, C] && [b1, C][1..] == [C] && [C][1..] == [];
    assert Select([C], Backlog) == [C];
    assert Select([b1, C], Backlog) == [b1, C];
    assert Select(snap, Backlog) == snap;
    assert SortByPriority([C]) == [C];
    assert SortByPriority([b1, C]) == Insert(b1, [C]) == [b1, C];
    assert SortByPriority(snap) == Insert(A, [b1, C]) == snap;
    assert Without([C], 2) == [C];
    assert Without([b1, C], 2) == [C];
    assert Without(snap, 2) == [A, C];
  }

  /** The skipping counter over A and C with rank 1 reserved hands out 2 and 3. */
  lemma PromoteRanks()
    ensures SkipRenumbered([A, B.(priority := 1), C], [A, C], 1) == [A.(priority := 2), B.(priority := 1), C]
  {
    assert [A, C][1..] == [C];
    assert IndexOf([A, C], 1) == 0 && IndexOf([A, C], 2) == -1 && IndexOf([A, C], 3) == 1;
  }

  /**
    Backlog A(1) B(2) C(3); B asks for rank 1 in its own lane. The counter
    skips 1, so A takes 2 and C keeps 3.
   */
  lemma PromoteWithinLane()
    ensures UniqueIds([A, B, C])
    ensures ReassignRows([A, B, C], 2, Some(Backlog), Some(1)) == [A.(priority := 2), B.(priority := 1), C]
  {
    assert IndexOf([A, B, C], 2) == 1;
    PromoteOrder();
    PromoteRanks();
  }

  const D := Client(4, InProgress, 1, "D")
  const E := Client(5, Backlog, 2, "E")

  /** A's own write moves it to in progress at rank 1. */
  lemma MoveWrite()
    ensures SetPriorityAndStatus([A, E, D], 1, 1, InProgress) == [A.(status := InProgress), E, D]
  {
    var written := SetPriorityAndStatus([A, E, D], 1, 1, InProgress);
    assert |written| == 3 && written[0] == A.(status := InProgress) && written[1] == E && written[2] == D;
  }

  /** The backlog as the lane-move branch reads it back: E alone. */
  lemma MoveBacklogOrder()
    ensures FilterClients([A.(status := InProgress), E, D], Backlog) == [E]
  {
    var snap := [A.(status := InProgress), E, D];
    assert snap[1..] == [E, D] && [E, D][1..] == [D] && [D][1..] == [];
    assert Select([D], Backlog) == [];
    assert Select([E, D], Backlog) == [E];
    assert Select(snap, Backlog) == [E];
    assert SortByPriority([E]) == [E];
  }

  /** In progress as the lane-move branch reads it back: A and D tie at 1, in table order. */
  lemma MoveInProgressOrder()
    ensures FilterClients([A.(status := InProgress), E, D], InProgress) == [A.(status := InProgress), D]
  {
    var a1 := A.(status := InProgress);
    var snap := [a1, E, D];
    assert snap[1..] == [E, D] && [E, D][1..] == [D] && [D][1..] == [];
    assert Select([D], InProgress) == [D];
    assert Select([E, D], InProgress) == [D];
    assert Select(snap, InProgress) == [a1, D];
    assert SortByPriority([D]) == [D];
    assert SortByPriority([a1, D]) == Insert(a1, [D]) == [a1, D];
  }

  /** Renumbering the backlog [E], then in progress [A, D]. */
  lemma MoveRanks()
    ensures Renumbered([A.(status := InProgress), E, D], [E]) == [A.(status := InProgress), E.(priority := 1), D]
    ensures Renumbered([A.(status := InProgress), E.(priority := 1), D], [A.(status := InProgress), D]) ==
      [A.(status := InProgress), E.(priority := 1), D.(priority := 2)]
  {
    var a1 := A.(status := InProgress);
    assert IndexOf([E], 1) == -1 && IndexOf([E], 5) == 0 && IndexOf([E], 4) == -1;
    assert [a1, D][1..] == [D];
    assert IndexOf([a1, D], 1) == 0 && IndexOf([a1, D], 5) == -1 && IndexOf([a1, D], 4) == 1;
  }

  /**
    Backlog A(1) E(2), in progress D(1); A moves to in progress at rank 1.
    The backlog closes up to E(1); A and D tie at 1 and keep table order,
    so A takes 1 and D takes 2.
   */
  lemma MoveAcrossLanes()
    ensures UniqueIds([A, E, D])
    ensures ReassignRows([A, E, D], 1, Some(InProgress), Some(1)) ==
      [A.(status := InProgress), E.(priority := 1), D.(priority := 2)]
  {
    assert IndexOf([A, E, D], 1) == 0;
    MoveWrite();
    MoveBacklogOrder();
    MoveInProgressOrder();
    MoveRanks();
  }

  /**
    A lone client of a lane asks for rank 5: nobody else is renumbered, it
    keeps 5, and the lane no longer holds exactly 1..1.
   */
  lemma LoneClientOutOfRange()
    ensures ReassignRows([A], 1, Some(Backlog), Some(5)) == [A.(priority := 5)]
    ensures !Contiguous([A.(priority := 5)], Backlog)
  {
    var a5 := A.(priority := 5);
    assert SetPriority([A], 1, 5) == [a5];
    assert Select([a5], Backlog) == [a5];
    assert SortByPriority([a5]) == [a5];
    assert Without([a5], 1) == [];
    assert Count([a5], Backlog) == 1;
  }
}
