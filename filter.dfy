/**
  `filterClients`: the members of one lane, sorted by ascending priority with
  a stable sort, so members that share a priority keep their table order.
 */
module Filter {
  import opened Clients

  /** Ascending by priority. */
  ghost predicate Sorted(s: seq<Client>)
  {
    forall i, j :: 0 <= i < j < |s| ==> s[i].priority <= s[j].priority
  }

  /** `x` comes before `y` in the table `rows`. */
  ghost predicate TableBefore(rows: seq<Client>, x: Client, y: Client)
  {
    IndexOf(rows, x.id) < IndexOf(rows, y.id)
  }

  /** `x` sorts before `y`: a smaller priority, or the same one and an earlier row. */
  ghost predicate Precedes(rows: seq<Client>, x: Client, y: Client)
  {
    x.priority < y.priority || (x.priority == y.priority && TableBefore(rows, x, y))
  }

  /** The list follows the table's row order. */
  ghost predicate InTableOrder(rows: seq<Client>, s: seq<Client>)
  {
    forall i, j :: 0 <= i < j < |s| ==> TableBefore(rows, s[i], s[j])
  }

  /**
    Ascending by priority and, among equal priorities, in table order: the
    order a stable sort of a table-ordered list produces.
   */
  ghost predicate TableOrdered(rows: seq<Client>, s: seq<Client>)
  {
    forall i, j :: 0 <= i < j < |s| ==> Precedes(rows, s[i], s[j])
  }

  /**
    Stable insertion of `c` into a sorted list: `c` goes in front of the first
    element whose priority is not smaller than its own.
   */
  function Insert(c: Client, s: seq<Client>): (r: seq<Client>)
    ensures |r| == |s| + 1
    ensures multiset(r) == multiset(s) + multiset{c}
  {
    if s == [] || c.priority <= s[0].priority then [c] + s
    else
      assert s == [s[0]] + s[1..];
      [s[0]] + Insert(c, s[1..])
  }

  /**
    The stable sort by priority (the comparator `a.priority - b.priority`):
    each element is inserted in front of the later ones it ties with.
   */
  function SortByPriority(s: seq<Client>): (r: seq<Client>)
    ensures |r| == |s|
    ensures multiset(r) == multiset(s)
  {
    if s == [] then []
    else
      assert s == [s[0]] + s[1..];
      Insert(s[0], SortByPriority(s[1..]))
  }

  /** `filterClients(clients, status)`: filter by lane, then sort stably by priority. */
  function FilterClients(rows: seq<Client>, lane: Lane): seq<Client>
  {
    SortByPriority(Select(rows, lane))
  }

  /** Every element of `s + [c]`-as-a-multiset is `c` or an element of `s`. */
  lemma InsertMembers(c: Client, s: seq<Client>)
    ensures forall x :: x in Insert(c, s) ==> x == c || x in s
  {
    forall x | x in Insert(c, s) ensures x == c || x in s {
      assert x in multiset(Insert(c, s));
    }
  }

  lemma SortMembers(s: seq<Client>)
    ensures forall x :: x in SortByPriority(s) ==> x in s
  {
    forall x | x in SortByPriority(s) ensures x in s {
      assert x in multiset(SortByPriority(s));
    }
  }

  /** Putting an element in front of a list it precedes keeps the list ordered. */
  lemma TableOrderedCons(rows: seq<Client>, x: Client, s: seq<Client>)
    requires TableOrdered(rows, s)
    requires forall y :: y in s ==> Precedes(rows, x, y)
    ensures TableOrdered(rows, [x] + s)
  {
    var r := [x] + s;
    forall i, j | 0 <= i < j < |r| ensures Precedes(rows, r[i], r[j]) {
      assert r[j] == s[j - 1];
      if i > 0 {
        assert r[i] == s[i - 1];
      } else {
        assert s[j - 1] in s;
      }
    }
  }

  /** The sort's output is ascending by priority. */
  lemma {:induction false} SortSorted(s: seq<Client>)
    ensures Sorted(SortByPriority(s))
  {
    if s != [] {
      SortSorted(s[1..]);
      InsertSorted(s[0], SortByPriority(s[1..]));
    }
  }

  /** Insertion keeps a sorted list sorted. */
  lemma {:induction false} InsertSorted(c: Client, s: seq<Client>)
    requires Sorted(s)
    ensures Sorted(Insert(c, s))
  {
    if s != [] && s[0].priority < c.priority {
      var t := Insert(c, s[1..]);
      InsertSorted(c, s[1..]);
      InsertMembers(c, s[1..]);
      var r := [s[0]] + t;
      forall i, j | 0 <= i < j < |r| ensures r[i].priority <= r[j].priority {
        assert r[j] == t[j - 1] && t[j - 1] in t;
        if i > 0 {
          assert r[i] == t[i - 1];
        } else if r[j] != c {
          var m :| 0 <= m < |s[1..]| && s[1..][m] == r[j];
          assert s[m + 1] == r[j];
        }
      }
    }
  }

  /** Inserting an element that comes before every other in the table keeps the table order. */
  lemma {:induction false} InsertTableOrdered(rows: seq<Client>, c: Client, s: seq<Client>)
    requires TableOrdered(rows, s)
    requires forall x :: x in s ==> TableBefore(rows, c, x)
    ensures TableOrdered(rows, Insert(c, s))
  {
    if s == [] || c.priority <= s[0].priority {
      forall y | y in s ensures Precedes(rows, c, y) {
        var m :| 0 <= m < |s| && s[m] == y;
        if m > 0 {
          assert Precedes(rows, s[0], s[m]);
        }
      }
      TableOrderedCons(rows, c, s);
    } else {
      var t := Insert(c, s[1..]);
      InsertTableOrdered(rows, c, s[1..]);
      InsertMembers(c, s[1..]);
      forall y | y in t ensures Precedes(rows, s[0], y) {
        if y != c {
          var m :| 0 <= m < |s[1..]| && s[1..][m] == y;
          assert s[m + 1] == y;
        }
      }
      TableOrderedCons(rows, s[0], t);
    }
  }

  /** Sorting a table-ordered list stably by priority gives a table-ordered result. */
  lemma {:induction false} SortTableOrdered(rows: seq<Client>, s: seq<Client>)
    requires InTableOrder(rows, s)
    ensures TableOrdered(rows, SortByPriority(s))
  {
    if s != [] {
      var t := SortByPriority(s[1..]);
      SortTableOrdered(rows, s[1..]);
      SortMembers(s[1..]);
      forall x | x in t ensures TableBefore(rows, s[0], x) {
        var m :| 0 <= m < |s[1..]| && s[1..][m] == x;
        assert s[m + 1] == x;
      }
      InsertTableOrdered(rows, s[0], t);
    }
  }

  /** Dropping the first row shifts every other row's position by one. */
  lemma IndexOfTail(rows: seq<Client>, x: Client)
    requires UniqueIds(rows) && |rows| > 0 && x in rows[1..]
    ensures IndexOf(rows, x.id) == IndexOf(rows[1..], x.id) + 1 >= 1
  {
    var m :| 0 <= m < |rows[1..]| && rows[1..][m] == x;
    assert rows[m + 1] == x;
    IndexOfUnique(rows, m + 1);
    IndexOfUnique(rows[1..], m);
  }

  /** Table order against the rows after the first is table order against all rows. */
  lemma InTableOrderShift(rows: seq<Client>, s: seq<Client>)
    requires UniqueIds(rows) && |rows| > 0
    requires forall x :: x in s ==> x in rows[1..]
    requires InTableOrder(rows[1..], s)
    ensures InTableOrder(rows, s)
  {
    forall i, j | 0 <= i < j < |s| ensures TableBefore(rows, s[i], s[j]) {
      IndexOfTail(rows, s[i]);
      IndexOfTail(rows, s[j]);
      assert TableBefore(rows[1..], s[i], s[j]);
    }
  }

  /** Putting a row in front of the rows that follow it keeps table order. */
  lemma InTableOrderCons(rows: seq<Client>, x: Client, s: seq<Client>)
    requires InTableOrder(rows, s)
    requires forall y :: y in s ==> TableBefore(rows, x, y)
    ensures InTableOrder(rows, [x] + s)
  {
    var r := [x] + s;
    forall i, j | 0 <= i < j < |r| ensures TableBefore(rows, r[i], r[j]) {
      assert r[j] == s[j - 1];
      if i > 0 {
        assert r[i] == s[i - 1];
      } else {
        assert s[j - 1] in s;
      }
    }
  }

  /** `where status = ?` keeps the table order. */
  lemma {:induction false} SelectInTableOrder(rows: seq<Client>, lane: Lane)
    requires UniqueIds(rows)
    ensures InTableOrder(rows, Select(rows, lane))
  {
    if rows != [] {
      var t := rows[1..];
      SelectInTableOrder(t, lane);
      var s' := Select(t, lane);
      InTableOrderShift(rows, s');
      if rows[0].status == lane {
        IndexOfUnique(rows, 0);
        forall y | y in s' ensures TableBefore(rows, rows[0], y) {
          IndexOfTail(rows, y);
        }
        InTableOrderCons(rows, rows[0], s');
      }
    }
  }

  /**
    What `filterClients` returns: exactly the rows of the lane, each once,
    in ascending priority, with ties in table order.
   */
  lemma FilterClientsSpec(rows: seq<Client>, lane: Lane)
    requires UniqueIds(rows)
    ensures multiset(FilterClients(rows, lane)) == multiset(Select(rows, lane))
    ensures forall c :: c in FilterClients(rows, lane) <==> c in rows && c.status == lane
    ensures |FilterClients(rows, lane)| == Count(rows, lane)
    ensures UniqueIds(FilterClients(rows, lane))
    ensures TableOrdered(rows, FilterClients(rows, lane))
  {
    var l := FilterClients(rows, lane);
    var s := Select(rows, lane);
    SelectInTableOrder(rows, lane);
    SortTableOrdered(rows, s);
    forall c ensures c in l <==> c in rows && c.status == lane {
      assert c in l <==> c in multiset(s);
      if c in rows && c.status == lane {
        var k :| 0 <= k < |rows| && rows[k] == c;
      }
    }
    forall i, j | 0 <= i < j < |l| ensures l[i].id != l[j].id {
      assert l[i] in l && l[j] in l;
      var a :| 0 <= a < |rows| && rows[a] == l[i];
      var b :| 0 <= b < |rows| && rows[b] == l[j];
      IndexOfUnique(rows, a);
      IndexOfUnique(rows, b);
    }
  }

  /** A table row's place in `filterClients` output: present exactly when it is in the lane. */
  lemma FilterClientsPosition(rows: seq<Client>, lane: Lane, k: int)
    requires UniqueIds(rows) && 0 <= k < |rows|
    ensures 0 <= IndexOf(FilterClients(rows, lane), rows[k].id) <==> rows[k].status == lane
    ensures 0 <= IndexOf(FilterClients(rows, lane), rows[k].id) ==>
      FilterClients(rows, lane)[IndexOf(FilterClients(rows, lane), rows[k].id)] == rows[k]
  {
    var l := FilterClients(rows, lane);
    FilterClientsSpec(rows, lane);
    var i := IndexOf(l, rows[k].id);
    if 0 <= i {
      assert l[i] in l;
      var m :| 0 <= m < |rows| && rows[m] == l[i];
      IndexOfUnique(rows, m);
      IndexOfUnique(rows, k);
    }
  }

  /**
    Two members of a lane come out of `filterClients` in the order of their
    priorities, and in table order when the priorities are equal.
   */
  lemma FilterClientsOrder(rows: seq<Client>, lane: Lane, a: int, b: int)
    requires UniqueIds(rows) && 0 <= a < |rows| && 0 <= b < |rows|
    requires rows[a].status == lane && rows[b].status == lane
    requires Precedes(rows, rows[a], rows[b])
    ensures 0 <= IndexOf(FilterClients(rows, lane), rows[a].id) < IndexOf(FilterClients(rows, lane), rows[b].id)
  {
    var l := FilterClients(rows, lane);
    FilterClientsSpec(rows, lane);
    FilterClientsPosition(rows, lane, a);
    FilterClientsPosition(rows, lane, b);
    IndexOfUnique(rows, a);
    IndexOfUnique(rows, b);
    var i, j := IndexOf(l, rows[a].id), IndexOf(l, rows[b].id);
    assert a != b;
    if j < i {
      assert false;
    }
  }
}
