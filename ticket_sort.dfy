/** The ordering the ticket table applies to the filtered rows
    (`sortedTickets` in TicketsTable.tsx): a comparator over the chosen
    criterion and direction, and a stable sort driven by it. */
module TicketSort {
  import opened TicketModel

  /** The sort criterion; `Unsorted` is the initial `null`. */
  datatype Criteria = Unsorted | ByDate | ByStatus

  /** The sort direction; `NoDirection` is the initial `null`. */
  datatype Direction = NoDirection | Asc | Desc

  datatype SortSpec = SortSpec(criteria: Criteria, direction: Direction)

  /** The class a ticket falls into under `spec`: ascending timestamp,
      descending timestamp, open-first, closed-first, or one class for all. */
  function Rank(spec: SortSpec, t: Ticket): int
  {
    match spec.criteria
    case ByDate => if spec.direction == Asc then t.date else -t.date
    case ByStatus => if t.status == (spec.direction == Asc) then 0 else 1
    case Unsorted => 0
  }

  /** The comparator handed to `sort`. Any direction other than `Asc` takes the
      descending branch. Its sign always agrees with the order of the ranks, so
      it is a consistent comparator (a total preorder). */
  function Compare(spec: SortSpec, a: Ticket, b: Ticket): (r: int)
    ensures r == Rank(spec, a) - Rank(spec, b)
  {
    match spec.criteria
    case ByDate =>
      if spec.direction == Asc then a.date - b.date else b.date - a.date
    case ByStatus =>
      if spec.direction == Asc then (if a.status == b.status then 0 else if a.status then -1 else 1)
      else (if a.status == b.status then 0 else if a.status then 1 else -1)
    case Unsorted => 0
  }

  /** No pair of entries is out of order under the comparator. */
  predicate SortedBy(spec: SortSpec, s: seq<Ticket>)
  {
    forall i, j :: 0 <= i < j < |s| ==> Compare(spec, s[i], s[j]) <= 0
  }

  /** The entries of `s` that the comparator ranks equal to `t`, in order. */
  function Ties(spec: SortSpec, s: seq<Ticket>, t: Ticket): seq<Ticket>
  {
    if s == [] then []
    else Ties(spec, s[..|s| - 1], t) + (if Compare(spec, s[|s| - 1], t) == 0 then [s[|s| - 1]] else [])
  }

  /** Insert `x` into `s` from the right, passing over exactly the trailing
      entries the comparator puts strictly after `x`. */
  function Insert(spec: SortSpec, s: seq<Ticket>, x: Ticket): (r: seq<Ticket>)
    ensures |r| == |s| + 1
    decreases |s|
  {
    if s == [] || Compare(spec, s[|s| - 1], x) <= 0 then s + [x]
    else Insert(spec, s[..|s| - 1], x) + [s[|s| - 1]]
  }

  /** The order a stable sort by `spec` gives: insertion sort, one entry at a
      time. It neither loses nor adds entries. */
  function StableSort(spec: SortSpec, s: seq<Ticket>): (r: seq<Ticket>)
    ensures |r| == |s|
  {
    if s == [] then [] else Insert(spec, StableSort(spec, s[..|s| - 1]), s[|s| - 1])
  }

  // ------------------------------------------------------------ insertion

  lemma {:induction false} InsertPermutes(spec: SortSpec, s: seq<Ticket>, x: Ticket)
    ensures multiset(Insert(spec, s, x)) == multiset(s) + multiset{x}
    decreases |s|
  {
    if s != [] && Compare(spec, s[|s| - 1], x) > 0 {
      var init := s[..|s| - 1];
      InsertPermutes(spec, init, x);
      assert s == init + [s[|s| - 1]];
    }
  }

  lemma {:induction false} InsertKeepsSorted(spec: SortSpec, s: seq<Ticket>, x: Ticket)
    requires SortedBy(spec, s)
    ensures SortedBy(spec, Insert(spec, s, x))
    decreases |s|
  {
    if s != [] && Compare(spec, s[|s| - 1], x) > 0 {
      var init, last := s[..|s| - 1], s[|s| - 1];
      InsertKeepsSorted(spec, init, x);
      InsertPermutes(spec, init, x);
      var front := Insert(spec, init, x);
      forall i | 0 <= i < |front|
        ensures Compare(spec, front[i], last) <= 0
      {
        assert front[i] in multiset(front);
        if front[i] != x {
          assert front[i] in multiset(init);
          var k :| 0 <= k < |init| && init[k] == front[i];
          assert s[k] == init[k];
        }
      }
    }
  }

  lemma {:induction false} TiesAppend(spec: SortSpec, a: seq<Ticket>, b: seq<Ticket>, t: Ticket)
    ensures Ties(spec, a + b, t) == Ties(spec, a, t) + Ties(spec, b, t)
    decreases |b|
  {
    if b != [] {
      var init := b[..|b| - 1];
      assert (a + b)[..|a + b| - 1] == a + init;
      TiesAppend(spec, a, init, t);
    } else {
      assert a + b == a;
    }
  }

  lemma TiesSingle(spec: SortSpec, y: Ticket, t: Ticket)
    ensures Ties(spec, [y], t) == if Compare(spec, y, t) == 0 then [y] else []
  {
    assert [y][..0] == [];
  }

  /** Inserting `x` adds it at the end of its class and moves nothing else
      relative to its own class. */
  lemma {:induction false} InsertTies(spec: SortSpec, s: seq<Ticket>, x: Ticket, t: Ticket)
    ensures Ties(spec, Insert(spec, s, x), t) == Ties(spec, s, t) + Ties(spec, [x], t)
    decreases |s|
  {
    if s == [] || Compare(spec, s[|s| - 1], x) <= 0 {
      assert Insert(spec, s, x) == s + [x];
      TiesAppend(spec, s, [x], t);
    } else {
      var init, last := s[..|s| - 1], s[|s| - 1];
      InsertTies(spec, init, x, t);
      InsertTiesShift(spec, init, last, x, t);
      assert init + [last] == s;
    }
  }

  /** The step of `InsertTies` where `x` passes over the last entry. */
  lemma InsertTiesShift(spec: SortSpec, init: seq<Ticket>, last: Ticket, x: Ticket, t: Ticket)
    requires Compare(spec, last, x) > 0
    requires Ties(spec, Insert(spec, init, x), t) == Ties(spec, init, t) + Ties(spec, [x], t)
    ensures Ties(spec, Insert(spec, init + [last], x), t) == Ties(spec, init + [last], t) + Ties(spec, [x], t)
  {
    var s := init + [last];
    assert s[..|s| - 1] == init && s[|s| - 1] == last;
    assert Insert(spec, s, x) == Insert(spec, init, x) + [last];
    TiesAppend(spec, Insert(spec, init, x), [last], t);
    TiesAppend(spec, init, [last], t);
    TiesSingle(spec, x, t);
    TiesSingle(spec, last, t);
    SwapEmpty(Ties(spec, init, t), Ties(spec, [x], t), Ties(spec, [last], t));
  }

  /** Two trailing parts commute when one of them is empty. */
  lemma SwapEmpty<T>(p: seq<T>, u: seq<T>, v: seq<T>)
    requires u == [] || v == []
    ensures p + u + v == p + v + u
  {
    if u == [] {
      assert p + u == p && p + v + u == p + v;
    } else {
      assert p + v == p && p + u + v == p + u;
    }
  }

  // -------------------------------------------------------------- sorting

  /** The sort loses and duplicates nothing. */
  lemma {:induction false} StableSortPermutes(spec: SortSpec, s: seq<Ticket>)
    ensures |StableSort(spec, s)| == |s|
    ensures multiset(StableSort(spec, s)) == multiset(s)
  {
    if s != [] {
      var init := s[..|s| - 1];
      StableSortPermutes(spec, init);
      InsertPermutes(spec, StableSort(spec, init), s[|s| - 1]);
      assert s == init + [s[|s| - 1]];
    }
  }

  /** The sort leaves no pair out of order under the comparator. */
  lemma {:induction false} StableSortSorted(spec: SortSpec, s: seq<Ticket>)
    ensures SortedBy(spec, StableSort(spec, s))
  {
    if s != [] {
      StableSortSorted(spec, s[..|s| - 1]);
      InsertKeepsSorted(spec, StableSort(spec, s[..|s| - 1]), s[|s| - 1]);
    }
  }

  /** Stability: entries the comparator ranks equal keep their input order. */
  lemma {:induction false} StableSortStable(spec: SortSpec, s: seq<Ticket>, t: Ticket)
    ensures Ties(spec, StableSort(spec, s), t) == Ties(spec, s, t)
  {
    if s != [] {
      StableSortStable(spec, s[..|s| - 1], t);
      InsertTies(spec, StableSort(spec, s[..|s| - 1]), s[|s| - 1], t);
      TiesSingle(spec, s[|s| - 1], t);
    }
  }

  /** With no criterion the comparator always answers 0 and the order is kept. */
  lemma {:induction false} UnsortedKeepsOrder(spec: SortSpec, s: seq<Ticket>)
    requires spec.criteria == Unsorted
    ensures StableSort(spec, s) == s
  {
    if s != [] {
      UnsortedKeepsOrder(spec, s[..|s| - 1]);
      assert s[..|s| - 1] + [s[|s| - 1]] == s;
    }
  }

  // ------------------------------------------- what each sort choice gives

  /** Date, ascending: timestamps never decrease down the rows. */
  lemma DateAscendingOrder(s: seq<Ticket>)
    ensures var r := StableSort(SortSpec(ByDate, Asc), s);
      forall i, j :: 0 <= i < j < |r| ==> r[i].date <= r[j].date
  {
    StableSortSorted(SortSpec(ByDate, Asc), s);
  }

  /** Date, any direction but ascending: timestamps never increase. */
  lemma DateDescendingOrder(d: Direction, s: seq<Ticket>)
    requires d != Asc
    ensures var r := StableSort(SortSpec(ByDate, d), s);
      forall i, j :: 0 <= i < j < |r| ==> r[i].date >= r[j].date
  {
    StableSortSorted(SortSpec(ByDate, d), s);
  }

  /** Status, ascending: every open ticket comes before every closed one. */
  lemma StatusOpenFirst(s: seq<Ticket>)
    ensures var r := StableSort(SortSpec(ByStatus, Asc), s);
      forall i, j :: 0 <= i < |r| && 0 <= j < |r| && r[i].status && !r[j].status ==> i < j
  {
    var spec := SortSpec(ByStatus, Asc);
    StableSortSorted(spec, s);
  }

  /** Status, any direction but ascending: every closed ticket comes before
      every open one. */
  lemma StatusClosedFirst(d: Direction, s: seq<Ticket>)
    requires d != Asc
    ensures var r := StableSort(SortSpec(ByStatus, d), s);
      forall i, j :: 0 <= i < |r| && 0 <= j < |r| && !r[i].status && r[j].status ==> i < j
  {
    var spec := SortSpec(ByStatus, d);
    StableSortSorted(spec, s);
  }

  /** The tickets of `s` whose status is `b`, in order. */
  function WithStatus(s: seq<Ticket>, b: bool): seq<Ticket>
  {
    if s == [] then []
    else WithStatus(s[..|s| - 1], b) + (if s[|s| - 1].status == b then [s[|s| - 1]] else [])
  }

  /** Under a status sort, the tickets the comparator ranks equal to `t` are
      exactly the tickets with `t`'s status. */
  lemma {:induction false} StatusTiesAreSameStatus(spec: SortSpec, s: seq<Ticket>, t: Ticket)
    requires spec.criteria == ByStatus
    ensures Ties(spec, s, t) == WithStatus(s, t.status)
  {
    if s != [] {
      StatusTiesAreSameStatus(spec, s[..|s| - 1], t);
    }
  }

  /** Status sort, either direction: tickets with equal status keep the order
      they had before sorting. */
  lemma StatusSortKeepsOrderWithinStatus(d: Direction, s: seq<Ticket>, b: bool)
    ensures WithStatus(StableSort(SortSpec(ByStatus, d), s), b) == WithStatus(s, b)
  {
    var spec := SortSpec(ByStatus, d);
    var t := Ticket(0, "", b, 0);
    StableSortStable(spec, s, t);
    StatusTiesAreSameStatus(spec, StableSort(spec, s), t);
    StatusTiesAreSameStatus(spec, s, t);
  }

  // ------------------------------------ ascending and descending dates mirror

  /** `s` back to front. */
  function Reverse(s: seq<Ticket>): (r: seq<Ticket>)
    ensures |r| == |s|
    ensures forall k :: 0 <= k < |s| ==> r[k] == s[|s| - 1 - k]
  {
    if s == [] then [] else [s[|s| - 1]] + Reverse(s[..|s| - 1])
  }

  lemma {:induction false} ReversePermutes(s: seq<Ticket>)
    ensures multiset(Reverse(s)) == multiset(s)
  {
    if s != [] {
      var init := s[..|s| - 1];
      ReversePermutes(init);
      assert s == init + [s[|s| - 1]];
    }
  }

  /** Timestamps never decrease along `s`. */
  predicate DatesAscend(s: seq<Ticket>)
  {
    forall i, j :: 0 <= i < j < |s| ==> s[i].date <= s[j].date
  }

  /** No two different tickets of `s` share a date. */
  predicate DatesDistinct(s: seq<Ticket>)
  {
    forall t, u :: t in s && u in s && t.date == u.date ==> t == u
  }

  lemma MultisetTail(a: seq<Ticket>)
    requires a != []
    ensures multiset(a[1..]) == multiset(a) - multiset{a[0]}
  {
    assert a == [a[0]] + a[1..];
  }

  /** Two date-ordered arrangements of the same tickets start with the same
      ticket. */
  lemma DateOrderSameHead(a: seq<Ticket>, b: seq<Ticket>)
    requires a != [] && b != []
    requires multiset(a) == multiset(b)
    requires DatesAscend(a) && DatesAscend(b) && DatesDistinct(a)
    ensures a[0] == b[0]
  {
    assert a[0] in multiset(b);
    var j :| 0 <= j < |b| && b[j] == a[0];
    assert b[0] in multiset(a);
    var i :| 0 <= i < |a| && a[i] == b[0];
    assert a[0].date <= a[i].date;
    assert b[0].date <= b[j].date;
  }

  /** Dropping the first ticket keeps the timestamps ascending. */
  lemma AscendTail(a: seq<Ticket>)
    requires a != [] && DatesAscend(a)
    ensures DatesAscend(a[1..])
  {
    forall i, j | 0 <= i < j < |a| - 1
      ensures a[1..][i].date <= a[1..][j].date
    {
      assert a[1..][i] == a[i + 1] && a[1..][j] == a[j + 1];
    }
  }

  /** Dropping the first ticket keeps the dates distinct. */
  lemma DistinctTail(a: seq<Ticket>)
    requires a != [] && DatesDistinct(a)
    ensures DatesDistinct(a[1..])
  {
    forall t | t in a[1..]
      ensures t in a
    {
      var k :| 0 <= k < |a| - 1 && a[1..][k] == t;
      assert a[k + 1] == t;
    }
  }

  /** Two date-ordered arrangements of the same tickets are equal when tickets
      sharing a date are the same ticket. */
  lemma {:induction false} DateOrderUnique(a: seq<Ticket>, b: seq<Ticket>)
    requires multiset(a) == multiset(b)
    requires DatesAscend(a) && DatesAscend(b) && DatesDistinct(a)
    ensures a == b
    decreases |a|
  {
    SameLength(a, b);
    if a != [] {
      DateOrderSameHead(a, b);
      MultisetTail(a);
      MultisetTail(b);
      AscendTail(a);
      AscendTail(b);
      DistinctTail(a);
      DateOrderUnique(a[1..], b[1..]);
      SameHeadAndTail(a, b);
    }
  }

  lemma SameLength(a: seq<Ticket>, b: seq<Ticket>)
    requires multiset(a) == multiset(b)
    ensures |a| == |b|
  {
    assert |a| == |multiset(a)| && |b| == |multiset(b)|;
  }

  lemma SameHeadAndTail(a: seq<Ticket>, b: seq<Ticket>)
    requires a != [] && b != [] && a[0] == b[0] && a[1..] == b[1..]
    ensures a == b
  {
    assert a == [a[0]] + a[1..] && b == [b[0]] + b[1..];
  }

  /** When tickets sharing a date are the same ticket, the ascending date sort
      is exactly the descending date sort read backwards. */
  lemma DateDirectionsMirror(s: seq<Ticket>)
    requires forall i, j :: 0 <= i < |s| && 0 <= j < |s| && s[i].date == s[j].date ==> s[i] == s[j]
    ensures StableSort(SortSpec(ByDate, Asc), s) == Reverse(StableSort(SortSpec(ByDate, Desc), s))
  {
    var up, down := StableSort(SortSpec(ByDate, Asc), s), StableSort(SortSpec(ByDate, Desc), s);
    StableSortPermutes(SortSpec(ByDate, Asc), s);
    StableSortPermutes(SortSpec(ByDate, Desc), s);
    DateAscendingOrder(s);
    DateDescendingOrder(Desc, s);
    var back := Reverse(down);
    ReversePermutes(down);
    forall t, u | t in up && u in up && t.date == u.date
      ensures t == u
    {
      assert t in multiset(s) && u in multiset(s);
    }
    DateOrderUnique(up, back);
  }

  /** Where `Insert` puts `x`: after the last entry that may precede it, with
      every later entry one of those the comparator puts strictly after `x`. */
  lemma {:induction false} InsertSplit(spec: SortSpec, s: seq<Ticket>, j: nat, x: Ticket)
    requires j <= |s|
    requires forall k :: j <= k < |s| ==> Compare(spec, s[k], x) > 0
    requires j > 0 ==> Compare(spec, s[j - 1], x) <= 0
    ensures Insert(spec, s, x) == s[..j] + [x] + s[j..]
    decreases |s|
  {
    if j == |s| {
      assert s[..j] == s && s[j..] == [];
    } else {
      var init := s[..|s| - 1];
      InsertSplit(spec, init, j, x);
      assert Insert(spec, s, x) == Insert(spec, init, x) + [s[|s| - 1]];
      AppendLast(s, j, x);
    }
  }

  /** Placing `x` at `j` commutes with putting back the last entry. */
  lemma AppendLast<T>(s: seq<T>, j: nat, x: T)
    requires j < |s|
    ensures s[..|s| - 1][..j] + [x] + s[..|s| - 1][j..] + [s[|s| - 1]] == s[..j] + [x] + s[j..]
  {
    var init := s[..|s| - 1];
    assert init[..j] == s[..j];
    assert init[j..] + [s[|s| - 1]] == s[j..];
  }

  /** A sequence that agrees with `sorted` before `j`, holds `x` at `j`, and
      agrees with `sorted` shifted right by one after `j`, is `sorted` with `x`
      placed at `j`. */
  lemma PlacedAt(sorted: seq<Ticket>, j: nat, x: Ticket, b: seq<Ticket>)
    requires j <= |sorted| && |b| == |sorted| + 1
    requires forall k :: 0 <= k < j ==> b[k] == sorted[k]
    requires b[j] == x
    requires forall k :: j < k < |b| ==> b[k] == sorted[k - 1]
    ensures b == sorted[..j] + [x] + sorted[j..]
  {
    var r := sorted[..j] + [x] + sorted[j..];
    forall k | 0 <= k < |b|
      ensures b[k] == r[k]
    {
      if k < j {
        assert r[k] == sorted[..j][k];
      } else if k > j {
        assert r[k] == sorted[j..][k - j - 1];
      }
    }
  }

  /** One step of the in-place sort: the prefix `a[..n]` is already sorted and
      `a[n]` is moved left past the entries that must come after it. */
  method InsertAt(a: array<Ticket>, n: nat, spec: SortSpec)
    requires n < a.Length
    modifies a
    ensures a[..n + 1] == Insert(spec, old(a[..n]), old(a[n]))
    ensures forall k :: n < k < a.Length ==> a[k] == old(a[k])
  {
    ghost var sorted := a[..n];
    var x := a[n];
    var j := n;
    while j > 0 && Compare(spec, a[j - 1], x) > 0
      invariant 0 <= j <= n
      invariant forall k :: 0 <= k < j ==> a[k] == sorted[k]
      invariant forall k :: j < k <= n ==> a[k] == sorted[k - 1]
      invariant forall k :: n < k < a.Length ==> a[k] == old(a[k])
      invariant forall k :: j <= k < n ==> Compare(spec, sorted[k], x) > 0
    {
      a[j] := a[j - 1];
      j := j - 1;
    }
    a[j] := x;
    InsertSplit(spec, sorted, j, x);
    PlacedAt(sorted, j, x, a[..n + 1]);
  }

  /** Sorting one more entry of `input` inserts that entry into the sorted prefix. */
  lemma StableSortStep(spec: SortSpec, input: seq<Ticket>, i: nat)
    requires i < |input|
    ensures StableSort(spec, input[..i + 1]) == Insert(spec, StableSort(spec, input[..i]), input[i])
  {
    assert input[..i + 1][..i] == input[..i];
  }

  /** `Array.prototype.sort` with this comparator, in place on the array. */
  method InsertionSort(a: array<Ticket>, spec: SortSpec)
    modifies a
    ensures a[..] == StableSort(spec, old(a[..]))
  {
    ghost var input := a[..];
    var i := 0;
    while i < a.Length
      invariant 0 <= i <= a.Length
      invariant a[..i] == StableSort(spec, input[..i])
      invariant forall k :: i <= k < a.Length ==> a[k] == input[k]
    {
      StableSortStep(spec, input, i);
      InsertAt(a, i, spec);
      i := i + 1;
    }
    assert a[..] == a[..a.Length];
    assert input[..a.Length] == input;
  }
}
