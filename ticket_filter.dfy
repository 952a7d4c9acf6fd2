/** The search and status filter the ticket table applies to the tickets of
    the page it has loaded (`filteredTickets` in TicketsTable.tsx). */
module TicketFilter {
  import opened TicketModel
  import opened Text

  /** The status selector: every ticket, open ones only, or closed ones only. */
  datatype StatusFilter = All | Open | Closed

  /** The search term occurs in the decimal text of the ticket's id. */
  predicate MatchesId(t: Ticket, term: string)
  {
    Includes(DecimalText(t.idTicket), term)
  }

  /** The search term occurs in the description, ignoring letter case. */
  predicate MatchesDescription(t: Ticket, term: string)
  {
    Includes(ToLower(t.description), ToLower(term))
  }

  predicate MatchesStatus(t: Ticket, f: StatusFilter)
  {
    f == All || (f == Open && t.status) || (f == Closed && !t.status)
  }

  /** The filter predicate: the id or the description matches the term, and
      the status matches the selector. A kept ticket always has the selected
      status, and an empty term keeps every ticket of that status. */
  predicate Keeps(t: Ticket, term: string, f: StatusFilter): (r: bool)
    ensures r ==> MatchesStatus(t, f)
    ensures term == "" ==> (r <==> MatchesStatus(t, f))
  {
    (MatchesId(t, term) || MatchesDescription(t, term)) && MatchesStatus(t, f)
  }

  /** `tickets.filter(...)`: the tickets that satisfy `Keeps`, in page order. */
  function Filter(s: seq<Ticket>, term: string, f: StatusFilter): (r: seq<Ticket>)
    ensures |r| <= |s|
    ensures forall i :: 0 <= i < |r| ==> Keeps(r[i], term, f)
  {
    if s == [] then []
    else (if Keeps(s[0], term, f) then [s[0]] else []) + Filter(s[1..], term, f)
  }

  /** The filtered rows keep the page's relative order. */
  lemma {:induction false} FilterIsSubsequence(s: seq<Ticket>, term: string, f: StatusFilter)
    ensures IsSubsequence(Filter(s, term, f), s)
  {
    if s != [] {
      var rest := Filter(s[1..], term, f);
      FilterIsSubsequence(s[1..], term, f);
      if Keeps(s[0], term, f) {
        assert Filter(s, term, f) == [s[0]] + rest;
        assert ([s[0]] + rest)[1..] == rest;
      } else {
        assert Filter(s, term, f) == rest;
      }
    }
  }

  /** Filtering keeps every copy of each ticket that satisfies the predicate
      and no copy of any other ticket. */
  lemma {:induction false} FilterMultiplicity(s: seq<Ticket>, term: string, f: StatusFilter, t: Ticket)
    ensures multiset(Filter(s, term, f))[t] == if Keeps(t, term, f) then multiset(s)[t] else 0
  {
    if s != [] {
      FilterMultiplicity(s[1..], term, f, t);
      assert s == [s[0]] + s[1..];
      assert multiset(s) == multiset{s[0]} + multiset(s[1..]);
    }
  }

  /** A ticket appears among the filtered rows exactly when it is on the page
      and satisfies the predicate. */
  lemma FilterMembership(s: seq<Ticket>, term: string, f: StatusFilter, t: Ticket)
    ensures t in Filter(s, term, f) <==> t in s && Keeps(t, term, f)
  {
    FilterMultiplicity(s, term, f, t);
    assert t in Filter(s, term, f) <==> multiset(Filter(s, term, f))[t] > 0;
    assert t in s <==> multiset(s)[t] > 0;
  }

  /** With an empty term and the `all` selector nothing is dropped. */
  lemma {:induction false} FilterUnconstrainedKeepsAll(s: seq<Ticket>)
    ensures Filter(s, "", All) == s
  {
    if s != [] {
      IncludesEmpty(DecimalText(s[0].idTicket));
      FilterUnconstrainedKeepsAll(s[1..]);
      assert [s[0]] + s[1..] == s;
    }
  }

  /** The `open` selector keeps only open tickets and the `closed` selector
      only closed ones; between them they keep exactly what `all` keeps. */
  lemma {:induction false} StatusFilterPartitions(s: seq<Ticket>, term: string)
    ensures forall i :: 0 <= i < |Filter(s, term, Open)| ==> Filter(s, term, Open)[i].status
    ensures forall i :: 0 <= i < |Filter(s, term, Closed)| ==> !Filter(s, term, Closed)[i].status
    ensures |Filter(s, term, Open)| + |Filter(s, term, Closed)| == |Filter(s, term, All)|
  {
    if s != [] {
      StatusFilterPartitions(s[1..], term);
    }
  }

  /** Applying the same filter twice gives what applying it once gives. */
  lemma {:induction false} FilterIdempotent(s: seq<Ticket>, term: string, f: StatusFilter)
    ensures Filter(Filter(s, term, f), term, f) == Filter(s, term, f)
  {
    if s != [] {
      var rest := Filter(s[1..], term, f);
      FilterIdempotent(s[1..], term, f);
      if Keeps(s[0], term, f) {
        var once := [s[0]] + rest;
        assert once[0] == s[0] && once[1..] == rest;
        assert Filter(once, term, f) == [s[0]] + Filter(rest, term, f);
      } else {
        assert Filter(s, term, f) == rest;
      }
    }
  }
}
