/**
 * The repairs page: the single forward action each ticket offers, the
 * search-and-status filter over the ticket list, the four status counters,
 * and the conversion of the form's part lines into usage records.
 */
module RepairsPage {
  import opened Wrappers
  import opened Types
  import opened Seqs

  // ----- status actions -----

  /** Position of a state in the workflow: pending, in progress, completed, archived. */
  function Stage(s: Status): nat {
    match s
    case Pending => 0
    case InProgress => 1
    case Completed => 2
    case Archived => 3
  }

  /**
   * `getStatusActions`: the target state of each button shown for a ticket.
   * A ticket offers at most one move, always to the next stage, and an
   * archived ticket offers none.
   */
  function StatusActions(s: Status): (r: seq<Status>)
    ensures |r| <= 1
    ensures r == [] <==> s == Archived
    ensures forall i :: 0 <= i < |r| ==> Stage(r[i]) == Stage(s) + 1
  {
    match s
    case Pending => [InProgress]
    case InProgress => [Completed]
    case Completed => [Archived]
    case Archived => []
  }

  /** The states reached by pressing the offered button `n` times, or until none is offered. */
  function Walk(s: Status, n: nat): (path: seq<Status>)
    ensures |path| >= 1 && path[0] == s
    decreases n
  {
    if n == 0 || StatusActions(s) == [] then [s] else [s] + Walk(StatusActions(s)[0], n - 1)
  }

  /**
   * Pressing the offered button leads a new ticket through every state once,
   * in order, and ends at archived after three presses; no press changes an
   * archived ticket.
   */
  lemma {:induction false} WalkFromPending(n: nat)
    requires n >= 3
    ensures Walk(Pending, n) == [Pending, InProgress, Completed, Archived]
    ensures forall m: nat :: Walk(Archived, m) == [Archived]
  {
    assert Walk(Archived, n - 3) == [Archived];
    assert Walk(Completed, n - 2) == [Completed, Archived];
    assert Walk(InProgress, n - 1) == [InProgress, Completed, Archived];
  }

  /** Along any walk the stage goes up by exactly one per press. */
  lemma {:induction false} WalkAscends(s: Status, n: nat)
    ensures var path := Walk(s, n);
      forall i :: 0 <= i < |path| ==> Stage(path[i]) == Stage(s) + i
    decreases n
  {
    if n > 0 && StatusActions(s) != [] {
      var next := StatusActions(s)[0];
      WalkAscends(next, n - 1);
      var path := Walk(s, n);
      assert path == [s] + Walk(next, n - 1);
      assert Stage(next) == Stage(s) + 1;
      forall i | 0 <= i < |path|
        ensures Stage(path[i]) == Stage(s) + i
      {
        if i > 0 {
          assert path[i] == Walk(next, n - 1)[i - 1];
        }
      }
    }
  }

  // ----- search and status filter -----

  /** `t` occurs in `s` starting at position `i`. */
  predicate OccursAt(s: string, t: string, i: int) {
    0 <= i <= |s| - |t| && s[i..i + |t|] == t
  }

  /** `includes`: whether `t` occurs in `s` as a contiguous piece. */
  function Contains(s: string, t: string): (b: bool)
    ensures b <==> exists i :: OccursAt(s, t, i)
    decreases |s|
  {
    if |t| > |s| then false
    else if s[..|t|] == t then assert OccursAt(s, t, 0); true
    else
      var b := Contains(s[1..], t);
      assert b <==> exists i :: OccursAt(s, t, i) by {
        if b {
          var j :| OccursAt(s[1..], t, j);
          assert s[j + 1..j + 1 + |t|] == s[1..][j..j + |t|];
          assert OccursAt(s, t, j + 1);
        }
        if exists i :: OccursAt(s, t, i) {
          var i :| OccursAt(s, t, i);
          assert i != 0;
          assert s[1..][i - 1..i - 1 + |t|] == s[i..i + |t|];
          assert OccursAt(s[1..], t, i - 1);
        }
      }
      b
  }

  /** Occurrence is transitive: a piece of a piece of `s` is a piece of `s`. */
  lemma ContainsTrans(s: string, t: string, u: string)
    requires Contains(s, t) && Contains(t, u)
    ensures Contains(s, u)
  {
    var i :| OccursAt(s, t, i);
    var j :| OccursAt(t, u, j);
    assert i + j + |u| <= |s|;
    forall k | 0 <= k < |u|
      ensures s[i + j + k] == u[k]
    {
      assert u[k] == t[j + k] == s[i..i + |t|][j + k];
    }
    assert s[i + j..i + j + |u|] == u;
    assert OccursAt(s, u, i + j);
  }

  /** `toLowerCase`, applying the locale's per-character mapping `lower`. */
  function Lower(s: string, lower: char -> char): string {
    Mapped(s, lower)
  }

  /** Lower-casing keeps occurrence: a piece of `s` lower-cases to a piece of the lower-cased `s`. */
  lemma LowerContains(s: string, t: string, lower: char -> char)
    requires Contains(s, t)
    ensures Contains(Lower(s, lower), Lower(t, lower))
  {
    var i :| OccursAt(s, t, i);
    assert Lower(s, lower)[i..i + |t|] == Lower(t, lower);
    assert OccursAt(Lower(s, lower), Lower(t, lower), i);
  }

  /** Case-insensitive occurrence, as the page compares names. */
  function Mentions(name: string, term: string, lower: char -> char): bool {
    Contains(Lower(name, lower), Lower(term, lower))
  }

  /**
   * The search half of the filter: the term, lower-cased, occurs in the
   * lower-cased customer name, brand name or model name, or occurs as typed
   * in the phone number. A missing brand or model does not match.
   */
  function MatchesSearch(term: string, lower: char -> char): Repair -> bool {
    (r: Repair) =>
      || Mentions(r.ticket.customerName, term, lower)
      || Contains(r.ticket.customerPhone, term)
      || (r.brand.Some? && Mentions(r.brand.value.name, term, lower))
      || (r.model.Some? && Mentions(r.model.value.name, term, lower))
  }

  /** The status half: "all" or the ticket's stored state code. */
  function MatchesStatus(statusFilter: string): Repair -> bool {
    (r: Repair) => statusFilter == "all" || StatusCode(r.ticket.status) == statusFilter
  }

  function Shown(term: string, statusFilter: string, lower: char -> char): Repair -> bool {
    (r: Repair) => MatchesSearch(term, lower)(r) && MatchesStatus(statusFilter)(r)
  }

  /** `filteredRepairs`: the tickets matching both the search term and the status filter, in list order. */
  function FilteredRepairs(repairs: seq<Repair>, term: string, statusFilter: string, lower: char -> char): (r: seq<Repair>)
    ensures Keeps(repairs, r, Shown(term, statusFilter, lower))
    ensures forall x :: x in r <==>
      (x in repairs && MatchesSearch(term, lower)(x) && (statusFilter == "all" || StatusCode(x.ticket.status) == statusFilter))
  {
    FilterKeeps(repairs, Shown(term, statusFilter, lower));
    Filter(repairs, Shown(term, statusFilter, lower))
  }

  /** With an empty search box and "all" selected the page lists every ticket. */
  lemma ShowAll(repairs: seq<Repair>, lower: char -> char)
    ensures FilteredRepairs(repairs, "", "all", lower) == repairs
  {
    forall x | true
      ensures Shown("", "all", lower)(x)
    {
      assert OccursAt(Lower(x.ticket.customerName, lower), Lower("", lower), 0);
      assert MatchesSearch("", lower)(x);
    }
    FilterAll(repairs, Shown("", "all", lower));
  }

  /** A filter value that is no state code and not "all" hides every ticket. */
  lemma UnknownStatusHidesAll(repairs: seq<Repair>, term: string, statusFilter: string, lower: char -> char)
    requires statusFilter != "all" && ParseStatus(statusFilter).None?
    ensures FilteredRepairs(repairs, term, statusFilter, lower) == []
  {
    forall x | true
      ensures !Shown(term, statusFilter, lower)(x)
    {
      assert Shown(term, statusFilter, lower)(x) ==> MatchesStatus(statusFilter)(x);
      assert ParseStatus(statusFilter) != Some(x.ticket.status);
    }
    FilterNone(repairs, Shown(term, statusFilter, lower));
  }

  /**
   * Typing more narrows the list: when the new term contains the old one,
   * the new results are exactly the old results that match the new term.
   */
  lemma {:induction false} RefineNarrows(repairs: seq<Repair>, term: string, longer: string, statusFilter: string, lower: char -> char)
    requires Contains(longer, term)
    ensures FilteredRepairs(repairs, longer, statusFilter, lower)
         == Filter(FilteredRepairs(repairs, term, statusFilter, lower), Shown(longer, statusFilter, lower))
  {
    LowerContains(longer, term, lower);
    forall x | Shown(longer, statusFilter, lower)(x)
      ensures Shown(term, statusFilter, lower)(x)
    {
      assert MatchesSearch(longer, lower)(x) && MatchesStatus(statusFilter)(x);
      if Mentions(x.ticket.customerName, longer, lower) {
        ContainsTrans(Lower(x.ticket.customerName, lower), Lower(longer, lower), Lower(term, lower));
      } else if Contains(x.ticket.customerPhone, longer) {
        ContainsTrans(x.ticket.customerPhone, longer, term);
      } else if x.brand.Some? && Mentions(x.brand.value.name, longer, lower) {
        ContainsTrans(Lower(x.brand.value.name, lower), Lower(longer, lower), Lower(term, lower));
      } else {
        ContainsTrans(Lower(x.model.value.name, lower), Lower(longer, lower), Lower(term, lower));
      }
    }
    FilterNarrow(repairs, Shown(longer, statusFilter, lower), Shown(term, statusFilter, lower));
  }

  // ----- status counters -----

  function StatusIs(s: Status): Repair -> bool { (r: Repair) => r.ticket.status == s }

  datatype Counters = Counters(pending: nat, inProgress: nat, completed: nat, archived: nat)

  /** The card of one state. */
  function CounterOf(c: Counters, s: Status): nat {
    match s
    case Pending => c.pending
    case InProgress => c.inProgress
    case Completed => c.completed
    case Archived => c.archived
  }

  /** The four cards above the list: how many tickets, of the whole list, are in each state. */
  function StatusCounts(repairs: seq<Repair>): (c: Counters)
    ensures forall s :: CounterOf(c, s) == |Filter(repairs, StatusIs(s))|
    ensures c.pending + c.inProgress + c.completed + c.archived == |repairs|
  {
    CountsPartition(repairs);
    Counters(|Filter(repairs, StatusIs(Pending))|, |Filter(repairs, StatusIs(InProgress))|,
             |Filter(repairs, StatusIs(Completed))|, |Filter(repairs, StatusIs(Archived))|)
  }

  /** The last ticket adds one to the count of its own state and nothing to the others. */
  lemma StatusCountLast(repairs: seq<Repair>, s: Status)
    requires |repairs| > 0
    ensures |Filter(repairs, StatusIs(s))|
      == |Filter(repairs[..|repairs| - 1], StatusIs(s))| + (if repairs[|repairs| - 1].ticket.status == s then 1 else 0)
  {
    assert repairs[..|repairs| - 1] + [repairs[|repairs| - 1]] == repairs;
    FilterSnoc(repairs[..|repairs| - 1], repairs[|repairs| - 1], StatusIs(s));
  }

  /** Every ticket is in exactly one of the four states, so the counters partition the list. */
  lemma {:induction false} CountsPartition(repairs: seq<Repair>)
    ensures |Filter(repairs, StatusIs(Pending))| + |Filter(repairs, StatusIs(InProgress))|
          + |Filter(repairs, StatusIs(Completed))| + |Filter(repairs, StatusIs(Archived))| == |repairs|
    decreases |repairs|
  {
    if |repairs| > 0 {
      CountsPartition(repairs[..|repairs| - 1]);
      StatusCountLast(repairs, Pending);
      StatusCountLast(repairs, InProgress);
      StatusCountLast(repairs, Completed);
      StatusCountLast(repairs, Archived);
    }
  }

  /** Selecting a state in the filter never lists more tickets than that state's counter shows. */
  lemma FilteredWithinCounter(repairs: seq<Repair>, term: string, s: Status, lower: char -> char)
    ensures |FilteredRepairs(repairs, term, StatusCode(s), lower)| <= CounterOf(StatusCounts(repairs), s)
  {
    forall x | Shown(term, StatusCode(s), lower)(x)
      ensures StatusIs(s)(x)
    {
      assert MatchesStatus(StatusCode(s))(x);
      assert ParseStatus(StatusCode(s)) == Some(s);
    }
    FilterNarrow(repairs, Shown(term, StatusCode(s), lower), StatusIs(s));
    assert |Filter(Filter(repairs, StatusIs(s)), Shown(term, StatusCode(s), lower))| <= |Filter(repairs, StatusIs(s))|;
  }

  // ----- part lines -----

  /** One part line of the new-ticket form: which part, how many, at what unit price. */
  datatype FormPart = FormPart(sparePartId: Id, quantity: int, price: int)

  /**
   * The `used_parts?.map` step of `handleAddRepair`: each line becomes a
   * usage record with the same part, `quantity` as the quantity used and
   * `price` as the price at the time; a form without part lines passes none.
   */
  function ToUsedParts(lines: Option<seq<FormPart>>): (r: Option<seq<UsedPart>>)
    ensures lines.None? <==> r.None?
    ensures lines.Some? ==> |r.value| == |lines.value| && forall i :: 0 <= i < |lines.value| ==>
      r.value[i] == UsedPart(lines.value[i].sparePartId, lines.value[i].quantity, lines.value[i].price)
  {
    match lines
    case None => None
    case Some(ls) => Some(Mapped(ls, (l: FormPart) => UsedPart(l.sparePartId, l.quantity, l.price)))
  }

  function FromUsedPart(u: UsedPart): FormPart { FormPart(u.sparePartId, u.quantityUsed, u.priceAtTime) }

  /** The conversion loses nothing: reading the usage records back gives the form's lines. */
  lemma ToUsedPartsInverse(lines: seq<FormPart>)
    ensures Mapped(ToUsedParts(Some(lines)).value, FromUsedPart) == lines
  {
  }
}
