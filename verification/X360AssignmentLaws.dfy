/** When starting a cycle keeps the assignment table free of duplicates, and what a second start does. */
module X360AssignmentLaws {
  import opened PyText
  import opened Sequences
  import opened X360Assignments
  import opened X360Relations

  predicate Twins(a: Row, b: Row) {
    a.Assignment? && b.Assignment? && a.cycle == b.cycle && a.request == b.request
  }

  /** No two assignments of a cycle answer the same request. */
  ghost predicate DuplicateFree(rows: seq<Row>) {
    forall i, j :: 0 <= i < j < |rows| ==> !Twins(rows[i], rows[j])
  }

  ghost predicate Present(rows: seq<Row>, cycle: nat, q: Request) {
    exists i :: 0 <= i < |rows| && Matches(cycle, q)(rows[i])
  }

  /** The committed table after a start from an idle session. */
  function After(rows: seq<Row>, cycle: nat, requests: seq<Request>): seq<Row> {
    Activate(rows, cycle) + Additions(rows, cycle, requests)
  }

  lemma CountsPresent(rows: seq<Row>, cycle: nat, q: Request)
    ensures Count(rows, cycle, q) > 0 <==> Present(rows, cycle, q)
  {
    FilterCounts(rows, Matches(cycle, q));
  }

  /** What is added is exactly what is requested and absent. */
  lemma {:induction false} AddedExactly(rows: seq<Row>, cycle: nat, requests: seq<Request>, c: nat, q: Request)
    ensures Present(Additions(rows, cycle, requests), c, q) <==>
      (c == cycle && q in requests && Count(rows, cycle, q) == 0)
  {
    if requests != [] {
      var n := |requests| - 1;
      var before := Additions(rows, cycle, requests[..n]);
      AddedExactly(rows, cycle, requests[..n], c, q);
      assert requests == requests[..n] + [requests[n]];
      AdditionsLast(rows, cycle, requests);
      if Count(rows, cycle, requests[n]) == 0 {
        PresentAppend(before, Assignment(cycle, requests[n], CompanyOf(rows, cycle), false), c, q);
      }
    }
  }

  lemma PresentAppend(rows: seq<Row>, r: Row, c: nat, q: Request)
    ensures Present(rows + [r], c, q) <==> Present(rows, c, q) || Matches(c, q)(r)
  {
    assert (rows + [r])[|rows|] == r;
    assert forall i :: 0 <= i < |rows| ==> (rows + [r])[i] == rows[i];
  }

  lemma PresentConcat(a: seq<Row>, b: seq<Row>, c: nat, q: Request)
    ensures Present(a + b, c, q) <==> Present(a, c, q) || Present(b, c, q)
  {
    CountsPresent(a + b, c, q);
    CountsPresent(a, c, q);
    CountsPresent(b, c, q);
    FilterConcat(a, b, Matches(c, q));
  }

  lemma {:induction false} ActivateKeepsKeys(rows: seq<Row>, cycle: nat, c: nat, q: Request)
    ensures Filter(Activate(rows, cycle), Matches(c, q)) == Filter(rows, Matches(c, q))
  {
    if rows != [] {
      var n := |rows| - 1;
      ActivateKeepsKeys(rows[..n], cycle, c, q);
      assert Activate(rows, cycle)[..n] == Activate(rows[..n], cycle);
      assert Activate(rows, cycle)[n] == Activated(rows[n], cycle);
    }
  }

  /** The new table holds the old assignments and the requested ones, and no others. */
  lemma TableIsUnion(rows: seq<Row>, cycle: nat, requests: seq<Request>, c: nat, q: Request)
    ensures Present(After(rows, cycle, requests), c, q) <==> Present(rows, c, q) || (c == cycle && q in requests)
  {
    PresentConcat(Activate(rows, cycle), Additions(rows, cycle, requests), c, q);
    ActivateKeepsKeys(rows, cycle, c, q);
    CountsPresent(Activate(rows, cycle), c, q);
    CountsPresent(rows, c, q);
    AddedExactly(rows, cycle, requests, c, q);
  }

  /** Requests that repeat are already answered. */
  ghost predicate NewOnesDistinct(rows: seq<Row>, cycle: nat, requests: seq<Request>) {
    forall i, j :: 0 <= i < j < |requests| && requests[i] == requests[j] ==> Count(rows, cycle, requests[j]) > 0
  }

  lemma DuplicateFreeAppend(rows: seq<Row>, r: Row)
    requires r.Assignment?
    ensures DuplicateFree(rows + [r]) <==> DuplicateFree(rows) && !Present(rows, r.cycle, r.request)
  {
    var all := rows + [r];
    assert forall i :: 0 <= i < |rows| ==> all[i] == rows[i];
    if DuplicateFree(all) {
      assert forall i :: 0 <= i < |rows| ==> !Twins(all[i], all[|rows|]);
    }
  }

  lemma {:induction false} DuplicateFreeAdditions(rows: seq<Row>, base: seq<Row>, cycle: nat, requests: seq<Request>)
    requires forall q :: Present(base, cycle, q) <==> Present(rows, cycle, q)
    ensures DuplicateFree(base + Additions(rows, cycle, requests)) <==>
      DuplicateFree(base) && NewOnesDistinct(rows, cycle, requests)
  {
    if requests == [] {
      assert base + [] == base;
    } else {
      var n := |requests| - 1;
      var q := requests[n];
      var before := Additions(rows, cycle, requests[..n]);
      DuplicateFreeAdditions(rows, base, cycle, requests[..n]);
      CountsPresent(rows, cycle, q);
      NewOnesNext(rows, cycle, requests);
      AdditionsLast(rows, cycle, requests);
      if Count(rows, cycle, q) == 0 {
        var r := Assignment(cycle, q, CompanyOf(rows, cycle), false);
        assert base + (before + [r]) == (base + before) + [r];
        DuplicateFreeAppend(base + before, r);
        PresentConcat(base, before, cycle, q);
        AddedExactly(rows, cycle, requests[..n], cycle, q);
      }
    }
  }

  lemma NewOnesNext(rows: seq<Row>, cycle: nat, requests: seq<Request>)
    requires requests != []
    ensures var n := |requests| - 1;
      NewOnesDistinct(rows, cycle, requests) <==>
      NewOnesDistinct(rows, cycle, requests[..n]) &&
      (requests[n] in requests[..n] ==> Count(rows, cycle, requests[n]) > 0)
  {
    var n := |requests| - 1;
    var init := requests[..n];
    assert forall i :: 0 <= i < n ==> init[i] == requests[i];
    if NewOnesDistinct(rows, cycle, init) && !NewOnesDistinct(rows, cycle, requests) {
      var i, j :| 0 <= i < j < |requests| && requests[i] == requests[j] && Count(rows, cycle, requests[j]) == 0;
      assert j == n && init[i] == requests[n];
    }
  }

  lemma ActivateKeepsTwins(rows: seq<Row>, cycle: nat)
    ensures DuplicateFree(Activate(rows, cycle)) <==> DuplicateFree(rows)
  {
    var now := Activate(rows, cycle);
    forall i, j | 0 <= i < j < |rows| ensures Twins(now[i], now[j]) == Twins(rows[i], rows[j]) {
      assert now[i] == Activated(rows[i], cycle) && now[j] == Activated(rows[j], cycle);
    }
  }

  /** A start keeps the table free of duplicates exactly when every repeated request was already answered. */
  lemma DuplicateFreeExactly(rows: seq<Row>, cycle: nat, requests: seq<Request>)
    ensures DuplicateFree(After(rows, cycle, requests)) <==>
      DuplicateFree(rows) && NewOnesDistinct(rows, cycle, requests)
  {
    var base := Activate(rows, cycle);
    forall q ensures Present(base, cycle, q) <==> Present(rows, cycle, q) {
      ActivateKeepsKeys(rows, cycle, cycle, q);
      CountsPresent(base, cycle, q);
      CountsPresent(rows, cycle, q);
    }
    DuplicateFreeAdditions(rows, base, cycle, requests);
    ActivateKeepsTwins(rows, cycle);
  }

  /** The same start again adds nothing. */
  lemma {:induction false} AgainAddsNothing(rows: seq<Row>, cycle: nat, requests: seq<Request>)
    requires forall k :: 0 <= k < |requests| ==> Count(rows, cycle, requests[k]) > 0
    ensures Additions(rows, cycle, requests) == []
  {
    if requests != [] {
      AgainAddsNothing(rows, cycle, requests[..|requests| - 1]);
    }
  }

  lemma SecondStartAddsNothing(rows: seq<Row>, cycle: nat, requests: seq<Request>)
    ensures var once := After(rows, cycle, requests);
      After(once, cycle, requests) == Activate(once, cycle) && Activate(once, cycle) == once
  {
    var once := After(rows, cycle, requests);
    forall k | 0 <= k < |requests| ensures Count(once, cycle, requests[k]) > 0 {
      TableIsUnion(rows, cycle, requests, cycle, requests[k]);
      CountsPresent(once, cycle, requests[k]);
    }
    AgainAddsNothing(once, cycle, requests);
    OnlyAssignmentsAdded(rows, cycle, requests);
    forall i | 0 <= i < |once| ensures Activated(once[i], cycle) == once[i] {
      assert i < |rows| ==> once[i] == Activated(rows[i], cycle);
    }
  }

  lemma {:induction false} OnlyAssignmentsAdded(rows: seq<Row>, cycle: nat, requests: seq<Request>)
    ensures forall i :: 0 <= i < |Additions(rows, cycle, requests)| ==> Additions(rows, cycle, requests)[i].Assignment?
  {
    if requests != [] {
      OnlyAssignmentsAdded(rows, cycle, requests[..|requests| - 1]);
    }
  }

  lemma {:induction false} SingleCounts(rows: seq<Row>, cycle: nat, q: Request)
    requires DuplicateFree(rows)
    ensures Count(rows, cycle, q) <= 1
  {
    FilterCounts(rows, Matches(cycle, q));
    if exists i :: 0 <= i < |rows| && Matches(cycle, q)(rows[i]) {
      var i :| 0 <= i < |rows| && Matches(cycle, q)(rows[i]);
      assert OnlyAt(rows, Matches(cycle, q), i) by {
        forall k | 0 <= k < |rows| && k != i ensures !Matches(cycle, q)(rows[k]) {
          assert !Twins(rows[i], rows[k]) || !Twins(rows[k], rows[i]);
        }
      }
    }
  }

  /** Doubled assignments are not repaired: the second start then raises, and only then. */
  lemma SecondStartRaisesExactly(rows: seq<Row>, cycle: nat, requests: seq<Request>)
    requires DuplicateFree(rows)
    ensures Checkable(After(rows, cycle, requests), cycle, requests) <==> NewOnesDistinct(rows, cycle, requests)
  {
    var once := After(rows, cycle, requests);
    DuplicateFreeExactly(rows, cycle, requests);
    if NewOnesDistinct(rows, cycle, requests) {
      forall k | 0 <= k < |requests| ensures Count(once, cycle, requests[k]) <= 1 {
        SingleCounts(once, cycle, requests[k]);
      }
    } else {
      var i, j :| 0 <= i < j < |requests| && requests[i] == requests[j] && Count(rows, cycle, requests[j]) == 0;
      DoubledRequest(rows, cycle, requests, i, j);
    }
  }

  /** A new request made twice is added twice. */
  lemma {:induction false} DoubledRequest(rows: seq<Row>, cycle: nat, requests: seq<Request>, i: nat, j: nat)
    requires i < j < |requests| && requests[i] == requests[j] && Count(rows, cycle, requests[j]) == 0
    ensures Count(After(rows, cycle, requests), cycle, requests[j]) > 1
  {
    var q := requests[j];
    AddedOften(rows, cycle, requests, q);
    FilterConcat(Activate(rows, cycle), Additions(rows, cycle, requests), Matches(cycle, q));
    Occurrences(requests, q, i, j);
  }

  function Equals(q: Request): Request -> bool {
    (r: Request) => r == q
  }

  lemma {:induction false} AddedOften(rows: seq<Row>, cycle: nat, requests: seq<Request>, q: Request)
    requires Count(rows, cycle, q) == 0
    ensures Count(Additions(rows, cycle, requests), cycle, q) == |Filter(requests, Equals(q))|
  {
    if requests != [] {
      var n := |requests| - 1;
      AddedOften(rows, cycle, requests[..n], q);
      var r := Assignment(cycle, requests[n], CompanyOf(rows, cycle), false);
      var before := Additions(rows, cycle, requests[..n]);
      AdditionsLast(rows, cycle, requests);
      assert (before + [r])[..|before|] == before;
    }
  }

  lemma Occurrences(requests: seq<Request>, q: Request, i: nat, j: nat)
    requires i < j < |requests| && requests[i] == requests[j] == q
    ensures |Filter(requests, Equals(q))| > 1
  {
    FilterCounts(requests, Equals(q));
    assert Equals(q)(requests[i]) && Equals(q)(requests[j]);
    assert forall k :: !OnlyAt(requests, Equals(q), k);
  }

  // ---------------------------------------------------------------- when the requests are distinct

  ghost predicate Distinct(requests: seq<Request>) {
    forall i, j :: 0 <= i < j < |requests| ==> requests[i] != requests[j]
  }

  /** The configured raters of a ratee repeat neither each other nor the self or the manager assignment. */
  ghost predicate RatersFit(staff: Staff, ratee: nat)
    requires ratee in staff.managers
  {
    var maps := Filter(staff.raters, RatersOf(ratee));
    && (forall i, j :: 0 <= i < j < |maps| ==> maps[i].rater != maps[j].rater || maps[i].relation != maps[j].relation)
    && (forall i :: 0 <= i < |maps| ==>
         !(maps[i].rater == ratee && maps[i].relation == Self) &&
         !(staff.managers[ratee] == Some(maps[i].rater) && maps[i].relation == Manager))
  }

  lemma DistinctConcat(a: seq<Request>, b: seq<Request>)
    ensures Distinct(a + b) <==>
      Distinct(a) && Distinct(b) && forall i, j :: 0 <= i < |a| && 0 <= j < |b| ==> a[i] != b[j]
  {
    var ab := a + b;
    assert forall i :: 0 <= i < |a| ==> ab[i] == a[i];
    assert forall j :: 0 <= j < |b| ==> ab[|a| + j] == b[j];
    if Distinct(ab) {
      forall i, j | 0 <= i < |a| && 0 <= j < |b| ensures a[i] != b[j] {
        assert ab[i] != ab[|a| + j];
      }
      forall i, j | 0 <= i < j < |b| ensures b[i] != b[j] {
        assert ab[|a| + i] != ab[|a| + j];
      }
    }
  }

  lemma MappedDistinct(staff: Staff, ratee: nat)
    ensures var maps := Filter(staff.raters, RatersOf(ratee)); var mapped := MappedRequests(maps);
      && (forall i :: 0 <= i < |maps| ==> mapped[i] == Request(ratee, maps[i].rater, maps[i].relation))
      && (Distinct(mapped) <==> forall i, j :: 0 <= i < j < |maps| ==>
           maps[i].rater != maps[j].rater || maps[i].relation != maps[j].relation)
  {
    FilterSatisfies(staff.raters, RatersOf(ratee));
    var maps := Filter(staff.raters, RatersOf(ratee));
    var mapped := MappedRequests(maps);
    assert forall i :: 0 <= i < |maps| ==>
      maps[i].employee == ratee && mapped[i] == Request(ratee, maps[i].rater, maps[i].relation);
    if Distinct(mapped) {
      forall i, j | 0 <= i < j < |maps| ensures maps[i].rater != maps[j].rater || maps[i].relation != maps[j].relation {
        assert mapped[i] != mapped[j];
      }
    }
  }

  lemma DistinctForOne(staff: Staff, ratee: nat)
    requires ratee in staff.managers
    ensures Distinct(RequestsFor(staff, ratee)) <==> RatersFit(staff, ratee)
  {
    var own := OwnRequests(ratee, staff.managers[ratee]);
    var maps := Filter(staff.raters, RatersOf(ratee));
    MappedDistinct(staff, ratee);
    DistinctConcat(own, MappedRequests(maps));
    var mapped := MappedRequests(maps);
    assert own[0] == Request(ratee, ratee, Self);
    assert Distinct(own);
    if forall i, j :: 0 <= i < |own| && 0 <= j < |mapped| ==> own[i] != mapped[j] {
      forall j | 0 <= j < |maps|
        ensures !(maps[j].rater == ratee && maps[j].relation == Self)
        ensures !(staff.managers[ratee] == Some(maps[j].rater) && maps[j].relation == Manager)
      {
        assert own[0] != mapped[j];
        assert |own| > 1 ==> own[1] != mapped[j];
      }
    }
  }

  lemma {:induction false} RequestsMention(staff: Staff, ratees: seq<nat>)
    ensures forall q :: q in Requests(staff, ratees) ==> q.ratee in ratees && q.ratee in staff.managers
    ensures forall r :: r in ratees && r in staff.managers ==> Request(r, r, Self) in Requests(staff, ratees)
  {
    if ratees != [] {
      var n := |ratees| - 1;
      RequestsMention(staff, ratees[..n]);
      OneMentions(staff, ratees[n]);
      assert ratees == ratees[..n] + [ratees[n]];
    }
  }

  lemma OneMentions(staff: Staff, ratee: nat)
    ensures forall q :: q in RequestsFor(staff, ratee) ==> q.ratee == ratee && ratee in staff.managers
    ensures ratee in staff.managers ==> Request(ratee, ratee, Self) in RequestsFor(staff, ratee)
  {
    MappedDistinct(staff, ratee);
    if ratee in staff.managers {
      assert RequestsFor(staff, ratee)[0] == Request(ratee, ratee, Self);
    }
  }

  /** What a caller can check: no known ratee is named twice, and the raters of each known ratee fit. */
  ghost predicate Fit(staff: Staff, ratees: seq<nat>) {
    && (forall i, j :: 0 <= i < j < |ratees| && ratees[i] in staff.managers ==> ratees[i] != ratees[j])
    && (forall i :: 0 <= i < |ratees| && ratees[i] in staff.managers ==> RatersFit(staff, ratees[i]))
  }

  lemma FitNext(staff: Staff, ratees: seq<nat>)
    requires ratees != []
    ensures var init, last := ratees[..|ratees| - 1], ratees[|ratees| - 1];
      Fit(staff, ratees) <==> Fit(staff, init) && (last in staff.managers ==> last !in init && RatersFit(staff, last))
  {
    var n := |ratees| - 1;
    var init := ratees[..n];
    assert forall i :: 0 <= i < n ==> init[i] == ratees[i];
  }

  lemma RequestsNext(staff: Staff, init: seq<nat>, last: nat)
    ensures Distinct(Requests(staff, init) + RequestsFor(staff, last)) <==>
      Distinct(Requests(staff, init)) && (last in staff.managers ==> last !in init && RatersFit(staff, last))
  {
    var before, one := Requests(staff, init), RequestsFor(staff, last);
    RequestsMention(staff, init);
    OneMentions(staff, last);
    DistinctConcat(before, one);
    if last in staff.managers {
      DistinctForOne(staff, last);
      if last in init {
        assert Request(last, last, Self) in before && Request(last, last, Self) in one;
      }
    }
  }

  lemma {:induction false} RequestsDistinctExactly(staff: Staff, ratees: seq<nat>)
    ensures Distinct(Requests(staff, ratees)) <==> Fit(staff, ratees)
  {
    if ratees != [] {
      var n := |ratees| - 1;
      RequestsDistinctExactly(staff, ratees[..n]);
      RequestsNext(staff, ratees[..n], ratees[n]);
      FitNext(staff, ratees);
    }
  }

  /** A ratee named twice is assigned twice: the check does not see the rows that wait to be flushed. */
  lemma TwiceNamedIsDoubled(cycle: nat, company: nat, staff: Staff, ratee: nat)
    requires ratee in staff.managers
    ensures !DuplicateFree(After([Cycle(cycle, company, false)], cycle, Requests(staff, [ratee, ratee])))
  {
    var rows := [Cycle(cycle, company, false)];
    assert forall q :: Filter(rows, Matches(cycle, q)) == [] by {
      forall q ensures Filter(rows, Matches(cycle, q)) == [] {
        FilterCounts(rows, Matches(cycle, q));
      }
    }
    FirstStartExactly(rows, cycle, staff, [ratee, ratee]);
    assert [ratee, ratee][0] == [ratee, ratee][1];
  }

  /**
   * On a table without rows of this cycle, a start keeps the table free of duplicates exactly when the ratees
   * and their raters fit.
   */
  lemma FirstStartExactly(rows: seq<Row>, cycle: nat, staff: Staff, ratees: seq<nat>)
    requires DuplicateFree(rows) && forall q :: Count(rows, cycle, q) == 0
    ensures DuplicateFree(After(rows, cycle, Requests(staff, ratees))) <==> Fit(staff, ratees)
  {
    DuplicateFreeExactly(rows, cycle, Requests(staff, ratees));
    RequestsDistinctExactly(staff, ratees);
  }

  // ---------------------------------------------------------------- the rows themselves

  /** Who is asked about whom: each known ratee itself, its manager, and its configured raters. */
  ghost predicate Asked(staff: Staff, q: Request) {
    && q.ratee in staff.managers
    && (|| q == Request(q.ratee, q.ratee, Self)
        || (staff.managers[q.ratee] == Some(q.rater) && q.relation == Manager)
        || RaterMap(q.ratee, q.rater, q.relation) in staff.raters)
  }

  lemma MappedSpelled(staff: Staff, ratee: nat, q: Request)
    ensures q in MappedRequests(Filter(staff.raters, RatersOf(ratee)))
       <==> q.ratee == ratee && RaterMap(q.ratee, q.rater, q.relation) in staff.raters
  {
    var maps := Filter(staff.raters, RatersOf(ratee));
    var m := RaterMap(q.ratee, q.rater, q.relation);
    FilterMember(staff.raters, RatersOf(ratee), m);
    if q in MappedRequests(maps) {
      var i :| 0 <= i < |maps| && MappedRequests(maps)[i] == q;
      assert maps[i] == m;
    }
    if m in maps {
      var i :| 0 <= i < |maps| && maps[i] == m;
      assert MappedRequests(maps)[i] == q;
    }
  }

  lemma RequestsForSpelled(staff: Staff, ratee: nat, q: Request)
    ensures q in RequestsFor(staff, ratee) <==> q.ratee == ratee && Asked(staff, q)
  {
    MappedSpelled(staff, ratee, q);
  }

  lemma InInitOrLast(ratees: seq<nat>, x: nat)
    requires ratees != []
    ensures x in ratees <==> x in ratees[..|ratees| - 1] || x == ratees[|ratees| - 1]
  {
    var n := |ratees| - 1;
    assert ratees == ratees[..n] + [ratees[n]];
  }

  /** The requests of a start are those about the named ratees. */
  lemma {:induction false} RequestsSpelled(staff: Staff, ratees: seq<nat>, q: Request)
    ensures q in Requests(staff, ratees) <==> q.ratee in ratees && Asked(staff, q)
  {
    if ratees != [] {
      var n := |ratees| - 1;
      RequestsSpelled(staff, ratees[..n], q);
      RequestsForSpelled(staff, ratees[n], q);
      InInitOrLast(ratees, q.ratee);
    }
  }

  /** The cycle is in the table, and under this company only. */
  ghost predicate OwnedBy(rows: seq<Row>, cycle: nat, company: nat) {
    && (exists i :: 0 <= i < |rows| && rows[i].Cycle? && rows[i].id == cycle)
    && forall i :: 0 <= i < |rows| && rows[i].Cycle? && rows[i].id == cycle ==> rows[i].company == company
  }

  /** The select for a cycle finds none if and only if there is none, and else gives the company it is under. */
  lemma CompanyExactly(rows: seq<Row>, cycle: nat, company: nat)
    ensures CompanyOf(rows, cycle).None? <==> forall i :: 0 <= i < |rows| && rows[i].Cycle? ==> rows[i].id != cycle
    ensures OwnedBy(rows, cycle, company) ==> CompanyOf(rows, cycle) == Some(company)
  {
    FilterSatisfies(rows, IsCycle(cycle));
    FilterCounts(rows, IsCycle(cycle));
  }

  lemma {:induction false} AddedRows(rows: seq<Row>, cycle: nat, requests: seq<Request>, i: nat)
    requires i < |Additions(rows, cycle, requests)|
    ensures exists q :: q in requests && Additions(rows, cycle, requests)[i]
                                      == Assignment(cycle, q, CompanyOf(rows, cycle), false)
  {
    var n := |requests| - 1;
    var before := Additions(rows, cycle, requests[..n]);
    AdditionsLast(rows, cycle, requests);
    if i < |before| {
      AddedRows(rows, cycle, requests[..n], i);
    } else {
      assert requests[n] in requests;
    }
  }

  /**
   * The table after a start, row by row: the cycle is active, every other row is as it was, and each new row is an
   * uncompleted assignment of the cycle, under its company, about a named ratee.
   */
  lemma RowsAfterStart(rows: seq<Row>, cycle: nat, company: nat, staff: Staff, ratees: seq<nat>, i: nat)
    requires OwnedBy(rows, cycle, company) && i < |After(rows, cycle, Requests(staff, ratees))|
    ensures var row := After(rows, cycle, Requests(staff, ratees))[i];
      if i < |rows| then
        if rows[i].Cycle? && rows[i].id == cycle then row == Cycle(cycle, company, true) else row == rows[i]
      else
        exists q: Request :: q.ratee in ratees && Asked(staff, q) && row == Assignment(cycle, q, Some(company), false)
  {
    CompanyExactly(rows, cycle, company);
    if i >= |rows| {
      AddedRows(rows, cycle, Requests(staff, ratees), i - |rows|);
      var q :| q in Requests(staff, ratees) && After(rows, cycle, Requests(staff, ratees))[i]
                                            == Assignment(cycle, q, CompanyOf(rows, cycle), false);
      RequestsSpelled(staff, ratees, q);
    }
  }
}
