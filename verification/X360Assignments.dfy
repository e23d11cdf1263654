/** Starting a 360-degree assessment cycle: its assignments are created in one transaction without autoflush. */
module X360Assignments {
  import opened PyText
  import opened Sequences
  import opened Sessions
  import opened X360Relations

  datatype Row =
    | Cycle(id: nat, company: nat, active: bool)
    | Assignment(cycle: nat, request: Request, owner: Option<nat>, completed: bool)

  datatype Request = Request(ratee: nat, rater: nat, relation: Relation)

  /** A configured rater of an employee. */
  datatype RaterMap = RaterMap(employee: nat, rater: nat, relation: Relation)

  /** The employees, each with its manager if there is one, and the configured raters. */
  datatype Staff = Staff(managers: map<nat, Option<nat>>, raters: seq<RaterMap>)

  // ---------------------------------------------------------------- what is requested

  function RatersOf(employee: nat): RaterMap -> bool {
    (m: RaterMap) => m.employee == employee
  }

  function MappedRequests(maps: seq<RaterMap>): seq<Request> {
    seq(|maps|, i requires 0 <= i < |maps| => Request(maps[i].employee, maps[i].rater, maps[i].relation))
  }

  function OwnRequests(ratee: nat, manager: Option<nat>): seq<Request> {
    [Request(ratee, ratee, Self)] + (if manager.Some? then [Request(ratee, manager.value, Manager)] else [])
  }

  /** The ratee, its manager, then its configured raters; nothing for an unknown ratee. */
  function RequestsFor(staff: Staff, ratee: nat): seq<Request> {
    if ratee !in staff.managers then []
    else OwnRequests(ratee, staff.managers[ratee]) + MappedRequests(Filter(staff.raters, RatersOf(ratee)))
  }

  function Requests(staff: Staff, ratees: seq<nat>): seq<Request> {
    if ratees == [] then []
    else Requests(staff, ratees[..|ratees| - 1]) + RequestsFor(staff, ratees[|ratees| - 1])
  }

  function RequestsUpTo(staff: Staff, ratees: seq<nat>, i: nat): seq<Request>
    requires i <= |ratees|
  {
    Requests(staff, ratees[..i])
  }

  // ---------------------------------------------------------------- what is added

  function Matches(cycle: nat, request: Request): Row -> bool {
    (r: Row) => r.Assignment? && r.cycle == cycle && r.request == request
  }

  function Count(rows: seq<Row>, cycle: nat, request: Request): nat {
    |Filter(rows, Matches(cycle, request))|
  }

  function IsCycle(cycle: nat): Row -> bool {
    (r: Row) => r.Cycle? && r.id == cycle
  }

  /** The company that a select for the cycle yields. */
  function CompanyOf(rows: seq<Row>, cycle: nat): Option<nat> {
    var found := Filter(rows, IsCycle(cycle));
    FilterSatisfies(rows, IsCycle(cycle));
    if found == [] then None else Some(found[0].company)
  }

  /** One pending assignment for each request that has none among the flushed rows. */
  function Additions(flushed: seq<Row>, cycle: nat, requests: seq<Request>): seq<Row> {
    if requests == [] then []
    else
      var n := |requests| - 1;
      Additions(flushed, cycle, requests[..n]) +
      (if Count(flushed, cycle, requests[n]) > 0 then []
       else [Assignment(cycle, requests[n], CompanyOf(flushed, cycle), false)])
  }

  /** No check finds two rows; a check that does raises. */
  ghost predicate Checkable(flushed: seq<Row>, cycle: nat, requests: seq<Request>) {
    forall k :: 0 <= k < |requests| ==> Count(flushed, cycle, requests[k]) <= 1
  }

  function Activated(r: Row, cycle: nat): Row {
    if r.Cycle? && r.id == cycle then Cycle(cycle, r.company, true) else r
  }

  function Activate(rows: seq<Row>, cycle: nat): seq<Row> {
    seq(|rows|, i requires 0 <= i < |rows| => Activated(rows[i], cycle))
  }

  lemma {:induction false} AdditionsConcat(flushed: seq<Row>, cycle: nat, a: seq<Request>, b: seq<Request>)
    ensures Additions(flushed, cycle, a + b) == Additions(flushed, cycle, a) + Additions(flushed, cycle, b)
  {
    if b == [] {
      assert a + b == a;
    } else {
      var n := |b| - 1;
      assert (a + b)[..|a + b| - 1] == a + b[..n];
      AdditionsConcat(flushed, cycle, a, b[..n]);
      AdditionsLast(flushed, cycle, a + b);
      AdditionsLast(flushed, cycle, b);
    }
  }

  lemma AdditionsLast(flushed: seq<Row>, cycle: nat, requests: seq<Request>)
    requires requests != []
    ensures var n := |requests| - 1;
      var before := Additions(flushed, cycle, requests[..n]);
      Additions(flushed, cycle, requests) ==
        if Count(flushed, cycle, requests[n]) > 0 then before
        else before + [Assignment(cycle, requests[n], CompanyOf(flushed, cycle), false)]
  {
    var before := Additions(flushed, cycle, requests[..|requests| - 1]);
    assert before + [] == before;
  }

  lemma CheckableConcat(flushed: seq<Row>, cycle: nat, a: seq<Request>, b: seq<Request>)
    ensures Checkable(flushed, cycle, a + b) <==> Checkable(flushed, cycle, a) && Checkable(flushed, cycle, b)
  {
    assert forall k :: 0 <= k < |b| ==> (a + b)[|a| + k] == b[k];
    assert forall k :: 0 <= k < |a| ==> (a + b)[k] == a[k];
  }

  lemma AdditionsNext(flushed: seq<Row>, cycle: nat, requests: seq<Request>, i: nat)
    requires i < |requests|
    ensures var one := [requests[i]];
      && Additions(flushed, cycle, requests[..i + 1]) ==
           Additions(flushed, cycle, requests[..i]) + Additions(flushed, cycle, one)
      && (Checkable(flushed, cycle, requests[..i + 1]) <==>
           Checkable(flushed, cycle, requests[..i]) && Checkable(flushed, cycle, one))
      && (Checkable(flushed, cycle, requests) ==> Checkable(flushed, cycle, one))
  {
    AdditionsConcat(flushed, cycle, requests[..i], [requests[i]]);
    CheckableConcat(flushed, cycle, requests[..i], [requests[i]]);
    assert requests[..i + 1] == requests[..i] + [requests[i]];
  }

  // ---------------------------------------------------------------- the operations

  /** Each step succeeds exactly when every call is answered and no check raises. */
  method CreateAssignment(session: Session<Row>, cycle: nat, request: Request) returns (ok: bool)
    modifies session`calls, session`pending
    ensures session.calls >= old(session.calls)
    ensures ok == (Answers(session.fails, old(session.calls), session.calls) &&
                   Checkable(session.flushed, cycle, [request]))
    ensures ok ==> session.pending == old(session.pending) + Additions(session.flushed, cycle, [request])
  {
    assert [request][..0] == [];
    ok := session.Call();
    if !ok {
      return;
    }
    var found := Filter(session.flushed, Matches(cycle, request));
    if |found| > 1 {
      assert Count(session.flushed, cycle, [request][0]) > 1;
      return false;
    }
    if |found| == 1 {
      return true;
    }
    ok := session.Call();
    if ok {
      session.Add(Assignment(cycle, request, CompanyOf(session.flushed, cycle), false));
    }
  }

  method AssignOwn(session: Session<Row>, cycle: nat, ratee: nat, manager: Option<nat>) returns (ok: bool)
    modifies session`calls, session`pending
    ensures session.calls >= old(session.calls)
    ensures ok == (Answers(session.fails, old(session.calls), session.calls) &&
                   Checkable(session.flushed, cycle, OwnRequests(ratee, manager)))
    ensures ok ==>
      session.pending == old(session.pending) + Additions(session.flushed, cycle, OwnRequests(ratee, manager))
  {
    var self := Request(ratee, ratee, Self);
    ok := CreateAssignment(session, cycle, self);
    if manager.None? {
      assert OwnRequests(ratee, manager) == [self];
      return;
    }
    var other := Request(ratee, manager.value, Manager);
    AdditionsConcat(session.flushed, cycle, [self], [other]);
    CheckableConcat(session.flushed, cycle, [self], [other]);
    if ok {
      ok := CreateAssignment(session, cycle, other);
    }
  }

  method AssignMapped(session: Session<Row>, cycle: nat, maps: seq<RaterMap>) returns (ok: bool)
    modifies session`calls, session`pending
    ensures session.calls >= old(session.calls)
    ensures ok == (Answers(session.fails, old(session.calls), session.calls) &&
                   Checkable(session.flushed, cycle, MappedRequests(maps)))
    ensures ok ==> session.pending == old(session.pending) + Additions(session.flushed, cycle, MappedRequests(maps))
  {
    var requests := MappedRequests(maps);
    ok := true;
    for i := 0 to |maps|
      invariant session.calls >= old(session.calls)
      invariant ok && Answers(session.fails, old(session.calls), session.calls)
      invariant Checkable(session.flushed, cycle, requests[..i])
      invariant session.pending == old(session.pending) + Additions(session.flushed, cycle, requests[..i])
    {
      ok := CreateAssignment(session, cycle, Request(maps[i].employee, maps[i].rater, maps[i].relation));
      AdditionsNext(session.flushed, cycle, requests, i);
      if !ok {
        return;
      }
    }
    assert requests[..|maps|] == requests;
  }

  method AssignRatee(session: Session<Row>, staff: Staff, cycle: nat, ratee: nat) returns (ok: bool)
    modifies session`calls, session`pending
    ensures session.calls >= old(session.calls)
    ensures ok == (Answers(session.fails, old(session.calls), session.calls) &&
                   Checkable(session.flushed, cycle, RequestsFor(staff, ratee)))
    ensures ok ==>
      session.pending == old(session.pending) + Additions(session.flushed, cycle, RequestsFor(staff, ratee))
  {
    ok := session.Call();
    if !ok || ratee !in staff.managers {
      return;
    }
    var maps := Filter(staff.raters, RatersOf(ratee));
    ok := AssignKnown(session, cycle, ratee, staff.managers[ratee], maps, RequestsFor(staff, ratee));
  }

  /** A ratee that was found. */
  method AssignKnown(session: Session<Row>, cycle: nat, ratee: nat, manager: Option<nat>, maps: seq<RaterMap>,
                     ghost requests: seq<Request>)
    returns (ok: bool)
    requires requests == OwnRequests(ratee, manager) + MappedRequests(maps)
    modifies session`calls, session`pending
    ensures session.calls >= old(session.calls)
    ensures ok == (Answers(session.fails, old(session.calls), session.calls) &&
                   Checkable(session.flushed, cycle, requests))
    ensures ok ==> session.pending == old(session.pending) + Additions(session.flushed, cycle, requests)
  {
    TwoParts(session.flushed, cycle, OwnRequests(ratee, manager), MappedRequests(maps), requests, session.pending);
    ok := AssignThenFetch(session, cycle, ratee, manager);
    if ok {
      ok := AssignMapped(session, cycle, maps);
    }
  }

  /** The ratee's own assignments, and the select for its configured raters. */
  method AssignThenFetch(session: Session<Row>, cycle: nat, ratee: nat, manager: Option<nat>) returns (ok: bool)
    modifies session`calls, session`pending
    ensures session.calls >= old(session.calls)
    ensures ok == (Answers(session.fails, old(session.calls), session.calls) &&
                   Checkable(session.flushed, cycle, OwnRequests(ratee, manager)))
    ensures ok ==>
      session.pending == old(session.pending) + Additions(session.flushed, cycle, OwnRequests(ratee, manager))
  {
    ok := AssignOwn(session, cycle, ratee, manager);
    if ok {
      ok := session.Call();
    }
  }

  lemma TwoParts(flushed: seq<Row>, cycle: nat, own: seq<Request>, mapped: seq<Request>, all: seq<Request>,
                 pending: seq<Row>)
    requires all == own + mapped
    ensures pending + Additions(flushed, cycle, own) + Additions(flushed, cycle, mapped)
         == pending + Additions(flushed, cycle, all)
    ensures Checkable(flushed, cycle, all) <==> Checkable(flushed, cycle, own) && Checkable(flushed, cycle, mapped)
  {
    AdditionsConcat(flushed, cycle, own, mapped);
    CheckableConcat(flushed, cycle, own, mapped);
  }

  /** The loop over the ratees. */
  method AssignAll(session: Session<Row>, staff: Staff, cycle: nat, ratees: seq<nat>) returns (ok: bool)
    modifies session`calls, session`pending
    ensures session.calls >= old(session.calls)
    ensures ok == (Answers(session.fails, old(session.calls), session.calls) &&
                   Checkable(session.flushed, cycle, Requests(staff, ratees)))
    ensures ok ==>
      session.pending == old(session.pending) + Additions(session.flushed, cycle, Requests(staff, ratees))
  {
    ok := true;
    for i := 0 to |ratees|
      invariant session.calls >= old(session.calls)
      invariant ok && Answers(session.fails, old(session.calls), session.calls)
      invariant Checkable(session.flushed, cycle, RequestsUpTo(staff, ratees, i))
      invariant session.pending ==
        old(session.pending) + Additions(session.flushed, cycle, RequestsUpTo(staff, ratees, i))
    {
      ok := AssignRatee(session, staff, cycle, ratees[i]);
      RateeNext(session.flushed, cycle, staff, ratees, i);
      if !ok {
        return;
      }
      ConcatAssociates(session.pending, old(session.pending),
                       Additions(session.flushed, cycle, RequestsUpTo(staff, ratees, i)),
                       Additions(session.flushed, cycle, RequestsFor(staff, ratees[i])),
                       Additions(session.flushed, cycle, RequestsUpTo(staff, ratees, i + 1)));
    }
    assert RequestsUpTo(staff, ratees, |ratees|) == Requests(staff, ratees) by {
      assert ratees[..|ratees|] == ratees;
    }
  }

  lemma {:induction false} CheckablePrefix(flushed: seq<Row>, cycle: nat, staff: Staff, ratees: seq<nat>, i: nat)
    requires i <= |ratees|
    ensures Checkable(flushed, cycle, Requests(staff, ratees)) ==>
      Checkable(flushed, cycle, Requests(staff, ratees[..i]))
    decreases |ratees|
  {
    if i == |ratees| {
      assert ratees[..i] == ratees;
    } else {
      var n := |ratees| - 1;
      AdditionsConcat(flushed, cycle, Requests(staff, ratees[..n]), RequestsFor(staff, ratees[n]));
      CheckableConcat(flushed, cycle, Requests(staff, ratees[..n]), RequestsFor(staff, ratees[n]));
      CheckablePrefix(flushed, cycle, staff, ratees[..n], i);
      assert ratees[..n][..i] == ratees[..i];
    }
  }

  lemma RateeNext(flushed: seq<Row>, cycle: nat, staff: Staff, ratees: seq<nat>, i: nat)
    requires i < |ratees|
    ensures var before, one := RequestsUpTo(staff, ratees, i), RequestsFor(staff, ratees[i]);
      var after := RequestsUpTo(staff, ratees, i + 1);
      && Additions(flushed, cycle, after) == Additions(flushed, cycle, before) + Additions(flushed, cycle, one)
      && (Checkable(flushed, cycle, after) <==> Checkable(flushed, cycle, before) && Checkable(flushed, cycle, one))
      && (Checkable(flushed, cycle, Requests(staff, ratees)) ==> Checkable(flushed, cycle, one))
  {
    assert ratees[..i + 1][..i] == ratees[..i];
    AdditionsConcat(flushed, cycle, Requests(staff, ratees[..i]), RequestsFor(staff, ratees[i]));
    CheckableConcat(flushed, cycle, Requests(staff, ratees[..i]), RequestsFor(staff, ratees[i]));
    CheckablePrefix(flushed, cycle, staff, ratees, i + 1);
  }

  datatype Outcome = Started | NoCycle | Raised

  /** A raised error ends the session, which rolls back. */
  method StartCycle(session: Session<Row>, staff: Staff, cycle: nat, ratees: seq<nat>) returns (r: Outcome)
    modifies session
    ensures session.calls >= old(session.calls)
    ensures !r.Raised? == (
      Answers(session.fails, old(session.calls), session.calls) &&
      (CompanyOf(old(session.flushed), cycle).Some? ==>
        Checkable(old(session.flushed), cycle, Requests(staff, ratees))))
    ensures !r.Raised? ==> (r.NoCycle? <==> CompanyOf(old(session.flushed), cycle).None?)
    ensures r.Started? ==>
      session.Idle() && session.committed == Activate(old(session.flushed), cycle) +
        (old(session.pending) + Additions(old(session.flushed), cycle, Requests(staff, ratees)))
    ensures !r.Started? ==> session.committed == old(session.committed) && session.flushed == old(session.flushed)
  {
    var ok := session.Call();
    if !ok {
      return Raised;
    }
    if CompanyOf(session.flushed, cycle).None? {
      return NoCycle;
    }
    ok := AssignAll(session, staff, cycle, ratees);
    if !ok {
      return Raised;
    }
    ok := CommitActive(session, cycle);
    return if ok then Started else Raised;
  }

  /** The new status of the cycle is written by the commit. */
  method CommitActive(session: Session<Row>, cycle: nat) returns (ok: bool)
    modifies session
    ensures ok == (old(session.calls) !in session.fails) && session.calls == old(session.calls) + 1
    ensures ok ==> session.Idle() && session.committed == Activate(old(session.flushed), cycle) + old(session.pending)
    ensures !ok ==> session.committed == old(session.committed) && session.flushed == old(session.flushed)
  {
    ok := session.Call();
    if ok {
      session.committed := Activate(session.flushed, cycle) + session.pending;
      session.flushed, session.pending := session.committed, [];
    }
  }
}
