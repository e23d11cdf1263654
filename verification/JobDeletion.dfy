/** Deleting a job with its automations and its non-hired applications, in one transaction. */
module JobDeletion {
  import opened PyText
  import opened Sequences
  import opened Sessions
  import opened HiringRows

  const HIRED: int := 5

  /** A statement deletes the automations of one kind. */
  function KeptByDelete(kind: Kind, job: nat): Row -> bool {
    (r: Row) => !(r.Automation? && r.kind == kind && r.job == job)
  }

  function MapRows(rows: seq<Row>, f: Row -> Row): seq<Row> {
    seq(|rows|, i requires 0 <= i < |rows| => f(rows[i]))
  }

  /** The update statement: live applications of the job that are not hired get a deletion time. */
  function SoftDelete(job: nat): Row -> Row {
    (r: Row) => if r.Application? && r.job == job && r.status != HIRED && !r.deleted
      then Application(r.id, r.job, r.status, true) else r
  }

  function MarkJob(job: nat): Row -> Row {
    (r: Row) => if r.Job? && r.id == job then Job(r.id, r.company, r.title, true) else r
  }

  const KINDS: seq<Kind> := [Assessment, Mail, Interview, Onboarding]

  function DeleteKinds(rows: seq<Row>, kinds: seq<Kind>, job: nat): seq<Row> {
    if kinds == [] then rows
    else Filter(DeleteKinds(rows, kinds[..|kinds| - 1], job), KeptByDelete(kinds[|kinds| - 1], job))
  }

  predicate LiveJob(r: Row, company: nat, job: nat) {
    r.Job? && r.id == job && r.company == company && !r.deleted
  }

  predicate HasLiveJob(rows: seq<Row>, company: nat, job: nat) {
    exists i :: 0 <= i < |rows| && LiveJob(rows[i], company, job)
  }

  /** The statements in their order. */
  function AfterStatements(rows: seq<Row>, job: nat): seq<Row> {
    MapRows(MapRows(DeleteKinds(rows, KINDS, job), SoftDelete(job)), MarkJob(job))
  }

  /** How a call ends; a failure reports whether the rollback went through. */
  datatype Outcome = Deleted | NotFound | Failed(rolledBack: bool)

  /** The tool; `jobId` is None when the text is no identifier. A deletion takes seven round trips. */
  method DeleteJob(session: Session<Row>, company: nat, jobId: Option<nat>) returns (r: Outcome)
    modifies session
    ensures r.Deleted? <==>
      (jobId.Some? && HasLiveJob(old(session.flushed), company, jobId.value) &&
       Answers(session.fails, old(session.calls), old(session.calls) + 7))
    ensures r.Deleted? ==>
      session.Idle() && session.committed == AfterStatements(old(session.flushed), jobId.value) + old(session.pending)
    ensures !r.Deleted? ==> session.committed == old(session.committed)
    ensures session.nextId == old(session.nextId)
    ensures r == Failed(true) ==> session.Idle()
    ensures r.NotFound? ==> session.flushed == old(session.flushed) && session.pending == old(session.pending)
  {
    r := RunStatements(session, company, jobId);
    if r.Failed? {
      var rolledBack := session.Rollback();
      r := Failed(rolledBack);
    }
  }

  /** The body of the `try`. */
  method RunStatements(session: Session<Row>, company: nat, jobId: Option<nat>) returns (r: Outcome)
    modifies session
    ensures r.Deleted? <==>
      (jobId.Some? && HasLiveJob(old(session.flushed), company, jobId.value) &&
       Answers(session.fails, old(session.calls), old(session.calls) + 7))
    ensures r.Deleted? ==>
      session.Idle() && session.committed == AfterStatements(old(session.flushed), jobId.value) + old(session.pending)
    ensures !r.Deleted? ==> session.committed == old(session.committed)
    ensures session.nextId == old(session.nextId)
    ensures r.NotFound? ==> session.flushed == old(session.flushed) && session.pending == old(session.pending)
  {
    if jobId.None? {
      return NotFound;
    }
    var job := jobId.value;
    var ok := session.Call();
    if !ok {
      return Failed(false);
    }
    if !HasLiveJob(session.flushed, company, job) {
      return NotFound;
    }
    ok := DeleteAutomations(session, job);
    if !ok {
      return Failed(false);
    }
    ok := session.Call();
    if !ok {
      return Failed(false);
    }
    session.flushed := MapRows(session.flushed, SoftDelete(job));
    session.flushed := MapRows(session.flushed, MarkJob(job));
    ok := session.Commit();
    return if ok then Deleted else Failed(false);
  }

  method DeleteAutomations(session: Session<Row>, job: nat) returns (ok: bool)
    modifies session`calls, session`flushed
    ensures ok == Answers(session.fails, old(session.calls), old(session.calls) + 4)
    ensures ok ==> session.calls == old(session.calls) + 4
    ensures ok ==> session.flushed == DeleteKinds(old(session.flushed), KINDS, job)
  {
    for i := 0 to 4
      invariant session.flushed == DeleteKinds(old(session.flushed), KINDS[..i], job)
      invariant session.calls == old(session.calls) + i
      invariant Answers(session.fails, old(session.calls), session.calls)
    {
      assert KINDS[..i + 1][..i] == KINDS[..i];
      ok := session.Call();
      if !ok {
        return;
      }
      session.flushed := Filter(session.flushed, KeptByDelete(KINDS[i], job));
    }
    assert KINDS[..4] == KINDS;
    ok := true;
  }

  // ---------------------------------------------------------------- what a deletion does

  /** A job can be deleted if and only if the company has it and it is not deleted yet. */
  lemma LiveJobSpelled(rows: seq<Row>, company: nat, job: nat)
    ensures HasLiveJob(rows, company, job) <==> exists title :: Job(job, company, title, false) in rows
  {
    if i :| 0 <= i < |rows| && LiveJob(rows[i], company, job) {
      assert Job(job, company, rows[i].title, false) in rows;
    }
  }

  predicate IsAutomationOf(r: Row, job: nat) {
    r.Automation? && r.job == job
  }

  function NotAutomationOf(job: nat): Row -> bool {
    (r: Row) => !IsAutomationOf(r, job)
  }

  /** The fate of a row that is kept. */
  function Fate(r: Row, job: nat): Row {
    match r
    case Application(id, j, status, deleted) =>
      if j == job && status != HIRED && !deleted then Application(id, j, status, true) else r
    case Job(id, company, title, _) => if id == job then Job(id, company, title, true) else r
    case _ => r
  }

  function FateOf(job: nat): Row -> Row {
    (r: Row) => Fate(r, job)
  }

  /** All automations of the job go, whatever their kind, and everything else meets its fate, in order. */
  lemma DeletionExactly(rows: seq<Row>, job: nat)
    ensures AfterStatements(rows, job) == MapRows(Filter(rows, NotAutomationOf(job)), FateOf(job))
  {
    FourDeletes(rows, job);
    var kept := Filter(rows, NotAutomationOf(job));
    var done := AfterStatements(rows, job);
    forall i | 0 <= i < |done| ensures done[i] == Fate(kept[i], job) {
    }
  }

  lemma FourDeletes(rows: seq<Row>, job: nat)
    ensures DeleteKinds(rows, KINDS, job) == Filter(rows, NotAutomationOf(job))
  {
    DeleteOnly(rows, KINDS, job);
    FilterSame(rows, KeptByDeletes(KINDS, job), NotAutomationOf(job));
  }

  function KeptByDeletes(kinds: seq<Kind>, job: nat): Row -> bool {
    (r: Row) => !(r.Automation? && r.kind in kinds && r.job == job)
  }

  lemma {:induction false} DeleteOnly(rows: seq<Row>, kinds: seq<Kind>, job: nat)
    ensures DeleteKinds(rows, kinds, job) == Filter(rows, KeptByDeletes(kinds, job))
  {
    if kinds == [] {
      FilterAll(rows, KeptByDeletes(kinds, job));
    } else {
      var n := |kinds| - 1;
      DeleteOnly(rows, kinds[..n], job);
      assert kinds == kinds[..n] + [kinds[n]];
      FilterTwice(rows, KeptByDeletes(kinds[..n], job), KeptByDelete(kinds[n], job), KeptByDeletes(kinds, job));
    }
  }

  /** Rows of other jobs, and templates. */
  function Foreign(job: nat): Row -> bool {
    (r: Row) => !(r.Automation? && r.job == job) && !(r.Application? && r.job == job) && !(r.Job? && r.id == job)
  }

  function HiredApplication(): Row -> bool {
    (r: Row) => r.Application? && r.status == 5
  }

  lemma {:induction false} FilterMapped(rows: seq<Row>, f: Row -> Row, p: Row -> bool)
    requires forall r :: p(f(r)) == p(r)
    ensures Filter(MapRows(rows, f), p) == MapRows(Filter(rows, p), f)
  {
    if rows != [] {
      var n := |rows| - 1;
      FilterMapped(rows[..n], f, p);
      assert MapRows(rows, f)[..n] == MapRows(rows[..n], f);
    }
  }

  /** A kind of row that a deletion neither drops nor changes, and that nothing turns into, is left as it was. */
  lemma ClassKept(rows: seq<Row>, job: nat, p: Row -> bool)
    requires forall r :: p(r) ==> !IsAutomationOf(r, job) && Fate(r, job) == r
    requires forall r :: p(Fate(r, job)) == p(r)
    ensures Filter(AfterStatements(rows, job), p) == Filter(rows, p)
  {
    DeletionExactly(rows, job);
    FilterMapped(Filter(rows, NotAutomationOf(job)), FateOf(job), p);
    FilterTwice(rows, NotAutomationOf(job), p, p);
    FilterSatisfies(rows, p);
    assert MapRows(Filter(rows, p), FateOf(job)) == Filter(rows, p);
  }

  /**
   * Rows of other jobs, templates and hired applications are afterwards exactly those there were, in order; an
   * application that was already deleted is still there; no live application of the job is left but hired ones.
   */
  lemma UntouchedRows(rows: seq<Row>, job: nat, r: Row)
    ensures Filter(AfterStatements(rows, job), Foreign(job)) == Filter(rows, Foreign(job))
    ensures Filter(AfterStatements(rows, job), HiredApplication()) == Filter(rows, HiredApplication())
    ensures r in rows && r.Application? && r.deleted ==> r in AfterStatements(rows, job)
    ensures r in AfterStatements(rows, job) && r.Application? && r.job == job && !r.deleted ==> r.status == 5
  {
    ClassKept(rows, job, Foreign(job));
    ClassKept(rows, job, HiredApplication());
    DeletionExactly(rows, job);
    var kept := Filter(rows, NotAutomationOf(job));
    if r in rows && r.Application? && r.deleted {
      FilterMember(rows, NotAutomationOf(job), r);
      var k :| 0 <= k < |kept| && kept[k] == r;
      assert AfterStatements(rows, job)[k] == Fate(r, job);
    }
    if r in AfterStatements(rows, job) {
      var k :| 0 <= k < |kept| && Fate(kept[k], job) == r;
    }
  }
}
