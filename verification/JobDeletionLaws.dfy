/** What deleting a job keeps of templates, lookups and other jobs. */
module JobDeletionLaws {
  import opened PyText
  import opened Sequences
  import opened HiringRows
  import opened HiringPipeline
  import opened HiringPipelineLaws
  import opened JobDeletion

  /** A lookup finds the first of the rows that a filter keeps. */
  lemma {:induction false} SelectIsFirst(rows: seq<Row>, q: Row -> bool)
    ensures var i := Select(rows, q); var kept := Filter(rows, q);
      (i < |rows| <==> kept != []) && (i < |rows| ==> kept[0] == rows[i])
  {
    if rows != [] {
      var n := |rows| - 1;
      var init := rows[..n];
      SelectIsFirst(init, q);
      assert forall k :: 0 <= k < n ==> init[k] == rows[k];
      var i := Select(init, q);
      if i < n {
        assert Select(rows, q) == i;
      }
    }
  }

  lemma SameFilterSameId(rows: seq<Row>, after: seq<Row>, q: Row -> bool)
    requires forall r: Row :: q(r) ==> r.EmailTemplate? || r.OnboardingTemplate?
    requires Filter(rows, q) == Filter(after, q)
    ensures IdAt(after, q) == IdAt(rows, q)
  {
    SelectIsFirst(rows, q);
    SelectIsFirst(after, q);
  }

  /** Deleting a job changes no lookup. */
  lemma DeletionKeepsLookups(rows: seq<Row>, job: nat, company: nat, name: string)
    ensures EmailId(AfterStatements(rows, job), company, name) == EmailId(rows, company, name)
    ensures OnboardingId(AfterStatements(rows, job), company, name) == OnboardingId(rows, company, name)
  {
    ClassKept(rows, job, IsEmail(company, name));
    ClassKept(rows, job, IsOnboarding(company, name));
    SameFilterSameId(rows, AfterStatements(rows, job), IsEmail(company, name));
    SameFilterSameId(rows, AfterStatements(rows, job), IsOnboarding(company, name));
  }

  lemma {:induction false} OneEachFiltered(rows: seq<Row>, p: Row -> bool)
    requires OneEach(rows)
    ensures OneEach(Filter(rows, p))
  {
    if rows != [] {
      var n := |rows| - 1;
      OneEachFiltered(rows[..n], p);
      FilterSatisfies(rows[..n], p);
      var kept := Filter(rows[..n], p);
      if p(rows[n]) {
        LoneFiltered(rows[..n], kept, rows[n]);
        OneEachGrows(kept, rows[n]);
      } else {
        assert kept + [] == kept;
      }
    }
  }

  lemma LoneFiltered(rows: seq<Row>, kept: seq<Row>, r: Row)
    requires Lone(rows, r) && forall a :: 0 <= a < |kept| ==> kept[a] in rows
    ensures Lone(kept, r)
  {
    forall a | 0 <= a < |kept| ensures !Twins(kept[a], r) {
      var i :| 0 <= i < |rows| && rows[i] == kept[a];
    }
  }

  lemma OneEachMapped(rows: seq<Row>, f: Row -> Row)
    requires OneEach(rows) && forall a, b :: Twins(f(a), f(b)) == Twins(a, b)
    ensures OneEach(MapRows(rows, f))
  {
    var mapped := MapRows(rows, f);
    OneEachExactly(rows);
    OneEachExactly(mapped);
    forall i, j | 0 <= i < j < |mapped| ensures !Twins(mapped[i], mapped[j]) {
      assert mapped[i] == f(rows[i]) && mapped[j] == f(rows[j]);
    }
  }

  /** Templates stay unique and identifiers stay below the next one. */
  lemma DeletionKeepsSound(d: Draft, job: nat)
    requires Sound(d)
    ensures Sound(Draft(AfterStatements(d.rows, job), d.next))
  {
    var kept := Filter(d.rows, NotAutomationOf(job));
    DeletionExactly(d.rows, job);
    OneEachFiltered(d.rows, NotAutomationOf(job));
    OneEachMapped(kept, FateOf(job));
    FilterSatisfies(d.rows, NotAutomationOf(job));
    var after := AfterStatements(d.rows, job);
    forall i | 0 <= i < |after| ensures Below(after[i], d.next) {
      assert after[i] == Fate(kept[i], job) && kept[i] in d.rows;
    }
  }

  lemma TemplateStays(rows: seq<Row>, job: nat, r: Row)
    requires Holds(rows, r) && !r.Job? && !r.Automation? && !r.Application?
    ensures Holds(AfterStatements(rows, job), r)
  {
    var kept := Filter(rows, NotAutomationOf(job));
    DeletionExactly(rows, job);
    FilterMember(rows, NotAutomationOf(job), r);
    var k :| 0 <= k < |kept| && kept[k] == r;
    assert AfterStatements(rows, job)[k] == Fate(r, job);
  }

  lemma ArmedSurvives(rows: seq<Row>, job: nat, company: nat, role: string, other: nat, plan: Plan, a: Row)
    requires Armed(rows, company, role, other, plan, a)
    ensures Armed(AfterStatements(rows, job), company, role, other, plan, a)
  {
    match plan
    case MailPlan(stage, name) =>
      DeletionKeepsLookups(rows, job, company, name);
    case RoundPlan(kind, stage, name) =>
      DeletionKeepsLookups(rows, job, company, name);
      TemplateStays(rows, job, RoundTemplate(kind, a.template, company, role, EmailId(rows, company, name).value));
    case OnboardingPlan =>
      DeletionKeepsLookups(rows, job, company, ONBOARDING_WELCOME);
      DeletionKeepsLookups(rows, job, company, OnboardingName(role));
  }

  /** Another job keeps its automations, and stays fully armed. */
  lemma DeletionSparesOthers(rows: seq<Row>, job: nat, other: nat)
    requires other != job
    ensures AutomationsOf(AfterStatements(rows, job), other) == AutomationsOf(rows, other)
  {
    ClassKept(rows, job, Not(NotAutomationOf(other)));
  }

  lemma DeletionKeepsArmed(rows: seq<Row>, job: nat, company: nat, role: string, other: nat)
    requires other != job && FullyArmed(rows, company, role, other, PLANS)
    ensures FullyArmed(AfterStatements(rows, job), company, role, other, PLANS)
  {
    DeletionSparesOthers(rows, job, other);
    var autos := AutomationsOf(rows, other);
    forall k | 0 <= k < |PLANS| ensures Armed(AfterStatements(rows, job), company, role, other, PLANS[k], autos[k]) {
      ArmedSurvives(rows, job, company, role, other, PLANS[k], autos[k]);
    }
  }

  /** The deleted job has no automation left. */
  lemma DeletionDisarms(rows: seq<Row>, job: nat)
    ensures AutomationsOf(AfterStatements(rows, job), job) == []
  {
    var kept := Filter(rows, NotAutomationOf(job));
    var after := AfterStatements(rows, job);
    DeletionExactly(rows, job);
    FilterSatisfies(rows, NotAutomationOf(job));
    forall i | 0 <= i < |after| ensures !Not(NotAutomationOf(job))(after[i]) {
      assert after[i] == Fate(kept[i], job) && NotAutomationOf(job)(kept[i]);
    }
    FilterCounts(after, Not(NotAutomationOf(job)));
  }
}
