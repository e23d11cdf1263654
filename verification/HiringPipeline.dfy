/** Find-or-create templates and the one-transaction build of a hiring pipeline. */
module HiringPipeline {
  import opened PyText
  import opened Sessions
  import opened HiringRows

  /** What the transaction would commit, and the next fresh identifier. */
  datatype Draft = Draft(rows: seq<Row>, next: nat)

  const APPLICATION_RECEIVED := "Croar Pilot · Application Received"
  const ASSESSMENT_INVITE := "Croar Pilot · Assessment Invite"
  const INTERVIEW_INVITE := "Croar Pilot · Interview Invite"
  const OFFER := "Croar Pilot · Offer"
  const ONBOARDING_WELCOME := "Croar Pilot · Onboarding Welcome"

  /** The subject line stands for the whole text of an email template. */
  function Subject(name: string): string {
    if name == APPLICATION_RECEIVED then "We received your application for {{job_title}}"
    else if name == ASSESSMENT_INVITE then "Your {{job_title}} assessment is ready"
    else if name == INTERVIEW_INVITE then "Your {{job_title}} interview"
    else if name == OFFER then "Your offer for {{job_title}}"
    else "Welcome to {{company_name}}!"
  }

  function Checklist(role: string): string {
    "Onboarding checklist for " + role + "."
  }

  function OnboardingName(role: string): string {
    role + " · Onboarding"
  }

  function IsEmail(company: nat, name: string): Row -> bool {
    (r: Row) => r.EmailTemplate? && r.company == company && r.name == name
  }

  function IsOnboarding(company: nat, name: string): Row -> bool {
    (r: Row) => r.OnboardingTemplate? && r.company == company && r.name == name
  }

  /** A select with limit 1: the first row that satisfies `p`, or the number of rows. */
  function Select(rows: seq<Row>, p: Row -> bool): (i: nat)
    ensures i <= |rows| && (i < |rows| ==> p(rows[i]))
    ensures forall k :: 0 <= k < i ==> !p(rows[k])
  {
    if rows == [] || p(rows[0]) then 0 else Select(rows[1..], p) + 1
  }

  // ---------------------------------------------------------------- the specification

  function EnsureEmail(d: Draft, company: nat, name: string): (Draft, nat) {
    var i := Select(d.rows, IsEmail(company, name));
    if i < |d.rows| then (d, d.rows[i].id)
    else (Draft(d.rows + [EmailTemplate(d.next, company, name, Subject(name))], d.next + 1), d.next)
  }

  /** An existing onboarding template is brought up to date in place. */
  function EnsureOnboarding(d: Draft, company: nat, role: string): (Draft, nat) {
    var name := OnboardingName(role);
    var i := Select(d.rows, IsOnboarding(company, name));
    if i < |d.rows| then
      (Draft(d.rows[i := OnboardingTemplate(d.rows[i].id, company, name, Checklist(role))], d.next), d.rows[i].id)
    else
      (Draft(d.rows + [OnboardingTemplate(d.next, company, name, Checklist(role))], d.next + 1), d.next)
  }

  function ArmMail(d: Draft, company: nat, job: nat, stage: nat, name: string): Draft {
    var (e, email) := EnsureEmail(d, company, name);
    Draft(e.rows + [Automation(Mail, company, job, stage, email, email, true)], e.next)
  }

  /** An assessment or an interview gets a template of its own. */
  function RoundTemplate(kind: Kind, id: nat, company: nat, role: string, email: nat): Row {
    if kind == Assessment then AssessmentTemplate(id, company, role + " · Assessment", email)
    else InterviewTemplate(id, company, role + " · Interview")
  }

  function ArmRound(d: Draft, company: nat, role: string, job: nat, kind: Kind, stage: nat, name: string): Draft {
    var (e, email) := EnsureEmail(d, company, name);
    Draft(e.rows + [RoundTemplate(kind, e.next, company, role, email)]
                 + [Automation(kind, company, job, stage, e.next, email, true)], e.next + 1)
  }

  function ArmOnboarding(d: Draft, company: nat, role: string, job: nat): Draft {
    var (e, email) := EnsureEmail(d, company, ONBOARDING_WELCOME);
    var (f, template) := EnsureOnboarding(e, company, role);
    Draft(f.rows + [Automation(Onboarding, company, job, 5, template, email, false)], f.next)
  }

  /** What is armed at a stage of the funnel. */
  datatype Plan =
    | MailPlan(stage: nat, name: string)
    | RoundPlan(kind: Kind, stage: nat, name: string)
    | OnboardingPlan

  const PLANS: seq<Plan> := [
    MailPlan(1, APPLICATION_RECEIVED),
    RoundPlan(Assessment, 2, ASSESSMENT_INVITE),
    RoundPlan(Interview, 3, INTERVIEW_INVITE),
    MailPlan(4, OFFER),
    OnboardingPlan
  ]

  function Arm(d: Draft, company: nat, role: string, job: nat, plan: Plan): Draft {
    match plan
    case MailPlan(stage, name) => ArmMail(d, company, job, stage, name)
    case RoundPlan(kind, stage, name) => ArmRound(d, company, role, job, kind, stage, name)
    case OnboardingPlan => ArmOnboarding(d, company, role, job)
  }

  function ArmAll(d: Draft, company: nat, role: string, job: nat, plans: seq<Plan>): Draft {
    if plans == [] then d
    else Arm(ArmAll(d, company, role, job, plans[..|plans| - 1]), company, role, job, plans[|plans| - 1])
  }

  function WithJob(d: Draft, company: nat, role: string): Draft {
    Draft(d.rows + [Job(d.next, company, role, false)], d.next + 1)
  }

  /** The stages in the order of the code. */
  function Stages(d: Draft, company: nat, role: string, job: nat): Draft {
    var d1 := ArmMail(d, company, job, 1, APPLICATION_RECEIVED);
    var d2 := ArmRound(d1, company, role, job, Assessment, 2, ASSESSMENT_INVITE);
    var d3 := ArmRound(d2, company, role, job, Interview, 3, INTERVIEW_INVITE);
    var d4 := ArmMail(d3, company, job, 4, OFFER);
    ArmOnboarding(d4, company, role, job)
  }

  /** The whole pipeline; its job has identifier `d.next`. */
  function Pipeline(d: Draft, company: nat, role: string): Draft {
    ArmAll(WithJob(d, company, role), company, role, d.next, PLANS)
  }

  // ---------------------------------------------------------------- the operations

  function DraftOf(session: Session<Row>): Draft
    reads session
  {
    Draft(session.View(), session.nextId)
  }

  /** No template waits to be flushed, so a select sees every template. */
  predicate NoTemplates(pending: seq<Row>) {
    forall i :: 0 <= i < |pending| ==> pending[i].Automation?
  }

  lemma SelectSeesAll(flushed: seq<Row>, pending: seq<Row>, p: Row -> bool)
    requires NoTemplates(pending)
    requires forall r: Row :: r.Automation? ==> !p(r)
    ensures var i := Select(flushed, p); var j := Select(flushed + pending, p);
      if i < |flushed| then j == i else j == |flushed + pending|
  {
    var i := Select(flushed, p);
    var j := Select(flushed + pending, p);
    if i < |flushed| {
      assert p((flushed + pending)[i]);
      assert j < |flushed| ==> p(flushed[j]);
    }
  }

  method EnsureEmailTemplate(session: Session<Row>, company: nat, name: string) returns (id: Option<nat>)
    requires NoTemplates(session.pending)
    modifies session`calls, session`nextId, session`flushed, session`pending
    ensures session.calls >= old(session.calls) && session.nextId >= old(session.nextId)
    ensures id.Some? == Answers(session.fails, old(session.calls), session.calls)
    ensures id.Some? ==> (DraftOf(session), id.value) == EnsureEmail(old(DraftOf(session)), company, name)
    ensures id.Some? ==> NoTemplates(session.pending)
  {
    var ok := session.Call();
    if !ok {
      return None;
    }
    SelectSeesAll(session.flushed, session.pending, IsEmail(company, name));
    var i := Select(session.flushed, IsEmail(company, name));
    if i < |session.flushed| {
      return Some(session.flushed[i].id);
    }
    var made := session.FreshId();
    session.Add(EmailTemplate(made, company, name, Subject(name)));
    ok := session.Flush();
    return if ok then Some(made) else None;
  }

  /** The attributes of a found row are assigned and flushed. */
  method RefreshTemplate(session: Session<Row>, i: nat, row: Row) returns (ok: bool)
    requires i < |session.flushed|
    modifies session`calls, session`flushed, session`pending
    ensures ok == (old(session.calls) !in session.fails) && session.calls == old(session.calls) + 1
    ensures session.View() == old(session.View())[i := row]
    ensures ok ==> session.pending == []
  {
    session.flushed := session.flushed[i := row];
    assert session.View() == old(session.View())[i := row];
    ok := session.Flush();
  }

  method EnsureOnboardingTemplate(session: Session<Row>, company: nat, role: string) returns (id: Option<nat>)
    requires NoTemplates(session.pending)
    modifies session`calls, session`nextId, session`flushed, session`pending
    ensures session.calls >= old(session.calls) && session.nextId >= old(session.nextId)
    ensures id.Some? == Answers(session.fails, old(session.calls), session.calls)
    ensures id.Some? ==> (DraftOf(session), id.value) == EnsureOnboarding(old(DraftOf(session)), company, role)
    ensures id.Some? ==> NoTemplates(session.pending)
  {
    var name := OnboardingName(role);
    var ok := session.Call();
    if !ok {
      return None;
    }
    SelectSeesAll(session.flushed, session.pending, IsOnboarding(company, name));
    var i := Select(session.flushed, IsOnboarding(company, name));
    if i < |session.flushed| {
      var found := session.flushed[i].id;
      ok := RefreshTemplate(session, i, OnboardingTemplate(found, company, name, Checklist(role)));
      return if ok then Some(found) else None;
    }
    var made := session.FreshId();
    session.Add(OnboardingTemplate(made, company, name, Checklist(role)));
    ok := session.Flush();
    return if ok then Some(made) else None;
  }

  method AddMail(session: Session<Row>, company: nat, job: nat, stage: nat, name: string) returns (ok: bool)
    requires NoTemplates(session.pending)
    modifies session`calls, session`nextId, session`flushed, session`pending
    ensures session.calls >= old(session.calls) && session.nextId >= old(session.nextId)
    ensures ok == Answers(session.fails, old(session.calls), session.calls)
    ensures ok ==> DraftOf(session) == ArmMail(old(DraftOf(session)), company, job, stage, name)
    ensures ok ==> NoTemplates(session.pending)
  {
    var email := EnsureEmailTemplate(session, company, name);
    if email.None? {
      return false;
    }
    session.Add(Automation(Mail, company, job, stage, email.value, email.value, true));
    return true;
  }

  method AddRound(session: Session<Row>, company: nat, role: string, job: nat, kind: Kind, stage: nat, name: string)
    returns (ok: bool)
    requires NoTemplates(session.pending)
    modifies session`calls, session`nextId, session`flushed, session`pending
    ensures session.calls >= old(session.calls) && session.nextId >= old(session.nextId)
    ensures ok == Answers(session.fails, old(session.calls), session.calls)
    ensures ok ==> DraftOf(session) == ArmRound(old(DraftOf(session)), company, role, job, kind, stage, name)
    ensures ok ==> NoTemplates(session.pending)
  {
    var email := EnsureEmailTemplate(session, company, name);
    if email.None? {
      return false;
    }
    var template := session.FreshId();
    session.Add(RoundTemplate(kind, template, company, role, email.value));
    ok := session.Flush();
    if ok {
      session.Add(Automation(kind, company, job, stage, template, email.value, true));
    }
  }

  method AddOnboarding(session: Session<Row>, company: nat, role: string, job: nat) returns (ok: bool)
    requires NoTemplates(session.pending)
    modifies session`calls, session`nextId, session`flushed, session`pending
    ensures session.calls >= old(session.calls) && session.nextId >= old(session.nextId)
    ensures ok == Answers(session.fails, old(session.calls), session.calls)
    ensures ok ==> DraftOf(session) == ArmOnboarding(old(DraftOf(session)), company, role, job)
  {
    var email := EnsureEmailTemplate(session, company, ONBOARDING_WELCOME);
    if email.None? {
      return false;
    }
    var template := EnsureOnboardingTemplate(session, company, role);
    if template.None? {
      return false;
    }
    session.Add(Automation(Onboarding, company, job, 5, template.value, email.value, false));
    return true;
  }

  /** How a build ends; a failure reports whether the rollback went through. */
  datatype Outcome = Built(job: nat) | NoTitle | Failed(rolledBack: bool)

  /** The tool; `generated` says whether the questions could be generated. */
  method BuildPipeline(session: Session<Row>, company: nat, roleTitle: string, generated: bool) returns (r: Outcome)
    modifies session
    ensures r.NoTitle? <==> Strip(roleTitle) == ""
    ensures r.NoTitle? ==> session.flushed == old(session.flushed) && session.pending == old(session.pending)
    ensures r.NoTitle? ==> session.nextId == old(session.nextId) && session.calls == old(session.calls)
    ensures r.Built? ==>
      session.Idle() && r.job == old(session.nextId) &&
      DraftOf(session) == Pipeline(old(DraftOf(session)), company, Strip(roleTitle))
    ensures !r.Built? ==> session.committed == old(session.committed)
    ensures r == Failed(true) ==> session.Idle()
    ensures session.calls >= old(session.calls) && session.nextId >= old(session.nextId)
    ensures
      (Strip(roleTitle) != "" && generated && Answers(session.fails, old(session.calls), session.calls)) ==> r.Built?
    ensures r.Built? ==> generated && Answers(session.fails, old(session.calls), session.calls)
  {
    var role := Strip(roleTitle);
    if role == "" {
      return NoTitle;
    }
    var job := session.nextId;
    var ok := RunBuild(session, company, role, generated);
    if ok {
      return Built(job);
    }
    var rolledBack := session.Rollback();
    return Failed(rolledBack);
  }

  /** The body of the `try`. */
  method RunBuild(session: Session<Row>, company: nat, role: string, generated: bool) returns (ok: bool)
    modifies session
    ensures session.calls >= old(session.calls) && session.nextId >= old(session.nextId)
    ensures ok == (generated && Answers(session.fails, old(session.calls), session.calls))
    ensures ok ==> session.Idle() && DraftOf(session) == Pipeline(old(DraftOf(session)), company, role)
    ensures !ok ==> session.committed == old(session.committed)
  {
    var job: nat;
    job, ok := AddJob(session, company, role);
    if !ok || !generated {
      return false;
    }
    ok := AddPlans(session, company, role, job);
    if !ok { return; }
    ok := session.Commit();
  }

  method AddPlans(session: Session<Row>, company: nat, role: string, job: nat) returns (ok: bool)
    requires NoTemplates(session.pending)
    modifies session`calls, session`nextId, session`flushed, session`pending
    ensures session.calls >= old(session.calls) && session.nextId >= old(session.nextId)
    ensures ok == Answers(session.fails, old(session.calls), session.calls)
    ensures ok ==> DraftOf(session) == ArmAll(old(DraftOf(session)), company, role, job, PLANS)
  {
    StagesArmAll(DraftOf(session), company, role, job);
    ok := AddStages(session, company, role, job);
  }

  method AddJob(session: Session<Row>, company: nat, role: string) returns (job: nat, ok: bool)
    modifies session`calls, session`nextId, session`flushed, session`pending
    ensures session.calls >= old(session.calls) && session.nextId >= old(session.nextId)
    ensures ok == Answers(session.fails, old(session.calls), session.calls)
    ensures job == old(session.nextId)
    ensures ok ==> DraftOf(session) == WithJob(old(DraftOf(session)), company, role) && session.pending == []
  {
    job := session.FreshId();
    session.Add(Job(job, company, role, false));
    ok := session.Flush();
  }

  method AddStages(session: Session<Row>, company: nat, role: string, job: nat) returns (ok: bool)
    requires NoTemplates(session.pending)
    modifies session`calls, session`nextId, session`flushed, session`pending
    ensures session.calls >= old(session.calls) && session.nextId >= old(session.nextId)
    ensures ok == Answers(session.fails, old(session.calls), session.calls)
    ensures ok ==> DraftOf(session) == Stages(old(DraftOf(session)), company, role, job)
  {
    ok := AddMail(session, company, job, 1, APPLICATION_RECEIVED);
    if !ok { return; }
    ok := AddRound(session, company, role, job, Assessment, 2, ASSESSMENT_INVITE);
    if !ok { return; }
    ok := AddRound(session, company, role, job, Interview, 3, INTERVIEW_INVITE);
    if !ok { return; }
    ok := AddMail(session, company, job, 4, OFFER);
    if !ok { return; }
    ok := AddOnboarding(session, company, role, job);
  }

  /** The straight-line code follows the list of plans. */
  lemma StagesArmAll(d: Draft, company: nat, role: string, job: nat)
    ensures Stages(d, company, role, job) == ArmAll(d, company, role, job, PLANS)
  {
    var d1 := ArmMail(d, company, job, 1, APPLICATION_RECEIVED);
    var d2 := ArmRound(d1, company, role, job, Assessment, 2, ASSESSMENT_INVITE);
    var d3 := ArmRound(d2, company, role, job, Interview, 3, INTERVIEW_INVITE);
    var d4 := ArmMail(d3, company, job, 4, OFFER);
    FivePlans(d, d1, d2, d3, d4, ArmOnboarding(d4, company, role, job), company, role, job);
  }

  lemma FivePlans(d: Draft, d1: Draft, d2: Draft, d3: Draft, d4: Draft, d5: Draft, company: nat, role: string, job: nat)
    requires d1 == Arm(d, company, role, job, PLANS[0]) && d2 == Arm(d1, company, role, job, PLANS[1])
    requires d3 == Arm(d2, company, role, job, PLANS[2]) && d4 == Arm(d3, company, role, job, PLANS[3])
    requires d5 == Arm(d4, company, role, job, PLANS[4])
    ensures ArmAll(d, company, role, job, PLANS) == d5
  {
    ArmNext(d, company, role, job, 0);
    ArmNext(d, company, role, job, 1);
    ArmNext(d, company, role, job, 2);
    ArmNext(d, company, role, job, 3);
    ArmNext(d, company, role, job, 4);
    assert PLANS[..5] == PLANS;
  }

  lemma ArmNext(d: Draft, company: nat, role: string, job: nat, k: nat)
    requires k < |PLANS|
    ensures ArmAll(d, company, role, job, PLANS[..k + 1])
         == Arm(ArmAll(d, company, role, job, PLANS[..k]), company, role, job, PLANS[k])
    ensures k == 0 ==> ArmAll(d, company, role, job, PLANS[..k]) == d
  {
    assert PLANS[..k + 1][..k] == PLANS[..k];
  }
}
