/** A built pipeline spelled out: its five stages, what each is linked to, and the texts that go with them. */
module HiringFunnel {
  import opened PyText
  import opened Sequences
  import opened HiringRows
  import opened HiringPipeline
  import opened HiringPipelineLaws

  /** The first email template of the company under this name has identifier `id`. */
  ghost predicate FirstEmail(rows: seq<Row>, company: nat, name: string, id: nat) {
    exists i :: 0 <= i < |rows| && rows[i].EmailTemplate? && rows[i].company == company && rows[i].name == name
      && rows[i].id == id
      && forall k :: 0 <= k < i && rows[k].EmailTemplate? && rows[k].company == company ==> rows[k].name != name
  }

  ghost predicate FirstOnboarding(rows: seq<Row>, company: nat, name: string, id: nat) {
    exists i :: 0 <= i < |rows| && rows[i].OnboardingTemplate? && rows[i].company == company && rows[i].name == name
      && rows[i].id == id
      && forall k :: 0 <= k < i && rows[k].OnboardingTemplate? && rows[k].company == company ==> rows[k].name != name
  }

  lemma EmailIdSpelled(rows: seq<Row>, company: nat, name: string)
    ensures EmailId(rows, company, name).Some? ==> FirstEmail(rows, company, name, EmailId(rows, company, name).value)
  {
    var p, i := IsEmail(company, name), Select(rows, IsEmail(company, name));
    if i < |rows| {
      assert p(rows[i]);
      assert forall k :: 0 <= k < i ==> !p(rows[k]);
    }
  }

  lemma OnboardingIdSpelled(rows: seq<Row>, company: nat, name: string)
    ensures OnboardingId(rows, company, name).Some? ==>
      FirstOnboarding(rows, company, name, OnboardingId(rows, company, name).value)
  {
    var p, i := IsOnboarding(company, name), Select(rows, IsOnboarding(company, name));
    if i < |rows| {
      assert p(rows[i]);
      assert forall k :: 0 <= k < i ==> !p(rows[k]);
    }
  }

  // ---------------------------------------------------------------- the five stages

  ghost predicate MailStage(rows: seq<Row>, company: nat, job: nat, a: Row, stage: nat, name: string) {
    && a.Automation? && a == Automation(Mail, company, job, stage, a.email, a.email, true)
    && FirstEmail(rows, company, name, a.email)
  }

  ghost predicate AssessmentStage(rows: seq<Row>, company: nat, role: string, job: nat, a: Row) {
    && a.Automation? && a == Automation(Assessment, company, job, 2, a.template, a.email, true)
    && AssessmentTemplate(a.template, company, role + " · Assessment", a.email) in rows
    && FirstEmail(rows, company, "Croar Pilot · Assessment Invite", a.email)
  }

  ghost predicate InterviewStage(rows: seq<Row>, company: nat, role: string, job: nat, a: Row) {
    && a.Automation? && a == Automation(Interview, company, job, 3, a.template, a.email, true)
    && InterviewTemplate(a.template, company, role + " · Interview") in rows
    && FirstEmail(rows, company, "Croar Pilot · Interview Invite", a.email)
  }

  ghost predicate OnboardingStage(rows: seq<Row>, company: nat, role: string, job: nat, a: Row) {
    && a.Automation? && a == Automation(Onboarding, company, job, 5, a.template, a.email, false)
    && FirstOnboarding(rows, company, role + " · Onboarding", a.template)
    && FirstEmail(rows, company, "Croar Pilot · Onboarding Welcome", a.email)
  }

  /** The funnel: acknowledgement, assessment, interview, offer, and onboarding, which alone moves nobody on. */
  ghost predicate Funnel(rows: seq<Row>, company: nat, role: string, job: nat, autos: seq<Row>) {
    && |autos| == 5
    && MailStage(rows, company, job, autos[0], 1, "Croar Pilot · Application Received")
    && AssessmentStage(rows, company, role, job, autos[1])
    && InterviewStage(rows, company, role, job, autos[2])
    && MailStage(rows, company, job, autos[3], 4, "Croar Pilot · Offer")
    && OnboardingStage(rows, company, role, job, autos[4])
  }

  lemma FullyArmedIsFunnel(rows: seq<Row>, company: nat, role: string, job: nat)
    requires FullyArmed(rows, company, role, job, PLANS)
    ensures Funnel(rows, company, role, job, AutomationsOf(rows, job))
  {
    var autos := AutomationsOf(rows, job);
    forall k | 0 <= k < 5 ensures Armed(rows, company, role, job, PLANS[k], autos[k]) {
    }
    EmailIdSpelled(rows, company, "Croar Pilot · Application Received");
    EmailIdSpelled(rows, company, "Croar Pilot · Assessment Invite");
    EmailIdSpelled(rows, company, "Croar Pilot · Interview Invite");
    EmailIdSpelled(rows, company, "Croar Pilot · Offer");
    EmailIdSpelled(rows, company, "Croar Pilot · Onboarding Welcome");
    OnboardingIdSpelled(rows, company, role + " · Onboarding");
    assert Armed(rows, company, role, job, PLANS[0], autos[0]);
    assert Armed(rows, company, role, job, PLANS[1], autos[1]);
    assert Armed(rows, company, role, job, PLANS[2], autos[2]);
    assert Armed(rows, company, role, job, PLANS[3], autos[3]);
    assert Armed(rows, company, role, job, PLANS[4], autos[4]);
  }

  /** A build arms the funnel of its new job. */
  lemma BuildIsFunnel(d: Draft, company: nat, role: string)
    requires Sound(d)
    ensures var rows := Pipeline(d, company, role).rows;
      Funnel(rows, company, role, d.next, AutomationsOf(rows, d.next))
  {
    BuildArms(d, company, role);
    FullyArmedIsFunnel(Pipeline(d, company, role).rows, company, role, d.next);
  }

  // ---------------------------------------------------------------- the texts

  /** The subject line a new email template gets with its name. */
  predicate Lettered(name: string, subject: string) {
    || (name == "Croar Pilot · Application Received" && subject == "We received your application for {{job_title}}")
    || (name == "Croar Pilot · Assessment Invite" && subject == "Your {{job_title}} assessment is ready")
    || (name == "Croar Pilot · Interview Invite" && subject == "Your {{job_title}} interview")
    || (name == "Croar Pilot · Offer" && subject == "Your offer for {{job_title}}")
    || (name == "Croar Pilot · Onboarding Welcome" && subject == "Welcome to {{company_name}}!")
  }

  /** From row `n` on, email templates are the company's and lettered, and so are onboarding templates. */
  ghost predicate Written(rows: seq<Row>, n: nat, company: nat, role: string) {
    forall i :: n <= i < |rows| ==>
      (rows[i].EmailTemplate? ==> rows[i].company == company && Lettered(rows[i].name, rows[i].content)) &&
      (rows[i].OnboardingTemplate? ==> rows[i] == OnboardingTemplate(rows[i].id, company, role + " · Onboarding",
                                                                    "Onboarding checklist for " + role + "."))
  }

  /** The role's onboarding template is there, with its checklist line. */
  ghost predicate HasChecklist(rows: seq<Row>, company: nat, role: string) {
    exists i :: 0 <= i < |rows| && rows[i].OnboardingTemplate? &&
      rows[i] == OnboardingTemplate(rows[i].id, company, role + " · Onboarding",
                                    "Onboarding checklist for " + role + ".")
  }

  function NameOf(plan: Plan): string {
    match plan
    case MailPlan(_, name) => name
    case RoundPlan(_, _, name) => name
    case OnboardingPlan => ONBOARDING_WELCOME
  }

  lemma EmailWritten(d: Draft, n: nat, company: nat, role: string, name: string)
    requires Written(d.rows, n, company, role) && Lettered(name, Subject(name))
    ensures Written(EnsureEmail(d, company, name).0.rows, n, company, role)
  {
  }

  lemma OnboardingWritten(d: Draft, n: nat, company: nat, role: string)
    requires Written(d.rows, n, company, role)
    ensures Written(EnsureOnboarding(d, company, role).0.rows, n, company, role)
    ensures HasChecklist(EnsureOnboarding(d, company, role).0.rows, company, role)
  {
    var (e, id) := EnsureOnboarding(d, company, role);
    var i := Select(d.rows, IsOnboarding(company, OnboardingName(role)));
    assert e.rows[i].id == id;
  }

  lemma PlanWritten(d: Draft, n: nat, company: nat, role: string, job: nat, plan: Plan)
    requires Written(d.rows, n, company, role) && Lettered(NameOf(plan), Subject(NameOf(plan)))
    ensures Written(Arm(d, company, role, job, plan).rows, n, company, role)
  {
    EmailWritten(d, n, company, role, NameOf(plan));
    var (e, _) := EnsureEmail(d, company, NameOf(plan));
    if plan.OnboardingPlan? {
      OnboardingWritten(e, n, company, role);
    }
  }

  lemma {:induction false} PlansWritten(d: Draft, n: nat, company: nat, role: string, job: nat, plans: seq<Plan>)
    requires Written(d.rows, n, company, role)
    requires forall k :: 0 <= k < |plans| ==> Lettered(NameOf(plans[k]), Subject(NameOf(plans[k])))
    ensures Written(ArmAll(d, company, role, job, plans).rows, n, company, role)
  {
    if plans != [] {
      var m := |plans| - 1;
      assert forall k :: 0 <= k < m ==> plans[..m][k] == plans[k];
      PlansWritten(d, n, company, role, job, plans[..m]);
      PlanWritten(ArmAll(d, company, role, job, plans[..m]), n, company, role, job, plans[m]);
    }
  }

  lemma FiveSubjects(k: nat)
    requires k < 5
    ensures Lettered(NameOf(PLANS[k]), Subject(NameOf(PLANS[k])))
  {
  }

  /**
   * Every template a build adds carries the text of its name, and the role's onboarding template carries its checklist
   * line afterwards, whether it is new or not.
   */
  lemma BuildWritesTexts(d: Draft, company: nat, role: string)
    ensures Written(Pipeline(d, company, role).rows, |d.rows|, company, role)
    ensures HasChecklist(Pipeline(d, company, role).rows, company, role)
  {
    forall k | 0 <= k < |PLANS| ensures Lettered(NameOf(PLANS[k]), Subject(NameOf(PLANS[k]))) {
      FiveSubjects(k);
    }
    var d0 := WithJob(d, company, role);
    PlansWritten(d0, |d.rows|, company, role, d.next, PLANS);
    PlansWritten(d0, |d.rows|, company, role, d.next, PLANS[..4]);
    LastPlan(ArmAll(d0, company, role, d.next, PLANS[..4]), |d.rows|, company, role, d.next);
  }

  lemma ChecklistStays(rows: seq<Row>, r: Row, company: nat, role: string)
    requires HasChecklist(rows, company, role)
    ensures HasChecklist(rows + [r], company, role)
  {
    assert forall i :: 0 <= i < |rows| ==> (rows + [r])[i] == rows[i];
  }

  lemma LastPlan(d: Draft, n: nat, company: nat, role: string, job: nat)
    requires Written(d.rows, n, company, role)
    ensures HasChecklist(ArmOnboarding(d, company, role, job).rows, company, role)
  {
    FiveSubjects(4);
    EmailWritten(d, n, company, role, ONBOARDING_WELCOME);
    var (e, email) := EnsureEmail(d, company, ONBOARDING_WELCOME);
    OnboardingWritten(e, n, company, role);
    var (f, template) := EnsureOnboarding(e, company, role);
    ChecklistStays(f.rows, Automation(Onboarding, company, job, 5, template, email, false), company, role);
  }
}
