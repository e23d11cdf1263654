/** What builds keep over any run, what a build arms, and what deleting the job takes away again. */
module HiringPipelineLaws {
  import opened PyText
  import opened Sequences
  import opened HiringRows
  import opened HiringPipeline
  import opened JobDeletion

  // ---------------------------------------------------------------- invariants

  predicate Twins(a: Row, b: Row) {
    || (a.EmailTemplate? && b.EmailTemplate? && a.company == b.company && a.name == b.name)
    || (a.OnboardingTemplate? && b.OnboardingTemplate? && a.company == b.company && a.name == b.name)
  }

  predicate Lone(rows: seq<Row>, r: Row) {
    forall i :: 0 <= i < |rows| ==> !Twins(rows[i], r)
  }

  /** No template repeats an earlier one. */
  predicate OneEach(rows: seq<Row>) {
    rows == [] || (OneEach(rows[..|rows| - 1]) && Lone(rows[..|rows| - 1], rows[|rows| - 1]))
  }

  /** That is: at most one email and one onboarding template for a company and a name. */
  lemma {:induction false} OneEachExactly(rows: seq<Row>)
    ensures OneEach(rows) <==> forall i, j :: 0 <= i < j < |rows| ==> !Twins(rows[i], rows[j])
  {
    if rows != [] {
      var n := |rows| - 1;
      var init := rows[..n];
      OneEachExactly(init);
      assert forall i :: 0 <= i < n ==> init[i] == rows[i];
    }
  }

  predicate Below(r: Row, next: nat) {
    match r
    case Automation(_, _, job, _, _, _, _) => job < next
    case Application(_, job, _, _) => job < next
    case _ => r.id < next
  }

  /** Templates are unique and the next identifier is not in use. */
  ghost predicate Sound(d: Draft) {
    OneEach(d.rows) && forall i :: 0 <= i < |d.rows| ==> Below(d.rows[i], d.next)
  }

  /** A row as a build for this company and role leaves it. */
  predicate Kept(r: Row, s: Row, company: nat, role: string) {
    s == r || (IsOnboarding(company, OnboardingName(role))(r) &&
               s == OnboardingTemplate(r.id, company, r.name, Checklist(role)))
  }

  /** No row is lost or moved. */
  ghost predicate Extends(d: Draft, e: Draft, company: nat, role: string) {
    && |d.rows| <= |e.rows| && d.next <= e.next
    && forall i :: 0 <= i < |d.rows| ==> Kept(d.rows[i], e.rows[i], company, role)
  }

  lemma ExtendsTransitive(d: Draft, e: Draft, f: Draft, company: nat, role: string)
    requires Extends(d, e, company, role) && Extends(e, f, company, role)
    ensures Extends(d, f, company, role)
  {
    forall i | 0 <= i < |d.rows| ensures Kept(d.rows[i], f.rows[i], company, role) {
      assert Kept(e.rows[i], f.rows[i], company, role);
    }
  }

  function IdAt(rows: seq<Row>, p: Row -> bool): (id: Option<nat>)
    requires forall r: Row :: p(r) ==> r.EmailTemplate? || r.OnboardingTemplate?
  {
    var i := Select(rows, p);
    if i < |rows| then Some(rows[i].id) else None
  }

  /** What a lookup by company and name finds. */
  function EmailId(rows: seq<Row>, company: nat, name: string): Option<nat> {
    IdAt(rows, IsEmail(company, name))
  }

  function OnboardingId(rows: seq<Row>, company: nat, name: string): Option<nat> {
    IdAt(rows, IsOnboarding(company, name))
  }

  /** Growth never changes what a lookup has found. */
  lemma LookupsStay(d: Draft, e: Draft, company: nat, role: string, c: nat, name: string)
    requires Extends(d, e, company, role)
    ensures EmailId(d.rows, c, name).Some? ==> EmailId(e.rows, c, name) == EmailId(d.rows, c, name)
    ensures OnboardingId(d.rows, c, name).Some? ==> OnboardingId(e.rows, c, name) == OnboardingId(d.rows, c, name)
  {
    SelectStays(d, e, company, role, IsEmail(c, name));
    SelectStays(d, e, company, role, IsOnboarding(c, name));
  }

  lemma SelectStays(d: Draft, e: Draft, company: nat, role: string, p: Row -> bool)
    requires Extends(d, e, company, role)
    requires forall r, s :: Kept(r, s, company, role) ==> p(r) == p(s)
    ensures Select(d.rows, p) < |d.rows| ==> Select(e.rows, p) == Select(d.rows, p)
  {
    var i := Select(d.rows, p);
    var j := Select(e.rows, p);
    if i < |d.rows| {
      assert forall k :: 0 <= k <= i ==> Kept(d.rows[k], e.rows[k], company, role);
    }
  }

  // ---------------------------------------------------------------- one step

  /** `p` concerns jobs, automations and applications only. */
  ghost predicate BlindToTemplates(p: Row -> bool) {
    forall r: Row ::
      p(r) ==> !r.EmailTemplate? && !r.OnboardingTemplate? && !r.AssessmentTemplate? && !r.InterviewTemplate?
  }

  function Picked(r: Row, p: Row -> bool): seq<Row> {
    if p(r) then [r] else []
  }

  lemma FilterGrows(rows: seq<Row>, r: Row, p: Row -> bool)
    ensures Filter(rows + [r], p) == Filter(rows, p) + Picked(r, p)
  {
    assert (rows + [r])[..|rows|] == rows;
  }

  lemma {:induction false} FilterUpdated(rows: seq<Row>, i: nat, r: Row, p: Row -> bool)
    requires i < |rows| && !p(rows[i]) && !p(r)
    ensures Filter(rows[i := r], p) == Filter(rows, p)
  {
    var n := |rows| - 1;
    if i == n {
      assert rows[i := r][..n] == rows[..n];
    } else {
      FilterUpdated(rows[..n], i, r, p);
      assert rows[i := r][..n] == rows[..n][i := r];
    }
  }

  /** A template that no row matches yet is added as the last row. */
  lemma TemplateAdded(d: Draft, company: nat, role: string, r: Row, q: Row -> bool, p: Row -> bool)
    requires Sound(d) && !p(r) && q(r) && Select(d.rows, q) == |d.rows|
    requires (r.EmailTemplate? || r.OnboardingTemplate?) && r.id == d.next && forall s :: Twins(s, r) ==> q(s)
    ensures var e := Draft(d.rows + [r], d.next + 1);
      && Sound(e) && Extends(d, e, company, role) && Filter(e.rows, p) == Filter(d.rows, p)
      && Select(e.rows, q) == |d.rows|
  {
    FilterGrows(d.rows, r, p);
    SelectLast(d.rows, r, q);
    OneEachGrows(d.rows, r);
    DraftGrows(d, company, role, r, d.next + 1);
  }

  lemma SelectLast(rows: seq<Row>, r: Row, q: Row -> bool)
    requires Select(rows, q) == |rows| && q(r)
    ensures Select(rows + [r], q) == |rows|
  {
    assert forall i :: 0 <= i < |rows| ==> (rows + [r])[i] == rows[i];
    assert q((rows + [r])[|rows|]);
  }

  lemma OneEachGrows(rows: seq<Row>, r: Row)
    requires OneEach(rows) && Lone(rows, r)
    ensures OneEach(rows + [r])
  {
    assert (rows + [r])[..|rows|] == rows;
  }

  lemma DraftGrows(d: Draft, company: nat, role: string, r: Row, next: nat)
    requires Sound(d) && OneEach(d.rows + [r]) && d.next <= next && Below(r, next)
    ensures Sound(Draft(d.rows + [r], next)) && Extends(d, Draft(d.rows + [r], next), company, role)
  {
  }

  lemma EmailCreated(d: Draft, company: nat, role: string, name: string, p: Row -> bool)
    requires Sound(d) && BlindToTemplates(p) && Select(d.rows, IsEmail(company, name)) == |d.rows|
    ensures var e := Draft(d.rows + [EmailTemplate(d.next, company, name, Subject(name))], d.next + 1);
      && Sound(e) && Extends(d, e, company, role) && Filter(e.rows, p) == Filter(d.rows, p)
      && EmailId(e.rows, company, name) == Some(d.next)
  {
    TemplateAdded(d, company, role, EmailTemplate(d.next, company, name, Subject(name)), IsEmail(company, name), p);
  }

  lemma EmailEnsured(d: Draft, company: nat, role: string, name: string, p: Row -> bool)
    requires Sound(d) && BlindToTemplates(p)
    ensures var (e, id) := EnsureEmail(d, company, name);
      && Sound(e) && Extends(d, e, company, role) && Filter(e.rows, p) == Filter(d.rows, p)
      && EmailId(e.rows, company, name) == Some(id)
  {
    if Select(d.rows, IsEmail(company, name)) == |d.rows| {
      EmailCreated(d, company, role, name, p);
    } else {
      ExtendsItself(d, company, role);
    }
  }

  lemma ExtendsItself(d: Draft, company: nat, role: string)
    ensures Extends(d, d, company, role)
  {
  }

  /** An onboarding template is brought up to date where it stands. */
  lemma TemplateUpdated(d: Draft, company: nat, role: string, i: nat, p: Row -> bool)
    requires Sound(d) && BlindToTemplates(p) && i < |d.rows|
    requires Select(d.rows, IsOnboarding(company, OnboardingName(role))) == i
    ensures var r := OnboardingTemplate(d.rows[i].id, company, OnboardingName(role), Checklist(role));
      var e := Draft(d.rows[i := r], d.next);
      && Sound(e) && Extends(d, e, company, role) && Filter(e.rows, p) == Filter(d.rows, p)
      && Select(e.rows, IsOnboarding(company, OnboardingName(role))) == i
  {
    var name := OnboardingName(role);
    var r := OnboardingTemplate(d.rows[i].id, company, name, Checklist(role));
    var e := Draft(d.rows[i := r], d.next);
    FilterUpdated(d.rows, i, r, p);
    UpdateKeepsTwins(d.rows, i, r);
    assert IsOnboarding(company, name)(e.rows[i]);
    assert forall k :: 0 <= k < i ==> e.rows[k] == d.rows[k];
  }

  lemma UpdateKeepsTwins(rows: seq<Row>, i: nat, r: Row)
    requires i < |rows| && OneEach(rows)
    requires forall s :: (Twins(r, s) <==> Twins(rows[i], s)) && (Twins(s, r) <==> Twins(s, rows[i]))
    ensures OneEach(rows[i := r])
  {
    OneEachExactly(rows);
    OneEachExactly(rows[i := r]);
  }

  lemma OnboardingCreated(d: Draft, company: nat, role: string, p: Row -> bool)
    requires Sound(d) && BlindToTemplates(p)
    requires Select(d.rows, IsOnboarding(company, OnboardingName(role))) == |d.rows|
    ensures var r := OnboardingTemplate(d.next, company, OnboardingName(role), Checklist(role));
      var e := Draft(d.rows + [r], d.next + 1);
      && Sound(e) && Extends(d, e, company, role) && Filter(e.rows, p) == Filter(d.rows, p)
      && OnboardingId(e.rows, company, OnboardingName(role)) == Some(d.next)
  {
    var r := OnboardingTemplate(d.next, company, OnboardingName(role), Checklist(role));
    TemplateAdded(d, company, role, r, IsOnboarding(company, OnboardingName(role)), p);
  }

  lemma OnboardingEnsured(d: Draft, company: nat, role: string, p: Row -> bool)
    requires Sound(d) && BlindToTemplates(p)
    ensures var (e, id) := EnsureOnboarding(d, company, role);
      && Sound(e) && Extends(d, e, company, role) && Filter(e.rows, p) == Filter(d.rows, p)
      && OnboardingId(e.rows, company, OnboardingName(role)) == Some(id)
  {
    var name := OnboardingName(role);
    var i := Select(d.rows, IsOnboarding(company, name));
    if i < |d.rows| {
      TemplateUpdated(d, company, role, i, p);
    } else {
      OnboardingCreated(d, company, role, p);
    }
  }

  lemma RowAdded(d: Draft, company: nat, role: string, r: Row, next: nat, p: Row -> bool)
    requires Sound(d) && d.next <= next && Below(r, next) && !r.EmailTemplate? && !r.OnboardingTemplate?
    ensures var e := Draft(d.rows + [r], next);
      Sound(e) && Extends(d, e, company, role) && Filter(e.rows, p) == Filter(d.rows, p) + Picked(r, p)
  {
    FilterGrows(d.rows, r, p);
    OneEachGrows(d.rows, r);
    DraftGrows(d, company, role, r, next);
  }

  predicate Holds(rows: seq<Row>, r: Row) {
    r in rows
  }

  /** `a` is the automation a plan asks for: it uses the templates that lookups find, or a template of its own. */
  predicate Armed(rows: seq<Row>, company: nat, role: string, job: nat, plan: Plan, a: Row) {
    match plan
    case MailPlan(stage, name) =>
      && EmailId(rows, company, name).Some?
      && var email := EmailId(rows, company, name).value;
        a == Automation(Mail, company, job, stage, email, email, true)
    case RoundPlan(kind, stage, name) =>
      && EmailId(rows, company, name).Some? && a.Automation?
      && var email := EmailId(rows, company, name).value;
        Holds(rows, RoundTemplate(kind, a.template, company, role, email)) &&
        a == Automation(kind, company, job, stage, a.template, email, true)
    case OnboardingPlan =>
      && EmailId(rows, company, ONBOARDING_WELCOME).Some? && OnboardingId(rows, company, OnboardingName(role)).Some?
      && a == Automation(Onboarding, company, job, 5, OnboardingId(rows, company, OnboardingName(role)).value,
                         EmailId(rows, company, ONBOARDING_WELCOME).value, false)
  }

  /** A build for any company and role leaves an armed stage armed. */
  lemma ArmedStays(d: Draft, e: Draft, host: nat, builder: string,
                   company: nat, role: string, job: nat, plan: Plan, a: Row)
    requires Extends(d, e, host, builder) && Armed(d.rows, company, role, job, plan, a)
    ensures Armed(e.rows, company, role, job, plan, a)
  {
    match plan
    case MailPlan(stage, name) =>
      LookupsStay(d, e, host, builder, company, name);
    case RoundPlan(kind, stage, name) =>
      LookupsStay(d, e, host, builder, company, name);
      var r := RoundTemplate(kind, a.template, company, role, EmailId(d.rows, company, name).value);
      var i :| 0 <= i < |d.rows| && d.rows[i] == r;
      assert Kept(d.rows[i], e.rows[i], host, builder);
    case OnboardingPlan =>
      LookupsStay(d, e, host, builder, company, ONBOARDING_WELCOME);
      LookupsStay(d, e, host, builder, company, OnboardingName(role));
  }

  /** From `d` to `e` one plan is armed, by the last row. */
  ghost predicate Arms(d: Draft, e: Draft, company: nat, role: string, job: nat, plan: Plan, p: Row -> bool) {
    && Sound(e) && Extends(d, e, company, role) && |e.rows| > 0
    && var a := e.rows[|e.rows| - 1];
      Armed(e.rows, company, role, job, plan, a) && Filter(e.rows, p) == Filter(d.rows, p) + Picked(a, p)
  }

  lemma PlanArmed(d: Draft, company: nat, role: string, job: nat, plan: Plan, p: Row -> bool)
    requires Sound(d) && job < d.next && BlindToTemplates(p)
    ensures Arms(d, Arm(d, company, role, job, plan), company, role, job, plan, p)
  {
    match plan
    case MailPlan(stage, name) =>
      EmailEnsured(d, company, role, name, p);
      var (e, email) := EnsureEmail(d, company, name);
      AutomationAdded(d, e, company, role, job, plan, Automation(Mail, company, job, stage, email, email, true), p);
    case RoundPlan(kind, stage, name) =>
      RoundArmed(d, company, role, job, kind, stage, name, p);
    case OnboardingPlan =>
      OnboardingArmed(d, company, role, job, p);
  }

  lemma RoundArmed(d: Draft, company: nat, role: string, job: nat, kind: Kind, stage: nat, name: string, p: Row -> bool)
    requires Sound(d) && job < d.next && BlindToTemplates(p)
    ensures Arms(d, ArmRound(d, company, role, job, kind, stage, name),
                 company, role, job, RoundPlan(kind, stage, name), p)
  {
    EmailEnsured(d, company, role, name, p);
    var (e, email) := EnsureEmail(d, company, name);
    RoundAdded(d, e, company, role, job, kind, stage, name, email, p);
  }

  lemma RoundAdded(d: Draft, e: Draft, company: nat, role: string, job: nat, kind: Kind, stage: nat, name: string,
                   email: nat, p: Row -> bool)
    requires Sound(e) && Extends(d, e, company, role) && job < e.next && BlindToTemplates(p)
    requires Filter(e.rows, p) == Filter(d.rows, p) && EmailId(e.rows, company, name) == Some(email)
    ensures
      var made := RoundTemplate(kind, e.next, company, role, email);
      var automation := Automation(kind, company, job, stage, e.next, email, true);
      Arms(d, Draft(e.rows + [made] + [automation], e.next + 1), company, role, job, RoundPlan(kind, stage, name), p)
  {
    var made := RoundTemplate(kind, e.next, company, role, email);
    OwnTemplate(kind, e.next, company, role, email, p);
    OwnTemplateAdded(d, e, company, role, name, email, made, p);
    RoundFinished(d, Draft(e.rows + [made], e.next + 1), company, role, job, kind, stage, name, email, e.next, p);
  }

  lemma OwnTemplate(kind: Kind, id: nat, company: nat, role: string, email: nat, p: Row -> bool)
    requires BlindToTemplates(p)
    ensures var made := RoundTemplate(kind, id, company, role, email);
      (made.AssessmentTemplate? || made.InterviewTemplate?) && made.id == id && !p(made)
  {
  }

  lemma RoundFinished(d: Draft, f: Draft, company: nat, role: string, job: nat, kind: Kind, stage: nat, name: string,
                      email: nat, id: nat, p: Row -> bool)
    requires Sound(f) && Extends(d, f, company, role) && Filter(f.rows, p) == Filter(d.rows, p)
    requires EmailId(f.rows, company, name) == Some(email) && job < f.next
    requires Holds(f.rows, RoundTemplate(kind, id, company, role, email))
    ensures Arms(d, Draft(f.rows + [Automation(kind, company, job, stage, id, email, true)], f.next),
                 company, role, job, RoundPlan(kind, stage, name), p)
  {
    RoundLinked(f, company, role, job, kind, stage, name, email, id);
    AutomationAdded(d, f, company, role, job, RoundPlan(kind, stage, name),
                    Automation(kind, company, job, stage, id, email, true), p);
  }

  lemma OwnTemplateAdded(d: Draft, e: Draft, company: nat, role: string, name: string, email: nat, made: Row,
                         p: Row -> bool)
    requires Sound(e) && Extends(d, e, company, role)
    requires (made.AssessmentTemplate? || made.InterviewTemplate?) && made.id == e.next && !p(made)
    requires Filter(e.rows, p) == Filter(d.rows, p) && EmailId(e.rows, company, name) == Some(email)
    ensures var f := Draft(e.rows + [made], e.next + 1);
      && Sound(f) && Extends(d, f, company, role) && Filter(f.rows, p) == Filter(d.rows, p)
      && EmailId(f.rows, company, name) == Some(email) && Holds(f.rows, made)
  {
    var f := Draft(e.rows + [made], e.next + 1);
    RowAdded(e, company, role, made, e.next + 1, p);
    assert f.rows[|e.rows|] == made;
    ExtendsTransitive(d, e, f, company, role);
    LookupsStay(e, f, company, role, company, name);
  }

  lemma RoundLinked(f: Draft, company: nat, role: string, job: nat, kind: Kind, stage: nat, name: string, email: nat,
                    id: nat)
    requires EmailId(f.rows, company, name) == Some(email)
    requires Holds(f.rows, RoundTemplate(kind, id, company, role, email))
    ensures Armed(f.rows, company, role, job, RoundPlan(kind, stage, name),
                  Automation(kind, company, job, stage, id, email, true))
  {
  }

  lemma OnboardingArmed(d: Draft, company: nat, role: string, job: nat, p: Row -> bool)
    requires Sound(d) && job < d.next && BlindToTemplates(p)
    ensures Arms(d, ArmOnboarding(d, company, role, job), company, role, job, OnboardingPlan, p)
  {
    EmailEnsured(d, company, role, ONBOARDING_WELCOME, p);
    var (e, email) := EnsureEmail(d, company, ONBOARDING_WELCOME);
    OnboardingEnsured(e, company, role, p);
    var (f, template) := EnsureOnboarding(e, company, role);
    ExtendsTransitive(d, e, f, company, role);
    LookupsStay(e, f, company, role, company, ONBOARDING_WELCOME);
    AutomationAdded(d, f, company, role, job, OnboardingPlan,
                    Automation(Onboarding, company, job, 5, template, email, false), p);
  }

  lemma AutomationAdded(d: Draft, e: Draft, company: nat, role: string, job: nat, plan: Plan, a: Row, p: Row -> bool)
    requires Sound(e) && Extends(d, e, company, role) && a.Automation? && a.job < e.next
    requires Filter(e.rows, p) == Filter(d.rows, p) && Armed(e.rows, company, role, job, plan, a)
    ensures Arms(d, Draft(e.rows + [a], e.next), company, role, job, plan, p)
  {
    var f := Draft(e.rows + [a], e.next);
    RowAdded(e, company, role, a, e.next, p);
    ExtendsTransitive(d, e, f, company, role);
    ArmedStays(e, f, company, role, company, role, job, plan, a);
  }

  // ---------------------------------------------------------------- the whole build

  /** The automations of a job, in the order in which they were added. */
  function AutomationsOf(rows: seq<Row>, job: nat): seq<Row> {
    Filter(rows, Not(NotAutomationOf(job)))
  }

  /** The job has exactly the automations of the plans. */
  ghost predicate FullyArmed(rows: seq<Row>, company: nat, role: string, job: nat, plans: seq<Plan>) {
    var autos := AutomationsOf(rows, job);
    |autos| == |plans| && forall k :: 0 <= k < |plans| ==> Armed(rows, company, role, job, plans[k], autos[k])
  }

  lemma FullyArmedStays(d: Draft, e: Draft, host: nat, builder: string,
                        company: nat, role: string, job: nat, plans: seq<Plan>)
    requires Extends(d, e, host, builder) && AutomationsOf(e.rows, job) == AutomationsOf(d.rows, job)
    requires FullyArmed(d.rows, company, role, job, plans)
    ensures FullyArmed(e.rows, company, role, job, plans)
  {
    var autos := AutomationsOf(d.rows, job);
    forall k | 0 <= k < |plans| ensures Armed(e.rows, company, role, job, plans[k], autos[k]) {
      ArmedStays(d, e, host, builder, company, role, job, plans[k], autos[k]);
    }
  }

  lemma {:induction false} AllArmed(d: Draft, company: nat, role: string, job: nat, plans: seq<Plan>)
    requires Sound(d) && job < d.next && AutomationsOf(d.rows, job) == []
    ensures var e := ArmAll(d, company, role, job, plans);
      Sound(e) && Extends(d, e, company, role) && FullyArmed(e.rows, company, role, job, plans)
  {
    if plans != [] {
      var n := |plans| - 1;
      AllArmed(d, company, role, job, plans[..n]);
      var e := ArmAll(d, company, role, job, plans[..n]);
      var f := ArmAll(d, company, role, job, plans);
      PlanArmed(e, company, role, job, plans[n], Not(NotAutomationOf(job)));
      NextArmed(e, f, company, role, job, plans, n);
      ExtendsTransitive(d, e, f, company, role);
    }
  }

  lemma NextArmed(e: Draft, f: Draft, company: nat, role: string, job: nat, plans: seq<Plan>, n: nat)
    requires n == |plans| - 1 && FullyArmed(e.rows, company, role, job, plans[..n])
    requires Arms(e, f, company, role, job, plans[n], Not(NotAutomationOf(job)))
    ensures FullyArmed(f.rows, company, role, job, plans)
  {
    var was := AutomationsOf(e.rows, job);
    var a := f.rows[|f.rows| - 1];
    assert AutomationsOf(f.rows, job) == was + [a];
    forall k | 0 <= k < n ensures Armed(f.rows, company, role, job, plans[k], was[k]) {
      assert plans[..n][k] == plans[k];
      ArmedStays(e, f, company, role, company, role, job, plans[k], was[k]);
    }
  }

  /** Whatever is not about templates or this job's automations is not touched. */
  lemma {:induction false} ArmingElsewhere(d: Draft, company: nat, role: string, job: nat, plans: seq<Plan>,
                                           p: Row -> bool)
    requires Sound(d) && job < d.next && BlindToTemplates(p)
    requires forall r: Row :: IsAutomationOf(r, job) ==> !p(r)
    ensures var e := ArmAll(d, company, role, job, plans);
      Sound(e) && Extends(d, e, company, role) && Filter(e.rows, p) == Filter(d.rows, p)
  {
    if plans != [] {
      var n := |plans| - 1;
      ArmingElsewhere(d, company, role, job, plans[..n], p);
      var e := ArmAll(d, company, role, job, plans[..n]);
      var f := ArmAll(d, company, role, job, plans);
      PlanArmed(e, company, role, job, plans[n], p);
      ExtendsTransitive(d, e, f, company, role);
    }
  }

  /** No row belongs to a job that does not exist yet. */
  lemma {:induction false} NothingArmedYet(rows: seq<Row>, next: nat)
    requires forall i :: 0 <= i < |rows| ==> Below(rows[i], next)
    ensures AutomationsOf(rows, next) == []
  {
    FilterCounts(rows, Not(NotAutomationOf(next)));
  }

  /**
   * A build keeps templates unique, loses no row, and arms exactly one automation for each of the five stages,
   * wired to the templates that lookups find.
   */
  lemma BuildArms(d: Draft, company: nat, role: string)
    requires Sound(d)
    ensures var e := Pipeline(d, company, role);
      && Sound(e) && Extends(d, e, company, role) && FullyArmed(e.rows, company, role, d.next, PLANS)
      && e.rows[|d.rows|] == Job(d.next, company, role, false)
  {
    var d0 := WithJob(d, company, role);
    var job := Job(d.next, company, role, false);
    RowAdded(d, company, role, job, d0.next, Not(NotAutomationOf(d.next)));
    NothingArmedYet(d.rows, d.next);
    AllArmed(d0, company, role, d.next, PLANS);
    var e := Pipeline(d, company, role);
    ExtendsTransitive(d, d0, e, company, role);
    assert Kept(d0.rows[|d.rows|], e.rows[|d.rows|], company, role);
  }

  /** Of everything but templates and its own automations, a build adds its job only. */
  lemma BuildAddsOneJob(d: Draft, company: nat, role: string, p: Row -> bool)
    requires Sound(d) && BlindToTemplates(p)
    requires forall r: Row :: IsAutomationOf(r, d.next) ==> !p(r)
    ensures Filter(Pipeline(d, company, role).rows, p) ==
      Filter(d.rows, p) + Picked(Job(d.next, company, role, false), p)
  {
    var d0 := WithJob(d, company, role);
    RowAdded(d, company, role, Job(d.next, company, role, false), d0.next, p);
    ArmingElsewhere(d0, company, role, d.next, PLANS, p);
  }

  // ---------------------------------------------------------------- build, then delete

  function NotTemplate(): Row -> bool {
    (r: Row) => r.Job? || r.Automation? || r.Application?
  }

  function Survives(job: nat): Row -> bool {
    (r: Row) => NotTemplate()(r) && NotAutomationOf(job)(r)
  }

  lemma SurvivingRows(d: Draft, company: nat, role: string)
    requires Sound(d)
    ensures Filter(Filter(Pipeline(d, company, role).rows, NotAutomationOf(d.next)), NotTemplate())
      == Filter(d.rows, NotTemplate()) + [Job(d.next, company, role, false)]
  {
    FilterTwice(Pipeline(d, company, role).rows, NotAutomationOf(d.next), NotTemplate(), Survives(d.next));
    BuildAddsOneJob(d, company, role, Survives(d.next));
    FilterSame(d.rows, Survives(d.next), NotTemplate());
  }

  lemma FateOfRows(rows: seq<Row>, company: nat, role: string, job: nat)
    requires forall i :: 0 <= i < |rows| ==> Below(rows[i], job)
    ensures MapRows(rows + [Job(job, company, role, false)], FateOf(job)) == rows + [Job(job, company, role, true)]
  {
    assert forall i :: 0 <= i < |rows| ==> Fate(rows[i], job) == rows[i];
  }

  /** Deleting a job undoes its build up to templates: all that remains is the deleted job itself. */
  lemma DeleteUndoesBuild(d: Draft, company: nat, role: string)
    requires Sound(d)
    ensures Filter(AfterStatements(Pipeline(d, company, role).rows, d.next), NotTemplate())
      == Filter(d.rows, NotTemplate()) + [Job(d.next, company, role, true)]
  {
    DeletedRows(Pipeline(d, company, role).rows, d.next);
    SurvivingRows(d, company, role);
    FilterSatisfies(d.rows, NotTemplate());
    FateOfRows(Filter(d.rows, NotTemplate()), company, role, d.next);
  }

  lemma DeletedRows(rows: seq<Row>, job: nat)
    ensures Filter(AfterStatements(rows, job), NotTemplate())
      == MapRows(Filter(Filter(rows, NotAutomationOf(job)), NotTemplate()), FateOf(job))
  {
    DeletionExactly(rows, job);
    FilterMapped(Filter(rows, NotAutomationOf(job)), FateOf(job), NotTemplate());
  }
}
