/** Any number of builds and deletions on one session: what they leave, and what every such run keeps. */
module HiringPipelineRuns {
  import opened PyText
  import opened Sequences
  import opened Sessions
  import opened HiringRows
  import opened HiringPipeline
  import opened HiringPipelineLaws
  import opened JobDeletion
  import opened JobDeletionLaws

  /**
   * A build that commits, or one that is rolled back after using up some identifiers; a deletion that commits, or one
   * that changes nothing.
   */
  datatype Event =
    | Build(company: nat, role: string, committed: bool, burnt: nat)
    | Deletion(job: nat, committed: bool)

  function AfterOne(d: Draft, event: Event): Draft {
    match event
    case Build(company, role, committed, burnt) =>
      if committed then Pipeline(d, company, role) else Draft(d.rows, d.next + burnt)
    case Deletion(job, committed) =>
      if committed then Draft(AfterStatements(d.rows, job), d.next) else d
  }

  function After(d: Draft, events: seq<Event>): Draft {
    if events == [] then d else AfterOne(After(d, events[..|events| - 1]), events[|events| - 1])
  }

  predicate Deletes(event: Event, job: nat) {
    event.Deletion? && event.committed && event.job == job
  }

  /** The run deletes other jobs only. */
  ghost predicate Spares(events: seq<Event>, job: nat) {
    forall i :: 0 <= i < |events| ==> !Deletes(events[i], job)
  }

  /** Templates stay unique over any run, and a lookup that found a template always finds the same one. */
  lemma {:induction false} RunsKeepTemplates(d: Draft, events: seq<Event>, company: nat, name: string)
    requires Sound(d)
    ensures var e := After(d, events);
      && Sound(e) && d.next <= e.next
      && (EmailId(d.rows, company, name).Some? ==> EmailId(e.rows, company, name) == EmailId(d.rows, company, name))
      && (OnboardingId(d.rows, company, name).Some? ==>
           OnboardingId(e.rows, company, name) == OnboardingId(d.rows, company, name))
  {
    if events != [] {
      var n := |events| - 1;
      RunsKeepTemplates(d, events[..n], company, name);
      OneKeepsTemplates(After(d, events[..n]), events[n], company, name);
    }
  }

  lemma OneKeepsTemplates(d: Draft, event: Event, company: nat, name: string)
    requires Sound(d)
    ensures var e := AfterOne(d, event);
      && Sound(e) && d.next <= e.next
      && (EmailId(d.rows, company, name).Some? ==> EmailId(e.rows, company, name) == EmailId(d.rows, company, name))
      && (OnboardingId(d.rows, company, name).Some? ==>
           OnboardingId(e.rows, company, name) == OnboardingId(d.rows, company, name))
  {
    match event
    case Build(host, builder, committed, _) =>
      if committed {
        BuildArms(d, host, builder);
        LookupsStay(d, Pipeline(d, host, builder), host, builder, company, name);
      }
    case Deletion(job, committed) =>
      if committed {
        DeletionKeepsSound(d, job);
        DeletionKeepsLookups(d.rows, job, company, name);
      }
  }

  /** Builds and deletions of other jobs leave the automations of a job alone. */
  lemma {:induction false} RunsKeepAutomations(d: Draft, events: seq<Event>, job: nat)
    requires Sound(d) && job < d.next && Spares(events, job)
    ensures AutomationsOf(After(d, events).rows, job) == AutomationsOf(d.rows, job)
  {
    if events != [] {
      var n := |events| - 1;
      SparesPrefix(events, job);
      RunsKeepAutomations(d, events[..n], job);
      RunsKeepTemplates(d, events[..n], 0, "");
      OneKeepsAutomations(After(d, events[..n]), events[n], job);
    }
  }

  lemma SparesPrefix(events: seq<Event>, job: nat)
    requires events != [] && Spares(events, job)
    ensures Spares(events[..|events| - 1], job) && !Deletes(events[|events| - 1], job)
  {
  }

  lemma OneKeepsAutomations(d: Draft, event: Event, job: nat)
    requires Sound(d) && job < d.next && !Deletes(event, job)
    ensures AutomationsOf(AfterOne(d, event).rows, job) == AutomationsOf(d.rows, job)
  {
    match event
    case Build(host, builder, committed, _) =>
      if committed {
        BuildAddsOneJob(d, host, builder, Not(NotAutomationOf(job)));
      }
    case Deletion(other, committed) =>
      if committed {
        DeletionSparesOthers(d.rows, other, job);
      }
  }

  /** A job stays fully armed until it is deleted: its automations stay, wired to what lookups find. */
  lemma {:induction false} RunsKeepArmed(d: Draft, events: seq<Event>, company: nat, role: string, job: nat)
    requires Sound(d) && job < d.next && FullyArmed(d.rows, company, role, job, PLANS) && Spares(events, job)
    ensures FullyArmed(After(d, events).rows, company, role, job, PLANS)
  {
    if events != [] {
      var n := |events| - 1;
      SparesPrefix(events, job);
      RunsKeepArmed(d, events[..n], company, role, job);
      RunsKeepTemplates(d, events[..n], company, "");
      OneKeepsArmed(After(d, events[..n]), events[n], company, role, job);
    }
  }

  lemma OneKeepsArmed(d: Draft, event: Event, company: nat, role: string, job: nat)
    requires Sound(d) && job < d.next && FullyArmed(d.rows, company, role, job, PLANS) && !Deletes(event, job)
    ensures FullyArmed(AfterOne(d, event).rows, company, role, job, PLANS)
  {
    match event
    case Build(host, builder, committed, _) =>
      if committed {
        BuildArms(d, host, builder);
        BuildAddsOneJob(d, host, builder, Not(NotAutomationOf(job)));
        FullyArmedStays(d, Pipeline(d, host, builder), host, builder, company, role, job, PLANS);
      }
    case Deletion(other, committed) =>
      if committed {
        DeletionKeepsArmed(d.rows, other, company, role, job);
      }
  }

  /** Once a job is deleted, no run ever arms it again. */
  lemma {:induction false} DeletedStaysDisarmed(d: Draft, job: nat, events: seq<Event>)
    requires Sound(d) && job < d.next
    ensures AutomationsOf(After(AfterOne(d, Deletion(job, true)), events).rows, job) == []
  {
    var e := AfterOne(d, Deletion(job, true));
    DeletionKeepsSound(d, job);
    if events == [] {
      DeletionDisarms(d.rows, job);
    } else {
      var n := |events| - 1;
      DeletedStaysDisarmed(d, job, events[..n]);
      RunsKeepTemplates(e, events[..n], 0, "");
      var f := After(e, events[..n]);
      if Deletes(events[n], job) {
        DeletionDisarms(f.rows, job);
      } else {
        OneKeepsAutomations(f, events[n], job);
      }
    }
  }

  function EmailName(plan: Plan): string {
    match plan
    case MailPlan(_, name) => name
    case RoundPlan(_, _, name) => name
    case OnboardingPlan => ONBOARDING_WELCOME
  }

  lemma RunThenBuild(d: Draft, events: seq<Event>, company: nat, role: string)
    ensures After(d, events + [Build(company, role, true, 0)]) == Pipeline(After(d, events), company, role)
  {
    var all := events + [Build(company, role, true, 0)];
    assert all[..|all| - 1] == events;
  }

  /**
   * Two committed builds of a company, with any builds and deletions of other jobs between them, use the same five
   * email templates, and the same onboarding template when their roles agree.
   */
  lemma RebuildsShareTemplates(d: Draft, company: nat, role: string, between: seq<Event>, later: string)
    requires Sound(d) && Spares(between, d.next)
    ensures var f := After(Pipeline(d, company, role), between);
      SameEmails(Pipeline(f, company, later).rows, d.next, f.next, role == later)
  {
    var e := Pipeline(d, company, role);
    BuildArms(d, company, role);
    assert Below(e.rows[|d.rows|], e.next);
    SharedLater(e, between, company, role, later, d.next);
  }

  lemma SharedLater(e: Draft, between: seq<Event>, company: nat, role: string, later: string, job: nat)
    requires Sound(e) && job < e.next && FullyArmed(e.rows, company, role, job, PLANS) && Spares(between, job)
    ensures var f := After(e, between);
      var g := Pipeline(f, company, later);
      SameEmails(g.rows, job, f.next, role == later)
  {
    var f := After(e, between);
    var all := between + [Build(company, later, true, 0)];
    RunThenBuild(e, between, company, later);
    RunsKeepTemplates(e, between, company, "");
    BuildArms(f, company, later);
    RunsKeepAutomations(e, all, job);
    SharedByPlan(e, Pipeline(f, company, later), all, company, role, later, job, f.next);
  }

  /** Two jobs have five automations each, with the same email templates and perhaps the same onboarding template. */
  predicate SameEmails(rows: seq<Row>, job: nat, other: nat, sameRole: bool) {
    var first, second := AutomationsOf(rows, job), AutomationsOf(rows, other);
    && |first| == |second| == 5
    && (forall k :: 0 <= k < 5 ==> first[k].Automation? && second[k].Automation? && first[k].email == second[k].email)
    && (sameRole ==> first[4].template == second[4].template)
  }

  lemma SharedByPlan(e: Draft, g: Draft, events: seq<Event>, company: nat, role: string, later: string,
                     job: nat, other: nat)
    requires Sound(e) && g == After(e, events) && AutomationsOf(g.rows, job) == AutomationsOf(e.rows, job)
    requires FullyArmed(e.rows, company, role, job, PLANS) && FullyArmed(g.rows, company, later, other, PLANS)
    ensures SameEmails(g.rows, job, other, role == later)
  {
    var first, second := AutomationsOf(g.rows, job), AutomationsOf(g.rows, other);
    forall k | 0 <= k < 5
      ensures first[k].Automation? && second[k].Automation? && first[k].email == second[k].email
      ensures role == later && k == 4 ==> first[k].template == second[k].template
    {
      SameTemplates(e, g, events, company, role, later, job, other, PLANS[k], first[k], second[k]);
    }
  }

  /** Automations of one plan, armed before and after a run, use the same templates. */
  lemma SameTemplates(e: Draft, g: Draft, events: seq<Event>, company: nat, role: string, later: string,
                      job: nat, other: nat, plan: Plan, a: Row, b: Row)
    requires Sound(e) && g == After(e, events)
    requires Armed(e.rows, company, role, job, plan, a) && Armed(g.rows, company, later, other, plan, b)
    ensures a.Automation? && b.Automation? && a.email == b.email
    ensures role == later && plan.OnboardingPlan? ==> a.template == b.template
  {
    RunsKeepTemplates(e, events, company, EmailName(plan));
    RunsKeepTemplates(e, events, company, OnboardingName(role));
    ArmedByName(e.rows, company, role, job, plan, a);
    ArmedByName(g.rows, company, later, other, plan, b);
  }

  lemma ArmedByName(rows: seq<Row>, company: nat, role: string, job: nat, plan: Plan, a: Row)
    requires Armed(rows, company, role, job, plan, a)
    ensures a.Automation? && EmailId(rows, company, EmailName(plan)) == Some(a.email)
    ensures plan.OnboardingPlan? ==> OnboardingId(rows, company, OnboardingName(role)) == Some(a.template)
  {
  }

  // ---------------------------------------------------------------- the runs are those of the tool

  /** The arguments of a call; whether its questions can be generated, or the identifier if the text is one. */
  datatype Request =
    | BuildRequest(company: nat, roleTitle: string, generated: bool)
    | DeleteRequest(company: nat, jobId: Option<nat>)

  datatype Reply = BuildReply(built: HiringPipeline.Outcome) | DeleteReply(deleted: JobDeletion.Outcome)

  /** A call on record: committed exactly when the tool reported success. */
  predicate Records(event: Event, request: Request, reply: Reply) {
    match (request, reply)
    case (BuildRequest(company, title, _), BuildReply(outcome)) =>
      event.Build? && event.company == company && event.role == Strip(title) && event.committed == outcome.Built?
    case (DeleteRequest(_, jobId), DeleteReply(outcome)) =>
      event.Deletion? && event.committed == outcome.Deleted? && (outcome.Deleted? ==> jobId == Some(event.job))
    case _ => false
  }

  /** The call failed and so did its rollback. */
  predicate Stuck(reply: Reply) {
    reply == BuildReply(HiringPipeline.Failed(false)) || reply == DeleteReply(JobDeletion.Failed(false))
  }

  lemma AfterNext(d: Draft, events: seq<Event>, event: Event)
    ensures After(d, events + [event]) == AfterOne(After(d, events), event)
  {
    var all := events + [event];
    assert all[..|all| - 1] == events;
  }

  /** One call of a tool on an idle session. */
  method RunOne(session: Session<Row>, request: Request) returns (reply: Reply, ghost event: Event)
    requires session.Idle()
    modifies session
    ensures Records(event, request, reply)
    ensures Draft(session.committed, session.nextId) == AfterOne(old(DraftOf(session)), event)
    ensures session.Idle() || Stuck(reply)
  {
    assert DraftOf(session).rows == session.committed;
    ghost var before := session.nextId;
    match request
    case BuildRequest(company, title, generated) =>
      var outcome := BuildPipeline(session, company, title, generated);
      reply := BuildReply(outcome);
      event := Build(company, Strip(title), outcome.Built?, if outcome.Built? then 0 else session.nextId - before);
      assert outcome.Built? ==> DraftOf(session).rows == session.committed;
    case DeleteRequest(company, jobId) =>
      var outcome := DeleteJob(session, company, jobId);
      reply := DeleteReply(outcome);
      event := Deletion(jobId.GetOr(0), outcome.Deleted?);
  }

  /** What the calls so far have left on record. */
  ghost predicate Journal(events: seq<Event>, requests: seq<Request>, replies: seq<Reply>) {
    && |events| == |replies| <= |requests|
    && forall i :: 0 <= i < |events| ==> Records(events[i], requests[i], replies[i])
  }

  predicate NeverStuck(replies: seq<Reply>) {
    forall i :: 0 <= i < |replies| ==> !Stuck(replies[i])
  }

  lemma JournalNext(events: seq<Event>, requests: seq<Request>, replies: seq<Reply>, event: Event, reply: Reply)
    requires Journal(events, requests, replies) && |events| < |requests|
    requires Records(event, requests[|events|], reply)
    ensures Journal(events + [event], requests, replies + [reply])
  {
  }

  /**
   * Calls one after another on an idle session, until one cannot even be rolled back: what is stored, and the next
   * identifier, are those of the recorded run.
   */
  method RunRequests(session: Session<Row>, requests: seq<Request>)
    returns (replies: seq<Reply>, ghost events: seq<Event>)
    requires session.Idle()
    modifies session
    ensures Journal(events, requests, replies)
    ensures Draft(session.committed, session.nextId) == After(old(DraftOf(session)), events)
    ensures NeverStuck(replies) ==> session.Idle() && |replies| == |requests|
  {
    replies, events := [], [];
    ghost var start := DraftOf(session);
    assert start.rows == session.committed;
    for i := 0 to |requests|
      invariant session.Idle() && |replies| == i
      invariant Journal(events, requests, replies)
      invariant Draft(session.committed, session.nextId) == After(start, events)
    {
      assert DraftOf(session) == After(start, events);
      var reply;
      ghost var event;
      reply, event := RunOne(session, requests[i]);
      AfterNext(start, events, event);
      JournalNext(events, requests, replies, event, reply);
      replies, events := replies + [reply], events + [event];
      if Stuck(reply) {
        assert replies[i] == reply;
        return;
      }
    }
  }
}
