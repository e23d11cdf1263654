/** What changes to groups and to users' direct roles do to everybody's permissions. */
module GroupAccess {
  import opened PyText
  import opened Permissions

  datatype World = World(users: map<nat, User>, groups: map<nat, Group>)

  /** Requests of the group and team endpoints, made by a caller of the company. */
  datatype Step =
    | SetMembers(company: nat, group: nat, members: set<nat>)
    | SetRoles(company: nat, group: nat, roles: seq<Role>)
    | DeleteGroup(company: nat, group: nat)
    | CreateGroup(company: nat, group: nat)
    | AddUser(company: nat, user: nat, roles: seq<Role>)
    | Reassign(company: nat, user: nat, roles: seq<Role>)
    | RemoveUser(company: nat, user: nat, caller: nat)

  predicate OnGroup(step: Step) {
    step.SetMembers? || step.SetRoles? || step.DeleteGroup?
  }

  /** Role identifiers were given, but none of a role that is on offer. */
  predicate NoneOffered(roles: seq<Role>, company: nat) {
    roles != [] && Offered(roles, company) == []
  }

  predicate OwnUser(w: World, company: nat, user: nat) {
    user in w.users && w.users[user].company == company
  }

  /**
   * Whether a step takes effect: a group must be live and of the caller's company, a user of that company, new
   * ones must be new, offered roles must exist, and nobody removes themselves.
   */
  predicate Found(w: World, step: Step) {
    match step
    case CreateGroup(_, group) => group !in w.groups
    case AddUser(company, user, roles) => user !in w.users && !NoneOffered(roles, company)
    case Reassign(company, user, roles) => OwnUser(w, company, user) && !NoneOffered(roles, company)
    case RemoveUser(company, user, caller) => OwnUser(w, company, user) && user != caller
    case _ => step.group in w.groups && w.groups[step.group].company == step.company && !w.groups[step.group].deleted
  }

  /** Only live users of the company become members. */
  function Admitted(w: World, company: nat, members: set<nat>): set<nat> {
    set u | u in members && u in w.users && w.users[u].company == company && !w.users[u].deleted
  }

  /** Only roles of the company, and system roles, are granted. */
  function Offered(roles: seq<Role>, company: nat): seq<Role> {
    if roles == [] then []
    else
      var n := |roles| - 1;
      Offered(roles[..n], company) +
      (if roles[n].tenant == None || roles[n].tenant == Some(company) then [roles[n]] else [])
  }

  function Changed(w: World, step: Step): Group
    requires OnGroup(step) && Found(w, step)
  {
    var g := w.groups[step.group];
    if step.SetMembers? then Group(g.company, g.roles, Admitted(w, step.company, step.members), g.deleted)
    else if step.SetRoles? then Group(g.company, Offered(step.roles, step.company), g.members, g.deleted)
    else Group(g.company, g.roles, g.members, true)
  }

  /** The memberships of a removed user go with the user. */
  function Without(groups: map<nat, Group>, user: nat): map<nat, Group> {
    map id | id in groups ::
      Group(groups[id].company, groups[id].roles, groups[id].members - {user}, groups[id].deleted)
  }

  /** A request that is refused changes nothing. */
  function After(w: World, step: Step): World {
    if !Found(w, step) then w
    else
      match step
      case CreateGroup(company, group) => World(w.users, w.groups[group := Group(company, [], {}, false)])
      case AddUser(company, user, roles) =>
        World(w.users[user := User(company, false, Offered(roles, company))], w.groups)
      case Reassign(company, user, roles) =>
        World(w.users[user := User(company, w.users[user].deleted, Offered(roles, company))], w.groups)
      case RemoveUser(_, user, _) => World(w.users - {user}, Without(w.groups, user))
      case _ => World(w.users, w.groups[step.group := Changed(w, step)])
  }

  function Run(w: World, steps: seq<Step>): World {
    if steps == [] then w else After(Run(w, steps[..|steps| - 1]), steps[|steps| - 1])
  }

  // ---------------------------------------------------------------- who may do what

  predicate Direct(w: World, u: nat, p: Permission) {
    u in w.users && Grants(w.users[u].roles, p)
  }

  predicate Gives(g: Group, u: nat, p: Permission) {
    !g.deleted && u in g.members && Grants(g.roles, p)
  }

  predicate May(w: World, u: nat, p: Permission) {
    u in w.users && (Direct(w, u, p) || exists id :: id in w.groups && Gives(w.groups[id], u, p))
  }

  /** Some group other than `not` gives the permission. */
  predicate OtherGives(w: World, not: nat, u: nat, p: Permission) {
    exists id :: id in w.groups && id != not && Gives(w.groups[id], u, p)
  }

  /** The groups loaded with the user, in any order and with any repetition. */
  ghost predicate GroupsOf(w: World, u: nat, groups: seq<Group>) {
    && (forall i :: 0 <= i < |groups| ==>
         exists id :: id in w.groups && w.groups[id] == groups[i] && u in w.groups[id].members)
    && (forall id :: id in w.groups && u in w.groups[id].members ==> w.groups[id] in groups)
  }

  /** The permission check decides `May`, in whatever order the user's groups are loaded. */
  lemma CheckDecides(w: World, u: nat, groups: seq<Group>, p: Permission)
    requires u in w.users && GroupsOf(w, u, groups)
    ensures Allowed(w.users[u].roles, groups, p) <==> May(w, u, p)
  {
    forall id | id in w.groups && Gives(w.groups[id], u, p) ensures Allowed(w.users[u].roles, groups, p) {
      var i :| 0 <= i < |groups| && groups[i] == w.groups[id];
    }
    forall i | 0 <= i < |groups| && !groups[i].deleted && Grants(groups[i].roles, p) ensures May(w, u, p) {
      var id :| id in w.groups && w.groups[id] == groups[i] && u in w.groups[id].members;
    }
  }

  // ---------------------------------------------------------------- one step

  /** A change of a group takes a permission away if and only if that group alone gave it and no longer does. */
  lemma LossExactly(w: World, step: Step, u: nat, p: Permission)
    requires OnGroup(step)
    ensures May(w, u, p) && !May(After(w, step), u, p) <==>
      (u in w.users && !Direct(w, u, p) && !OtherGives(w, step.group, u, p) && Found(w, step) &&
       Gives(w.groups[step.group], u, p) && !Gives(Changed(w, step), u, p))
  {
    MaySplit(w, step.group, u, p);
    MaySplit(After(w, step), step.group, u, p);
    OthersKept(w, step, u, p);
  }

  /** What is gained comes from the changed group. */
  lemma GainExactly(w: World, step: Step, u: nat, p: Permission)
    requires OnGroup(step)
    ensures !May(w, u, p) && May(After(w, step), u, p) <==>
      (u in w.users && !May(w, u, p) && Found(w, step) && Gives(Changed(w, step), u, p))
  {
    MaySplit(w, step.group, u, p);
    MaySplit(After(w, step), step.group, u, p);
    OthersKept(w, step, u, p);
  }

  lemma MaySplit(w: World, id: nat, u: nat, p: Permission)
    ensures May(w, u, p) <==>
      (u in w.users && (Direct(w, u, p) || OtherGives(w, id, u, p) || (id in w.groups && Gives(w.groups[id], u, p))))
  {
  }

  lemma OthersKept(w: World, step: Step, u: nat, p: Permission)
    requires OnGroup(step)
    ensures OtherGives(After(w, step), step.group, u, p) <==> OtherGives(w, step.group, u, p)
  {
    var v := After(w, step);
    assert forall id :: id != step.group ==>
      (id in v.groups <==> id in w.groups) && (id in w.groups ==> v.groups[id] == w.groups[id]);
  }

  predicate GroupGives(w: World, u: nat, p: Permission) {
    exists id :: id in w.groups && Gives(w.groups[id], u, p)
  }

  /** Reassigning direct roles leaves what groups give alone, and touches nobody else. */
  lemma ReassignExactly(w: World, company: nat, user: nat, roles: seq<Role>, u: nat, p: Permission)
    requires Found(w, Reassign(company, user, roles))
    ensures var v := After(w, Reassign(company, user, roles));
      May(v, u, p) <==> if u == user then Grants(Offered(roles, company), p) || GroupGives(w, u, p) else May(w, u, p)
  {
  }

  /** A removed user may do nothing, and nobody else notices. */
  lemma RemoveExactly(w: World, company: nat, user: nat, caller: nat, u: nat, p: Permission)
    requires Found(w, RemoveUser(company, user, caller))
    ensures May(After(w, RemoveUser(company, user, caller)), u, p) <==> u != user && May(w, u, p)
  {
    var v := After(w, RemoveUser(company, user, caller));
    if u != user {
      forall id | id in w.groups ensures Gives(v.groups[id], u, p) == Gives(w.groups[id], u, p) {
      }
    }
  }

  // ---------------------------------------------------------------- runs

  /** The step gives this user other direct roles without the permission, or removes the user. */
  predicate TakesAway(w: World, step: Step, u: nat, p: Permission) {
    Found(w, step) &&
    ((step.RemoveUser? && step.user == u) ||
     (step.Reassign? && step.user == u && !Grants(Offered(step.roles, step.company), p)))
  }

  /** No other request, whatever it does to groups and other users, takes a direct permission. */
  lemma DirectStep(w: World, step: Step, u: nat, p: Permission)
    requires Direct(w, u, p)
    ensures Direct(After(w, step), u, p) <==> !TakesAway(w, step, u, p)
  {
  }

  /** A permission held directly survives any run of which no step takes it away directly. */
  lemma {:induction false} DirectSurvives(w: World, steps: seq<Step>, u: nat, p: Permission)
    requires Direct(w, u, p)
    requires forall i :: 0 <= i < |steps| ==> !TakesAway(Run(w, steps[..i]), steps[i], u, p)
    ensures Direct(Run(w, steps), u, p) && May(Run(w, steps), u, p)
  {
    if steps != [] {
      var n := |steps| - 1;
      forall i | 0 <= i < n ensures !TakesAway(Run(w, steps[..n][..i]), steps[..n][i], u, p) {
        assert steps[..n][..i] == steps[..i];
      }
      DirectSurvives(w, steps[..n], u, p);
      DirectStep(Run(w, steps[..n]), steps[n], u, p);
    }
  }

  predicate Fits(roles: seq<Role>, company: nat) {
    forall i :: 0 <= i < |roles| ==> roles[i].tenant in {None, Some(company)}
  }

  /** Roles are those of the own company or the system's; members belong to the group's company. */
  ghost predicate Tenanted(w: World) {
    && (forall u :: u in w.users ==> Fits(w.users[u].roles, w.users[u].company))
    && (forall id :: id in w.groups ==> GroupFits(w, w.groups[id]))
  }

  ghost predicate GroupFits(w: World, g: Group) {
    Fits(g.roles, g.company) && forall u :: u in g.members ==> OwnUser(w, g.company, u)
  }

  lemma {:induction false} OfferedFits(roles: seq<Role>, company: nat)
    ensures Fits(Offered(roles, company), company)
  {
    if roles != [] {
      OfferedFits(roles[..|roles| - 1], company);
    }
  }

  lemma TenancyStep(w: World, step: Step)
    requires Tenanted(w)
    ensures Tenanted(After(w, step))
  {
    var v := After(w, step);
    if step.SetRoles? || step.AddUser? || step.Reassign? {
      OfferedFits(step.roles, step.company);
    }
    forall id | id in v.groups ensures GroupFits(v, v.groups[id]) {
      if id in w.groups {
        assert GroupFits(w, w.groups[id]);
      }
    }
  }

  /** No run lets a role or a membership reach into another company. */
  lemma {:induction false} TenancyKept(w: World, steps: seq<Step>)
    requires Tenanted(w)
    ensures Tenanted(Run(w, steps))
  {
    if steps != [] {
      TenancyKept(w, steps[..|steps| - 1]);
      TenancyStep(Run(w, steps[..|steps| - 1]), steps[|steps| - 1]);
    }
  }

  /** A role carries the permission, and it is the company's own or the system's. */
  predicate OwnRole(roles: seq<Role>, company: nat, p: Permission) {
    exists i :: 0 <= i < |roles| && p in roles[i].permissions && roles[i].tenant in {None, Some(company)}
  }

  /** The group is live, of the user's company, has the user as a member, and gives the permission by an own role. */
  predicate OwnGroupGives(w: World, id: nat, u: nat, p: Permission) {
    && id in w.groups && u in w.users && w.groups[id].company == w.users[u].company
    && Gives(w.groups[id], u, p) && OwnRole(w.groups[id].roles, w.users[u].company, p)
  }

  /**
   * Whatever a user may do after any run comes from a role of the user's own company or of the system, held directly
   * or through a live group of that company the user is in. No role of another company ever gives it.
   */
  lemma NoForeignPermission(w: World, steps: seq<Step>, u: nat, p: Permission)
    requires Tenanted(w) && May(Run(w, steps), u, p)
    ensures u in Run(w, steps).users
    ensures var v := Run(w, steps);
      || OwnRole(v.users[u].roles, v.users[u].company, p)
      || exists id :: OwnGroupGives(v, id, u, p)
    ensures var v := Run(w, steps);
      forall id :: id in v.groups && u in v.groups[id].members ==>
        v.groups[id].company == v.users[u].company && Fits(v.groups[id].roles, v.users[u].company)
    ensures var v := Run(w, steps); Fits(v.users[u].roles, v.users[u].company)
  {
    TenancyKept(w, steps);
    var v := Run(w, steps);
    forall id | id in v.groups && u in v.groups[id].members
      ensures v.groups[id].company == v.users[u].company && Fits(v.groups[id].roles, v.users[u].company)
    {
      assert GroupFits(v, v.groups[id]);
    }
    if Direct(v, u, p) {
      GrantedByOwn(v.users[u].roles, v.users[u].company, p);
    } else {
      var id :| id in v.groups && Gives(v.groups[id], u, p);
      GrantedByOwn(v.groups[id].roles, v.users[u].company, p);
      assert OwnGroupGives(v, id, u, p);
    }
  }

  lemma GrantedByOwn(roles: seq<Role>, company: nat, p: Permission)
    requires Fits(roles, company) && Grants(roles, p)
    ensures OwnRole(roles, company, p)
  {
    var i :| 0 <= i < |roles| && p in roles[i].permissions;
    assert roles[i].tenant in {None, Some(company)};
  }

  /**
   * Replacing the membership is idempotent, and putting the old members back restores everything if and only
   * if none of them has been deleted meanwhile.
   */
  lemma MembersRestored(w: World, company: nat, group: nat, members: set<nat>)
    requires Tenanted(w) && Found(w, SetMembers(company, group, members))
    ensures var v, g := After(w, SetMembers(company, group, members)), w.groups[group];
      && After(v, SetMembers(company, group, members)) == v
      && (After(v, SetMembers(company, group, g.members)) == w <==> forall u :: u in g.members ==> !w.users[u].deleted)
  {
    var v, g := After(w, SetMembers(company, group, members)), w.groups[group];
    var back := After(v, SetMembers(company, group, g.members));
    assert After(v, SetMembers(company, group, members)).groups == v.groups;
    if forall u :: u in g.members ==> !w.users[u].deleted {
      assert Admitted(v, company, g.members) == g.members;
      assert back.groups == w.groups;
    } else {
      var u :| u in g.members && w.users[u].deleted;
      assert u !in back.groups[group].members;
    }
  }
}
