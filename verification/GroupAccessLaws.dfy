/** Each request spelled out: whom it reaches, and what everybody may do after it. */
module GroupAccessLaws {
  import opened PyText
  import opened Permissions
  import opened GroupAccess

  /** Some role in the list carries the permission and is the company's own or the system's. */
  lemma {:induction false} OfferedExactly(roles: seq<Role>, company: nat, role: Role)
    ensures role in Offered(roles, company)
       <==> role in roles && (role.tenant == None || role.tenant == Some(company))
  {
    if roles != [] {
      var n := |roles| - 1;
      OfferedExactly(roles[..n], company, role);
      assert roles == roles[..n] + [roles[n]];
    }
  }

  lemma OfferedGrants(roles: seq<Role>, company: nat, p: Permission)
    ensures Grants(Offered(roles, company), p) <==> OwnRole(roles, company, p)
  {
    var offered := Offered(roles, company);
    if i :| 0 <= i < |offered| && p in offered[i].permissions {
      OfferedExactly(roles, company, offered[i]);
      assert offered[i] in roles;
    }
    if i :| 0 <= i < |roles| && p in roles[i].permissions && roles[i].tenant in {None, Some(company)} {
      OfferedExactly(roles, company, roles[i]);
      assert roles[i] in offered;
    }
  }

  lemma NoneOfferedExactly(roles: seq<Role>, company: nat)
    ensures NoneOffered(roles, company)
       <==> roles != [] && forall i :: 0 <= i < |roles| ==> roles[i].tenant !in {None, Some(company)}
  {
    var offered := Offered(roles, company);
    if offered != [] {
      OfferedExactly(roles, company, offered[0]);
    }
    forall i | 0 <= i < |roles| ensures offered == [] ==> roles[i].tenant !in {None, Some(company)} {
      OfferedExactly(roles, company, roles[i]);
    }
  }

  /** A permission is held through a role of the user, or through a role of a live group the user is in. */
  lemma MaySpelled(w: World, u: nat, p: Permission)
    ensures May(w, u, p) <==>
      (u in w.users &&
       ((exists i :: 0 <= i < |w.users[u].roles| && p in w.users[u].roles[i].permissions) ||
        (exists id, i :: id in w.groups && !w.groups[id].deleted && u in w.groups[id].members &&
                         0 <= i < |w.groups[id].roles| && p in w.groups[id].roles[i].permissions)))
  {
  }

  /** The group is live and the caller's company's. */
  predicate InReach(w: World, company: nat, group: nat) {
    group in w.groups && w.groups[group].company == company && !w.groups[group].deleted
  }

  lemma GroupStep(w: World, step: Step, u: nat, p: Permission)
    requires OnGroup(step) && InReach(w, step.company, step.group)
    ensures May(After(w, step), u, p)
       <==> u in w.users && (Direct(w, u, p) || OtherGives(w, step.group, u, p) || Gives(Changed(w, step), u, p))
  {
    MaySplit(After(w, step), step.group, u, p);
    OthersKept(w, step, u, p);
  }

  /** A deleted group gives nothing any more. */
  lemma DeleteExactly(w: World, company: nat, group: nat, u: nat, p: Permission)
    requires InReach(w, company, group)
    ensures May(After(w, DeleteGroup(company, group)), u, p)
       <==> u in w.users && (Direct(w, u, p) || OtherGives(w, group, u, p))
    ensures !InReach(After(w, DeleteGroup(company, group)), company, group)
  {
    GroupStep(w, DeleteGroup(company, group), u, p);
  }

  /** The group gives what the new roles give, as far as they are its company's or the system's, and nothing else. */
  lemma SetRolesExactly(w: World, company: nat, group: nat, roles: seq<Role>, u: nat, p: Permission)
    requires InReach(w, company, group)
    ensures May(After(w, SetRoles(company, group, roles)), u, p)
       <==> u in w.users && (Direct(w, u, p) || OtherGives(w, group, u, p) ||
                             (u in w.groups[group].members && OwnRole(roles, company, p)))
  {
    GroupStep(w, SetRoles(company, group, roles), u, p);
    OfferedGrants(roles, company, p);
  }

  /** The group gives to the listed live users of the company, and to nobody else, what it gave to its members. */
  lemma SetMembersExactly(w: World, company: nat, group: nat, members: set<nat>, u: nat, p: Permission)
    requires InReach(w, company, group)
    ensures May(After(w, SetMembers(company, group, members)), u, p)
       <==> u in w.users && (Direct(w, u, p) || OtherGives(w, group, u, p) ||
                             (u in members && w.users[u].company == company && !w.users[u].deleted &&
                              Grants(w.groups[group].roles, p)))
  {
    GroupStep(w, SetMembers(company, group, members), u, p);
  }

  /** A new group gives nothing to anybody, and is then in reach. */
  lemma CreateExactly(w: World, company: nat, group: nat, u: nat, p: Permission)
    requires group !in w.groups
    ensures May(After(w, CreateGroup(company, group)), u, p) <==> May(w, u, p)
    ensures InReach(After(w, CreateGroup(company, group)), company, group)
  {
    var v := After(w, CreateGroup(company, group));
    assert forall id :: id in w.groups ==> v.groups[id] == w.groups[id];
  }

  /** A new user has the offered roles, and whatever groups already list that identifier. */
  lemma AddUserExactly(w: World, company: nat, user: nat, roles: seq<Role>, u: nat, p: Permission)
    requires user !in w.users
    requires roles == [] || exists i :: 0 <= i < |roles| && roles[i].tenant in {None, Some(company)}
    ensures var v := After(w, AddUser(company, user, roles));
      May(v, u, p) <==> if u == user then OwnRole(roles, company, p) || GroupGives(w, u, p) else May(w, u, p)
  {
    NoneOfferedExactly(roles, company);
    OfferedGrants(roles, company, p);
  }

  /** Reassigned roles replace the direct ones. */
  lemma ReassignSpelled(w: World, company: nat, user: nat, roles: seq<Role>, u: nat, p: Permission)
    requires OwnUser(w, company, user)
    requires roles == [] || exists i :: 0 <= i < |roles| && roles[i].tenant in {None, Some(company)}
    ensures var v := After(w, Reassign(company, user, roles));
      May(v, u, p) <==> if u == user then OwnRole(roles, company, p) || GroupGives(w, u, p) else May(w, u, p)
  {
    NoneOfferedExactly(roles, company);
    OfferedGrants(roles, company, p);
    ReassignExactly(w, company, user, roles, u, p);
  }

  /** What is out of the caller's reach, or names roles none of which is on offer, changes nothing at all. */
  predicate Refused(w: World, step: Step) {
    match step
    case SetMembers(company, group, _) => !InReach(w, company, group)
    case SetRoles(company, group, _) => !InReach(w, company, group)
    case DeleteGroup(company, group) => !InReach(w, company, group)
    case CreateGroup(_, group) => group in w.groups
    case AddUser(company, user, roles) => user in w.users || AllForeign(roles, company)
    case Reassign(company, user, roles) => !OwnUser(w, company, user) || AllForeign(roles, company)
    case RemoveUser(company, user, caller) => !OwnUser(w, company, user) || user == caller
  }

  predicate AllForeign(roles: seq<Role>, company: nat) {
    roles != [] && forall i :: 0 <= i < |roles| ==> roles[i].tenant !in {None, Some(company)}
  }

  lemma RefusedChangesNothing(w: World, step: Step)
    requires Refused(w, step)
    ensures After(w, step) == w
  {
    if step.AddUser? || step.Reassign? {
      NoneOfferedExactly(step.roles, step.company);
    }
  }
}
