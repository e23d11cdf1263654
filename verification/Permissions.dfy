/** Effective permissions: direct roles and the roles of live groups, and what changes to groups do to them. */
module Permissions {
  import opened PyText

  datatype Permission = Permission(modul: string, action: string)

  datatype Role = Role(tenant: Option<nat>, permissions: seq<Permission>)

  datatype Group = Group(company: nat, roles: seq<Role>, members: set<nat>, deleted: bool)

  datatype User = User(company: nat, deleted: bool, roles: seq<Role>)

  // ---------------------------------------------------------------- the permission check

  predicate Grants(roles: seq<Role>, p: Permission) {
    exists i :: 0 <= i < |roles| && p in roles[i].permissions
  }

  /** Some direct role, or some role of a live group, carries the permission. */
  predicate Allowed(roles: seq<Role>, groups: seq<Group>, p: Permission) {
    Grants(roles, p) || exists i :: 0 <= i < |groups| && !groups[i].deleted && Grants(groups[i].roles, p)
  }

  lemma GrantsConcat(a: seq<Role>, b: seq<Role>, p: Permission)
    ensures Grants(a + b, p) <==> Grants(a, p) || Grants(b, p)
  {
    assert forall i :: 0 <= i < |a| ==> (a + b)[i] == a[i];
    assert forall i :: 0 <= i < |b| ==> (a + b)[|a| + i] == b[i];
  }

  /** The roles of the user, extended by those of every group that is not deleted. */
  method EffectiveRoles(roles0: seq<Role>, groups: seq<Group>, ghost p: Permission) returns (roles: seq<Role>)
    ensures Grants(roles, p) <==> Allowed(roles0, groups, p)
  {
    roles := roles0;
    for i := 0 to |groups|
      invariant Grants(roles, p) <==> Allowed(roles0, groups[..i], p)
    {
      assert groups[..i + 1] == groups[..i] + [groups[i]];
      AllowedNext(roles0, groups[..i], groups[i], p);
      if !groups[i].deleted {
        GrantsConcat(roles, groups[i].roles, p);
        roles := roles + groups[i].roles;
      }
    }
    assert groups[..|groups|] == groups;
  }

  lemma AllowedNext(roles: seq<Role>, groups: seq<Group>, g: Group, p: Permission)
    ensures Allowed(roles, groups + [g], p) <==> Allowed(roles, groups, p) || (!g.deleted && Grants(g.roles, p))
  {
    var all := groups + [g];
    assert forall i :: 0 <= i < |groups| ==> all[i] == groups[i];
    assert all[|groups|] == g;
  }

  /** Two nested loops, both left at the first match; false stands for the 403 answer. */
  method CheckPermission(roles0: seq<Role>, groups: seq<Group>, p: Permission) returns (accepted: bool)
    ensures accepted <==> Allowed(roles0, groups, p)
  {
    var roles := EffectiveRoles(roles0, groups, p);
    accepted := false;
    for i := 0 to |roles|
      invariant !accepted && forall k :: 0 <= k < i ==> p !in roles[k].permissions
    {
      var permissions := roles[i].permissions;
      for j := 0 to |permissions|
        invariant !accepted && forall k :: 0 <= k < j ==> permissions[k] != p
      {
        if permissions[j].modul == p.modul && permissions[j].action == p.action {
          accepted := true;
          break;
        }
      }
      if accepted {
        break;
      }
    }
  }

  // ---------------------------------------------------------------- the profile

  function Show(p: Permission): string {
    p.modul + ":" + p.action
  }

  /** The permission strings of the profile: direct roles only, without duplicates. */
  method ListPermissions(roles: seq<Role>) returns (listed: set<string>)
    ensures forall s :: s in listed <==> exists p :: Grants(roles, p) && s == Show(p)
  {
    listed := {};
    for i := 0 to |roles|
      invariant forall s :: s in listed <==> exists p :: Grants(roles[..i], p) && s == Show(p)
    {
      var permissions := roles[i].permissions;
      for j := 0 to |permissions|
        invariant forall s :: s in listed <==>
          exists p :: (Grants(roles[..i], p) || p in permissions[..j]) && s == Show(p)
      {
        listed := listed + {Show(permissions[j])};
        assert forall p :: p in permissions[..j + 1] <==> p in permissions[..j] || p == permissions[j];
      }
      assert roles[..i + 1] == roles[..i] + [roles[i]];
      assert forall p :: Grants(roles[..i + 1], p) <==> Grants(roles[..i], p) || p in permissions by {
        forall p ensures Grants(roles[..i + 1], p) <==> Grants(roles[..i], p) || p in permissions {
          GrantsConcat(roles[..i], [roles[i]], p);
          assert Grants([roles[i]], p) <==> p in permissions by { assert [roles[i]][0] == roles[i]; }
        }
      }
      assert permissions[..|permissions|] == permissions;
    }
    assert roles[..|roles|] == roles;
  }

  lemma FirstColon(p: Permission)
    requires ':' !in p.modul
    ensures Show(p)[|p.modul|] == ':' && forall k :: 0 <= k < |p.modul| ==> Show(p)[k] != ':'
    ensures p.modul == Show(p)[..|p.modul|] && p.action == Show(p)[|p.modul| + 1..]
  {
    assert forall k :: 0 <= k < |p.modul| ==> Show(p)[k] == p.modul[k];
  }

  /** Module names have no colon, so a permission string determines its permission. */
  lemma ShowIsInjective(p: Permission, q: Permission)
    requires ':' !in p.modul && ':' !in q.modul && Show(p) == Show(q)
    ensures p == q
  {
    FirstColon(p);
    FirstColon(q);
    assert |p.modul| == |q.modul|;
  }

  ghost predicate Listed(roles: seq<Role>, p: Permission) {
    exists q :: Grants(roles, q) && Show(p) == Show(q)
  }

  /** Every listed permission is accepted; accepted but not listed are exactly those that only groups give. */
  lemma ListedExactly(roles: seq<Role>, groups: seq<Group>, p: Permission)
    requires ':' !in p.modul && forall q :: Grants(roles, q) ==> ':' !in q.modul
    ensures Listed(roles, p) ==> Allowed(roles, groups, p)
    ensures Allowed(roles, groups, p) && !Listed(roles, p) <==>
      Allowed([], groups, p) && !Grants(roles, p)
  {
    forall q | Grants(roles, q) && Show(p) == Show(q) ensures p == q {
      ShowIsInjective(p, q);
    }
    assert Grants(roles, p) ==> Listed(roles, p);
  }
}
