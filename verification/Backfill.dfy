/** The permission backfill: nested loops that meet shared platform-level roles once per tenant. */
module Backfill {
  import opened Text

  type Id = nat

  /** A role without a tenant is platform-level. */
  datatype Role = Role(id: Id, tenant: Option<Id>, key: string)

  const OWNER := "school_owner"
  const TARGET_ROLES := [OWNER, "school_principal"]
  const PERMISSIONS_TO_GRANT := ["configuration.communications.view", "configuration.communications.manage"]

  datatype Summary = Summary(tenantsProcessed: nat, totalGrantsAdded: nat, totalGrantsSkipped: nat)

  /** Grants by their primary key, each with the tenant column beside it. */
  type Grants = map<(Id, Id), Option<Id>>

  predicate InScope(role: Role, tenant: Id) {
    && role.key in TARGET_ROLES
    && (role.tenant == Some(tenant) || (role.key == OWNER && role.tenant == None))
  }

  function RolesFor(roles: seq<Role>, tenant: Id): seq<Role> {
    if roles == [] then []
    else
      var last := roles[|roles| - 1];
      RolesFor(roles[..|roles| - 1], tenant) + if InScope(last, tenant) then [last] else []
  }

  lemma {:induction false} RolesForMembers(roles: seq<Role>, tenant: Id, role: Role)
    ensures role in RolesFor(roles, tenant) <==> role in roles && InScope(role, tenant)
  {
    if roles != [] {
      var n := |roles| - 1;
      RolesForMembers(roles[..n], tenant, role);
      assert roles == roles[..n] + [roles[n]];
    }
  }

  /** Each role in scope is visited as often as the table has it, and no other role at all. */
  lemma {:induction false} RolesForMultiplicity(roles: seq<Role>, tenant: Id, role: Role)
    ensures multiset(RolesFor(roles, tenant))[role] == if InScope(role, tenant) then multiset(roles)[role] else 0
  {
    if roles != [] {
      var n := |roles| - 1;
      RolesForMultiplicity(roles[..n], tenant, role);
      assert roles == roles[..n] + [roles[n]];
      assert multiset(roles) == multiset(roles[..n]) + multiset{roles[n]};
    }
  }

  /** The tenant's own owner and principal, and the platform's owner; never a role of another tenant. */
  lemma {:induction false} RolesInScopeAre(role: Role, tenant: Id)
    ensures InScope(role, tenant) <==>
      || role in {Role(role.id, Some(tenant), "school_owner"), Role(role.id, None, "school_owner")}
      || role == Role(role.id, Some(tenant), "school_principal")
  {
    assert |OWNER| != |"school_principal"|;
  }

  /** Role visits, platform-level roles counting once per tenant. */
  function Visits(roles: seq<Role>, tenants: seq<Id>): nat {
    if tenants == [] then 0
    else Visits(roles, tenants[..|tenants| - 1]) + |RolesFor(roles, tenants[|tenants| - 1])|
  }

  /** The roles in scope for at least one of the tenants. */
  ghost function RolesInScope(roles: seq<Role>, tenants: seq<Id>): set<Role> {
    set r | r in roles && exists t :: t in tenants && InScope(r, t)
  }

  ghost function Elements(roles: seq<Role>): set<Role> { set r | r in roles }

  ghost function Granting(permissions: map<string, Id>): set<Id> {
    set k | k in PERMISSIONS_TO_GRANT && k in permissions :: permissions[k]
  }

  /**
   * Exactly the old grants, untouched, and every role crossed with every permission; new grants carry
   * their role's tenant.
   */
  ghost predicate Granted(roles: set<Role>, permissions: set<Id>, before: Grants, after: Grants) {
    && (forall g :: g in before ==> g in after && after[g] == before[g])
    && (forall r, p :: r in roles && p in permissions ==> (r.id, p) in after)
    && forall g :: g in after && g !in before ==>
         exists r :: r in roles && r.id == g.0 && g.1 in permissions && after[g] == r.tenant
  }

  lemma {:induction false} GrantedComposes(
    a: set<Role>, b: set<Role>, permissions: set<Id>, before: Grants, middle: Grants, after: Grants)
    requires Granted(a, permissions, before, middle) && Granted(b, permissions, middle, after)
    ensures Granted(a + b, permissions, before, after)
  {
    forall g | g in after && g !in before
      ensures exists r :: r in a + b && r.id == g.0 && g.1 in permissions && after[g] == r.tenant
    {
      var r :| r in (if g in middle then a else b) && r.id == g.0 && g.1 in permissions && after[g] == r.tenant;
      assert r in a + b;
    }
  }

  lemma {:induction false} NothingGranted(permissions: set<Id>, grants: Grants)
    ensures Granted({}, permissions, grants, grants)
  {
  }

  /** The permission keys that have no row, in the order in which they are to be granted. */
  predicate Names(missing: seq<string>, permissions: map<string, Id>) {
    var view, manage := "configuration.communications.view", "configuration.communications.manage";
    missing == (if view in permissions then [] else [view]) + (if manage in permissions then [] else [manage])
  }

  class Database {
    const roles: seq<Role>
    var grants: Grants

    constructor (roles: seq<Role>)
      ensures this.roles == roles && grants == map[]
    {
      this.roles := roles;
      grants := map[];
    }

    /** `INSERT … ON CONFLICT DO NOTHING`; the number of rows inserted. */
    method Insert(role: Id, permission: Id, tenant: Option<Id>) returns (inserted: nat)
      modifies this
      ensures (role, permission) in old(grants) ==> inserted == 0 && grants == old(grants)
      ensures (role, permission) !in old(grants) ==>
        inserted == 1 && grants == old(grants)[(role, permission) := tenant]
    {
      if (role, permission) in grants {
        return 0;
      }
      grants := grants[(role, permission) := tenant];
      return 1;
    }

    /** Both permissions for one role. */
    method GrantRole(role: Role, permissions: map<string, Id>) returns (added: nat, skipped: nat)
      requires forall k :: k in PERMISSIONS_TO_GRANT ==> k in permissions
      modifies this
      ensures Granted({role}, Granting(permissions), old(grants), grants)
      ensures added + skipped == 2 && |grants| == |old(grants)| + added
    {
      added, skipped := 0, 0;
      for i := 0 to |PERMISSIONS_TO_GRANT|
        invariant added + skipped == i && |grants| == |old(grants)| + added
        invariant forall g :: g in old(grants) ==> g in grants && grants[g] == old(grants)[g]
        invariant forall j :: 0 <= j < i ==> (role.id, permissions[PERMISSIONS_TO_GRANT[j]]) in grants
        invariant forall g :: g in grants && g !in old(grants) ==>
          g.0 == role.id && grants[g] == role.tenant && g.1 in Granting(permissions)
      {
        var permKey := PERMISSIONS_TO_GRANT[i];
        assert permKey in PERMISSIONS_TO_GRANT;
        var inserted := Insert(role.id, permissions[permKey], role.tenant);
        if inserted == 1 {
          added := added + 1;
        } else {
          skipped := skipped + 1;
        }
      }
    }

    /** One tenant's transaction. */
    method GrantTenant(tenant: Id, permissions: map<string, Id>) returns (added: nat, skipped: nat)
      requires forall k :: k in PERMISSIONS_TO_GRANT ==> k in permissions
      modifies this
      ensures Granted(RolesInScope(roles, [tenant]), Granting(permissions), old(grants), grants)
      ensures |grants| == |old(grants)| + added
      ensures added + skipped == 2 * |RolesFor(roles, tenant)|
    {
      hide Granted, Granting;
      added, skipped := 0, 0;
      var roleRows := RolesFor(roles, tenant);
      NothingGranted(Granting(permissions), grants);
      assert Elements(roleRows[..0]) == {};
      for i := 0 to |roleRows|
        invariant |grants| == |old(grants)| + added && added + skipped == 2 * i
        invariant Granted(Elements(roleRows[..i]), Granting(permissions), old(grants), grants)
      {
        ghost var before := grants;
        var a, s := GrantRole(roleRows[i], permissions);
        GrantedComposes(Elements(roleRows[..i]), {roleRows[i]}, Granting(permissions), old(grants), before, grants);
        assert Elements(roleRows[..i + 1]) == Elements(roleRows[..i]) + {roleRows[i]};
        added, skipped := added + a, skipped + s;
      }
      assert Elements(roleRows[..|roleRows|]) == RolesInScope(roles, [tenant]) by {
        forall role ensures role in roleRows <==> role in RolesInScope(roles, [tenant]) {
          RolesForMembers(roles, tenant, role);
          assert tenant in [tenant];
        }
      }
    }

    /** `runBackfill`, given the permission rows and tenants that its first two queries found. */
    method RunBackfill(permissions: map<string, Id>, tenants: seq<Id>) returns (r: Result<Summary, seq<string>>)
      requires permissions.Keys <= set k | k in PERMISSIONS_TO_GRANT
      modifies this
      ensures r.Err? <==> exists k :: k in PERMISSIONS_TO_GRANT && k !in permissions
      ensures r.Err? ==> grants == old(grants) && r.error == Missing(permissions, PERMISSIONS_TO_GRANT)
      ensures r.Err? ==> Names(r.error, permissions)
      ensures r.Ok? ==>
        && Granted(RolesInScope(roles, tenants), Granting(permissions), old(grants), grants)
        && r.value.tenantsProcessed == |tenants|
        && |grants| == |old(grants)| + r.value.totalGrantsAdded
        && r.value.totalGrantsAdded + r.value.totalGrantsSkipped == 2 * Visits(roles, tenants)
    {
      hide Granted, Granting, RolesInScope;
      var missing := Missing(permissions, PERMISSIONS_TO_GRANT);
      if |permissions| < |PERMISSIONS_TO_GRANT| {
        SomethingIsMissing(permissions);
        MissingOfTwo(permissions, PERMISSIONS_TO_GRANT[0], PERMISSIONS_TO_GRANT[1]);
        return Err(missing);
      }
      NothingIsMissing(permissions);
      NothingGranted(Granting(permissions), grants);
      NoTenantsNoRoles(roles);
      assert tenants[..0] == [];
      var summary := Summary(0, 0, 0);
      for i := 0 to |tenants|
        invariant Granted(RolesInScope(roles, tenants[..i]), Granting(permissions), old(grants), grants)
        invariant summary.tenantsProcessed == i && |grants| == |old(grants)| + summary.totalGrantsAdded
        invariant summary.totalGrantsAdded + summary.totalGrantsSkipped == 2 * Visits(roles, tenants[..i])
      {
        ghost var before := grants;
        var added, skipped := GrantTenant(tenants[i], permissions);
        ghost var seen := tenants[..i];
        ghost var now := RolesInScope(roles, [tenants[i]]);
        GrantedComposes(RolesInScope(roles, seen), now, Granting(permissions), old(grants), before, grants);
        RolesInScopeAppends(roles, seen, tenants[i]);
        assert tenants[..i + 1] == seen + [tenants[i]] && (seen + [tenants[i]])[..i] == seen;
        summary := Summary(
          summary.tenantsProcessed + 1, summary.totalGrantsAdded + added, summary.totalGrantsSkipped + skipped);
      }
      assert tenants[..|tenants|] == tenants;
      return Ok(summary);
    }
  }

  lemma {:induction false} NoTenantsNoRoles(roles: seq<Role>)
    ensures RolesInScope(roles, []) == {}
  {
  }

  lemma {:induction false} RolesInScopeAppends(roles: seq<Role>, tenants: seq<Id>, tenant: Id)
    ensures RolesInScope(roles, tenants + [tenant]) == RolesInScope(roles, tenants) + RolesInScope(roles, [tenant])
  {
    assert tenant in [tenant];
    forall t ensures t in tenants + [tenant] <==> t in tenants || t in [tenant] {
    }
  }

  function Missing(permissions: map<string, Id>, keys: seq<string>): seq<string> {
    if keys == [] then [] else (if keys[0] in permissions then [] else [keys[0]]) + Missing(permissions, keys[1..])
  }

  lemma {:induction false} MissingOfTwo(permissions: map<string, Id>, a: string, b: string)
    ensures Missing(permissions, [a, b])
         == (if a in permissions then [] else [a]) + (if b in permissions then [] else [b])
  {
    assert [a, b][1..] == [b] && [b][1..] == [];
    assert Missing(permissions, [b]) == if b in permissions then [] else [b];
  }

  lemma {:induction false} BothPresent(permissions: map<string, Id>)
    requires PERMISSIONS_TO_GRANT[0] in permissions && PERMISSIONS_TO_GRANT[1] in permissions
    ensures |permissions| >= 2
  {
    var a, b := PERMISSIONS_TO_GRANT[0], PERMISSIONS_TO_GRANT[1];
    assert a != b by { assert |a| != |b|; }
    assert |{a, b}| == 2 && {a, b} <= permissions.Keys;
    assert permissions.Keys == {a, b} + (permissions.Keys - {a, b});
  }

  lemma {:induction false} SomethingIsMissing(permissions: map<string, Id>)
    requires |permissions| < 2
    ensures exists k :: k in PERMISSIONS_TO_GRANT && k !in permissions
  {
    if PERMISSIONS_TO_GRANT[0] in permissions && PERMISSIONS_TO_GRANT[1] in permissions {
      BothPresent(permissions);
    }
  }

  lemma {:induction false} NothingIsMissing(permissions: map<string, Id>)
    requires permissions.Keys <= (set k | k in PERMISSIONS_TO_GRANT) && |permissions| >= 2
    ensures forall k :: k in PERMISSIONS_TO_GRANT ==> k in permissions
  {
    var a, b := PERMISSIONS_TO_GRANT[0], PERMISSIONS_TO_GRANT[1];
    if a !in permissions {
      OneKeyAtMost(permissions.Keys, b);
    } else if b !in permissions {
      OneKeyAtMost(permissions.Keys, a);
    }
  }

  lemma {:induction false} OneKeyAtMost(keys: set<string>, k: string)
    requires keys <= {k}
    ensures |keys| <= 1
  {
    if k in keys { assert keys == {k}; }
  }

  /** A second run adds nothing. */
  lemma {:induction false} SecondRunAddsNothing(
    roles: set<Role>, permissions: set<Id>, before: Grants, after: Grants, again: Grants)
    requires Granted(roles, permissions, before, after) && Granted(roles, permissions, after, again)
    ensures again == after
  {
    assert forall r, p :: r in roles && p in permissions ==> (r.id, p) in after;
    assert again.Keys <= after.Keys;
  }
}
