/** Who is let in, with every kind, role, permission and capability written out. */
module Access {
  import opened Wrappers
  import opened Authorization

  // ------------------------------------------------------------------ the tables, read the other way

  /** The roles that hold a permission. */
  function RolesWith(p: Permission): set<string> {
    match p
    case OrgRead | CentreRead | DeliveryRead => {"member", "admin", "owner"}
    case MemberRead | BatchRead => {"member", "admin", "owner", "manager"}
    case JobCreate | JobUpdate | JobPublish | CourseCreate | CourseUpdate | CoursePublish => {"admin", "owner"}
    case CandidateShortlist | LearnerContact | CentreManage | DeliveryManage | MemberInvite => {"admin", "owner"}
    case BatchManage => {"admin", "owner", "manager"}
    case JobDelete | CourseDelete | OrgUpdate | OrgDelete | MemberManage => {"owner"}
    case ManagedCentreRead | ManagedCentreEdit => {"manager"}
    case _ => {}
  }

  lemma MemberTable(p: Permission)
    ensures p in MEMBER <==> "member" in RolesWith(p)
  {
  }

  lemma AdminTable(p: Permission)
    ensures p in ADMIN <==> "admin" in RolesWith(p)
  {
  }

  lemma OwnerTable(p: Permission)
    ensures p in OWNER <==> "owner" in RolesWith(p)
  {
    AdminTable(p);
    hide ADMIN;
  }

  lemma ManagerTable(p: Permission)
    ensures p in MANAGER <==> "manager" in RolesWith(p)
  {
  }

  lemma OnlyFourRoles(role: string, p: Permission)
    requires role in RolesWith(p)
    ensures role == "member" || role == "admin" || role == "owner" || role == "manager"
  {
  }

  /** A role holds a permission exactly when the table says so; an unknown role holds none. */
  lemma RoleTable(role: string, p: Permission)
    ensures p in RolePermissions(role) <==> role in RolesWith(p)
  {
    hide MEMBER, ADMIN, OWNER, MANAGER, RolesWith;
    MemberTable(p);
    AdminTable(p);
    OwnerTable(p);
    ManagerTable(p);
    if role in RolesWith(p) { OnlyFourRoles(role, p); }
  }

  /** The operator tiers that hold a permission. */
  function TiersWith(p: Permission): set<string> {
    match p
    case OpsOrgRead | OpsProgrammeRead | OpsCandidateVerify => {"support", "admin"}
    case OpsGrievanceRead | OpsGrievanceHandle | OpsReportRead | OpsReportHandle => {"support", "admin"}
    case OpsOrgVerify | OpsAliasEdit | OpsListingTakedown | OpsEnrol => {"admin"}
    case _ => {}
  }

  lemma SupportTable(p: Permission)
    ensures p in SUPPORT_TIER <==> "support" in TiersWith(p)
  {
  }

  lemma OperatorTable(p: Permission)
    ensures p in OPERATOR <==> "admin" in TiersWith(p)
  {
    SupportTable(p);
    hide SUPPORT_TIER;
  }

  /** A tier holds a permission exactly when the table says so; an unknown tier, and no tier, hold none. */
  lemma TierTable(tier: string, p: Permission)
    ensures p in TierPermissions(tier) <==> tier in TiersWith(p)
  {
    hide SUPPORT_TIER, OPERATOR;
    SupportTable(p);
    OperatorTable(p);
  }

  /** What an organisation may do, by its kind. */
  predicate Able(kind: string, publishesCourses: bool, deliversTraining: bool, capability: string) {
    || (kind == "employer" && capability == "job")
    || (kind == "training_centre" && capability == "batch")
    || (kind == "course_provider" && publishesCourses && capability in {"course", "delivery"})
    || (kind == "course_provider" && deliversTraining && capability in {"centre", "batch", "delivery"})
  }

  lemma CapabilityTable(tenant: Tenant, capability: string)
    ensures CapabilityFor(tenant, capability) ==
            if capability in {"job", "course", "centre", "batch", "delivery"}
            then Some(Able(tenant.kind, tenant.publishesCourses, tenant.deliversTraining, capability))
            else None
  {
  }

  // ------------------------------------------------------------------ organisations

  /** The caller has a role in the organisation, centre or company with the slug. */
  predicate HasRole(db: Database, user: nat, slug: string, tenant: Tenant, role: string) {
    && tenant in db.tenants && tenant.slug == slug
    && (tenant.kind == "employer" || tenant.kind == "course_provider" || tenant.kind == "training_centre")
    && Membership(user, tenant.id, role) in db.memberships
  }

  /** The whole guard for a caller with a role: the role must hold the permission, and the organisation the
      capability. */
  function Verdict(tenant: Tenant, role: string, permission: Permission, publishes: Option<string>): Answer {
    if role !in RolesWith(permission) then RoleForbids(role, permission)
    else if publishes.None? then Admitted(tenant, role)
    else if publishes.value !in {"job", "course", "centre", "batch", "delivery"} then UnknownCapability
    else if Able(tenant.kind, tenant.publishesCourses, tenant.deliversTraining, publishes.value) then Admitted(tenant, role)
    else WrongCapability(publishes.value)
  }

  lemma DecideIsVerdict(tenant: Tenant, role: string, permission: Permission, publishes: Option<string>)
    ensures Decide(tenant, role, permission, publishes) == Verdict(tenant, role, permission, publishes)
  {
    hide RolesWith, RolePermissions, Able, CapabilityFor;
    RoleTable(role, permission);
    if publishes.Some? { CapabilityTable(tenant, publishes.value); }
  }

  lemma {:induction false} TenantIn(tenants: seq<Tenant>, tenant: Tenant)
    requires tenant in tenants && forall i, j :: 0 <= i < j < |tenants| ==> tenants[i].id != tenants[j].id
    ensures TenantWith(tenants, tenant.id) == Some(tenant)
  {
    if tenants[0] != tenant {
      var j :| 0 <= j < |tenants| && tenants[j] == tenant;
      assert tenants[0].id != tenants[j].id;
      TenantIn(tenants[1..], tenant);
    }
  }

  lemma RoleIsGrant(db: Database, user: nat, slug: string, tenant: Tenant, role: string)
    requires Consistent(db)
    ensures HasRole(db, user, slug, tenant, role) <==>
            && Membership(user, tenant.id, role) in db.memberships
            && Grants(db, Membership(user, tenant.id, role), user, slug)
            && TenantWith(db.tenants, tenant.id) == Some(tenant)
  {
    TenantWithIs(db.tenants, tenant.id);
    if HasRole(db, user, slug, tenant, role) {
      TenantIn(db.tenants, tenant);
    }
  }

  /** Everybody with a role gets the verdict on that role; everybody else is told there is no such
      organisation. */
  lemma RequireExactly(db: Database, user: nat, slug: string, permission: Permission, publishes: Option<string>)
    requires Consistent(db)
    ensures forall tenant, role :: HasRole(db, user, slug, tenant, role) ==>
              Require(db, user, slug, permission, publishes) == Verdict(tenant, role, permission, publishes)
    ensures (forall tenant, role :: !HasRole(db, user, slug, tenant, role)) ==>
              Require(db, user, slug, permission, publishes) == NotFound
  {
    hide Consistent, Decide, Verdict, HasRole, Grants;
    var row := FirstGrant(db, db.memberships, user, slug);
    forall tenant, role | HasRole(db, user, slug, tenant, role)
      ensures Require(db, user, slug, permission, publishes) == Verdict(tenant, role, permission, publishes)
    {
      var m := Membership(user, tenant.id, role);
      RoleIsGrant(db, user, slug, tenant, role);
      GrantIsUnique(db, row.value, m, user, slug);
      DecideIsVerdict(tenant, role, permission, publishes);
    }
    if row.Some? {
      GrantIsRole(db, user, slug, row.value);
    }
  }

  lemma GrantIsRole(db: Database, user: nat, slug: string, m: Membership)
    requires Consistent(db) && m in db.memberships && Grants(db, m, user, slug)
    ensures TenantWith(db.tenants, m.tenant).Some?
    ensures HasRole(db, user, slug, TenantWith(db.tenants, m.tenant).value, m.role)
  {
    TenantWithIs(db.tenants, m.tenant);
    assert m == Membership(user, m.tenant, m.role);
  }

  /** The role holds the permission, and the organisation has the capability if one is asked. */
  predicate Allowed(tenant: Tenant, role: string, permission: Permission, publishes: Option<string>) {
    && role in RolesWith(permission)
    && (publishes.Some? ==> Able(tenant.kind, tenant.publishesCourses, tenant.deliversTraining, publishes.value))
  }

  lemma VerdictAdmits(tenant: Tenant, role: string, permission: Permission, publishes: Option<string>)
    ensures Verdict(tenant, role, permission, publishes) == Admitted(tenant, role) <==> Allowed(tenant, role, permission, publishes)
    ensures Verdict(tenant, role, permission, publishes).Admitted? ==> Verdict(tenant, role, permission, publishes) == Admitted(tenant, role)
  {
    hide RolesWith;
  }

  /** A caller is admitted to a tenant with a role exactly when: the tenant has the slug, and is an employer,
      a course provider or a training centre, never a personal workspace; the caller is a member of it with
      the role; the role is one of those that hold the permission; and, where a capability is asked, the
      tenant has it. */
  lemma LetInExactly(db: Database, user: nat, slug: string, permission: Permission, publishes: Option<string>, tenant: Tenant, role: string)
    requires Consistent(db)
    ensures Require(db, user, slug, permission, publishes) == Admitted(tenant, role) <==>
            && tenant in db.tenants && tenant.slug == slug
            && (tenant.kind == "employer" || tenant.kind == "course_provider" || tenant.kind == "training_centre")
            && Membership(user, tenant.id, role) in db.memberships
            && Allowed(tenant, role, permission, publishes)
    ensures Require(db, user, slug, permission, publishes) == Admitted(tenant, role) ==> tenant.kind != "personal"
  {
    LetInByRole(db, user, slug, permission, publishes, tenant, role);
    hide Consistent, Require, Allowed;
  }

  lemma LetInByRole(db: Database, user: nat, slug: string, permission: Permission, publishes: Option<string>, tenant: Tenant, role: string)
    requires Consistent(db)
    ensures Require(db, user, slug, permission, publishes) == Admitted(tenant, role) <==>
            HasRole(db, user, slug, tenant, role) && Allowed(tenant, role, permission, publishes)
  {
    hide Consistent, Require, HasRole, Verdict, Allowed;
    RequireExactly(db, user, slug, permission, publishes);
    if t, r :| HasRole(db, user, slug, t, r) {
      VerdictAdmits(t, r, permission, publishes);
    }
    if HasRole(db, user, slug, tenant, role) {
      VerdictAdmits(tenant, role, permission, publishes);
    }
  }

  /** A caller whose role does not hold the permission is told so exactly when they have a role; a caller
      without one cannot tell a personal workspace, or an organisation they are not in, from none. */
  lemma RefusedExactly(db: Database, user: nat, slug: string, permission: Permission, publishes: Option<string>, role: string)
    requires Consistent(db)
    ensures Require(db, user, slug, permission, publishes) == NotFound <==>
            !exists tenant, r :: HasRole(db, user, slug, tenant, r)
    ensures Require(db, user, slug, permission, publishes) == RoleForbids(role, permission) <==>
            role !in RolesWith(permission) && exists tenant :: HasRole(db, user, slug, tenant, role)
  {
    hide Consistent, Require, RolesWith, HasRole, Able;
    RequireExactly(db, user, slug, permission, publishes);
    if t, r :| HasRole(db, user, slug, t, r) {
      assert Require(db, user, slug, permission, publishes) == Verdict(t, r, permission, publishes);
    }
    if t :| HasRole(db, user, slug, t, role) {
      assert Require(db, user, slug, permission, publishes) == Verdict(t, role, permission, publishes);
    }
  }

  // ------------------------------------------------------------------ centres

  /** `found` is the training centre of the parent with the slug. */
  predicate CentreOf(db: Database, parent: Tenant, slug: string, found: Tenant) {
    found in db.tenants && found.slug == slug && found.kind == "training_centre" && found.parent == Some(parent.id)
  }

  /** A centre is reached exactly through its parent: the caller has a role in the parent, which is never a
      personal workspace, and is allowed there what is asked, and the centre is the parent's. */
  lemma CentreLetInExactly(
      db: Database, user: nat, slug: string, permission: Permission, publishes: Option<string>, centre: string, found: Tenant, role: string)
    requires Consistent(db)
    ensures RequireCentre(db, user, slug, permission, publishes, centre) == Admitted(found, role) <==>
            exists parent :: HasRole(db, user, slug, parent, role) && Allowed(parent, role, permission, publishes)
                             && CentreOf(db, parent, centre, found)
    ensures forall parent :: HasRole(db, user, slug, parent, role) ==> parent.kind != "personal"
  {
    hide Consistent, Require, Allowed, FirstCentre;
    var answer := Require(db, user, slug, permission, publishes);
    if answer.Admitted? {
      LetInByRole(db, user, slug, permission, publishes, answer.tenant, answer.role);
      if CentreOf(db, answer.tenant, centre, found) {
        CentreIsUnique(db, answer.tenant.id, centre, found);
      }
    }
    if parent :| HasRole(db, user, slug, parent, role) && Allowed(parent, role, permission, publishes) && CentreOf(db, parent, centre, found) {
      LetInByRole(db, user, slug, permission, publishes, parent, role);
    }
  }

  /** Short of that, whoever the parent lets in is told there is no such centre, and everybody else what the
      parent tells them. */
  lemma CentreRefusedExactly(db: Database, user: nat, slug: string, permission: Permission, publishes: Option<string>, centre: string)
    ensures var answer := Require(db, user, slug, permission, publishes);
      && (!answer.Admitted? ==> RequireCentre(db, user, slug, permission, publishes, centre) == answer)
      && (answer.Admitted? && !(exists c :: c in db.tenants && c.slug == centre && c.kind == "training_centre" && c.parent == Some(answer.tenant.id))
          ==> RequireCentre(db, user, slug, permission, publishes, centre) == CentreNotFound)
  {
    hide Require, FirstCentre;
  }

  // ------------------------------------------------------------------ operators

  /** An operator is let in exactly when they are staff and their tier is one of those that hold the
      permission; whoever is not staff is told there is no such route. */
  lemma OperatorLetInExactly(isStaff: bool, tier: string, permission: Permission)
    ensures RequireOperator(isStaff, Some(tier), permission).Operating? <==> isStaff && tier in TiersWith(permission)
    ensures !RequireOperator(isStaff, None, permission).Operating?
    ensures !isStaff && TiersWith(permission) != {} ==> RequireOperator(isStaff, Some(tier), permission) == NoSuchRoute
    ensures TiersWith(permission) != {} ==> RolesWith(permission) == {}
  {
    hide TierPermissions, OPERATOR;
    TierTable(tier, permission);
    TierTable("", permission);
    OperatorTable(permission);
  }
}
