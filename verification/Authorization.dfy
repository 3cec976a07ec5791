/** Who may do what, in which organisation: permissions from the membership's role, the tenant named by
    the request and granted by the membership. */
module Authorization {
  import opened Wrappers

  datatype Permission =
    | OrgRead | OrgUpdate | OrgDelete
    | JobCreate | JobUpdate | JobPublish | JobDelete
    | CourseCreate | CourseUpdate | CoursePublish | CourseDelete
    | CandidateShortlist | LearnerContact
    | MemberRead | MemberInvite | MemberManage
    | CentreRead | CentreManage | ManagedCentreRead | ManagedCentreEdit
    | DeliveryRead | DeliveryManage | BatchRead | BatchManage
    | OpsOrgRead | OpsOrgVerify | OpsProgrammeRead | OpsCandidateVerify | OpsAliasEdit
    | OpsGrievanceRead | OpsGrievanceHandle | OpsReportRead | OpsReportHandle | OpsListingTakedown | OpsEnrol

  const MEMBER: set<Permission> := {OrgRead, MemberRead, CentreRead, DeliveryRead, BatchRead}

  const ADMIN: set<Permission> := MEMBER + {
    JobCreate, JobUpdate, JobPublish, CourseCreate, CourseUpdate, CoursePublish, CandidateShortlist, LearnerContact,
    CentreManage, DeliveryManage, BatchManage, MemberInvite}

  const OWNER: set<Permission> := ADMIN + {JobDelete, CourseDelete, OrgUpdate, OrgDelete, MemberManage}

  const MANAGER: set<Permission> := {MemberRead, ManagedCentreRead, ManagedCentreEdit, BatchRead, BatchManage}

  const SUPPORT_TIER: set<Permission> := {
    OpsOrgRead, OpsProgrammeRead, OpsCandidateVerify, OpsGrievanceRead, OpsGrievanceHandle, OpsReportRead, OpsReportHandle}

  const OPERATOR: set<Permission> := SUPPORT_TIER + {OpsOrgVerify, OpsAliasEdit, OpsListingTakedown, OpsEnrol}

  /** An unknown role holds nothing. */
  function RolePermissions(role: string): set<Permission> {
    if role == "member" then MEMBER
    else if role == "admin" then ADMIN
    else if role == "owner" then OWNER
    else if role == "manager" then MANAGER
    else {}
  }

  function TierPermissions(tier: string): set<Permission> {
    if tier == "support" then SUPPORT_TIER else if tier == "admin" then OPERATOR else {}
  }

  datatype Tenant = Tenant(id: nat, slug: string, kind: string, parent: Option<nat>, publishesCourses: bool, deliversTraining: bool)

  datatype Membership = Membership(user: nat, tenant: nat, role: string)

  datatype Database = Database(tenants: seq<Tenant>, memberships: seq<Membership>)

  /** Where a person can hold a role and act. */
  predicate IsWorkspace(kind: string) {
    kind == "employer" || kind == "course_provider" || kind == "training_centre"
  }

  predicate KnownCapability(capability: string) {
    capability == "job" || capability == "course" || capability == "centre" || capability == "batch" || capability == "delivery"
  }

  /** May this organisation do it? Nothing for a capability nobody has heard of. */
  function CapabilityFor(tenant: Tenant, capability: string): Option<bool> {
    if !KnownCapability(capability) then None
    else if tenant.kind == "training_centre" then Some(capability == "batch")
    else if capability == "job" then Some(tenant.kind == "employer")
    else if tenant.kind != "course_provider" then Some(false)
    else if capability == "delivery" then Some(tenant.publishesCourses || tenant.deliversTraining)
    else if capability == "course" then Some(tenant.publishesCourses)
    else Some(tenant.deliversTraining)
  }

  /** What the caller is told. A refusal carries the sentence's variable part. */
  datatype Answer =
    | NotFound
    | CentreNotFound
    | RoleForbids(role: string, permission: Permission)
    | WrongCapability(capability: string)
    | UnknownCapability
    | Admitted(tenant: Tenant, role: string)

  /** The primary key: the tenant with an id. */
  function TenantWith(tenants: seq<Tenant>, id: nat): Option<Tenant> {
    if tenants == [] then None
    else if tenants[0].id == id then Some(tenants[0])
    else TenantWith(tenants[1..], id)
  }

  /** The joined row of the caller's membership in the workspace with the slug. */
  predicate Grants(db: Database, m: Membership, user: nat, slug: string) {
    && m.user == user
    && TenantWith(db.tenants, m.tenant).Some?
    && TenantWith(db.tenants, m.tenant).value.slug == slug
    && IsWorkspace(TenantWith(db.tenants, m.tenant).value.kind)
  }

  /** The first such row. */
  function FirstGrant(db: Database, memberships: seq<Membership>, user: nat, slug: string): (r: Option<Membership>)
    ensures r.Some? ==> r.value in memberships && Grants(db, r.value, user, slug)
    ensures r.None? ==> forall m :: m in memberships ==> !Grants(db, m, user, slug)
  {
    if memberships == [] then None
    else if Grants(db, memberships[0], user, slug) then Some(memberships[0])
    else FirstGrant(db, memberships[1..], user, slug)
  }

  /** Two questions of a resolved membership: does the role hold the permission, and is this the right
      kind of organisation. */
  function Decide(tenant: Tenant, role: string, permission: Permission, publishes: Option<string>): Answer {
    if permission !in RolePermissions(role) then RoleForbids(role, permission)
    else if publishes.None? then Admitted(tenant, role)
    else
      match CapabilityFor(tenant, publishes.value)
      case None => UnknownCapability
      case Some(able) => if able then Admitted(tenant, role) else WrongCapability(publishes.value)
  }

  /** The guard of a route. One answer for no such organisation, not a member, and personal workspace. */
  function Require(db: Database, user: nat, slug: string, permission: Permission, publishes: Option<string>): Answer {
    var row := FirstGrant(db, db.memberships, user, slug);
    if row.None? then NotFound
    else Decide(TenantWith(db.tenants, row.value.tenant).value, row.value.role, permission, publishes)
  }

  /** A centre of one organisation, by slug. */
  predicate IsCentreOf(t: Tenant, parent: nat, slug: string) {
    t.slug == slug && t.kind == "training_centre" && t.parent == Some(parent)
  }

  function FirstCentre(tenants: seq<Tenant>, parent: nat, slug: string): (r: Option<Tenant>)
    ensures r.Some? ==> r.value in tenants && IsCentreOf(r.value, parent, slug)
    ensures r.None? ==> forall t :: t in tenants ==> !IsCentreOf(t, parent, slug)
  {
    if tenants == [] then None
    else if IsCentreOf(tenants[0], parent, slug) then Some(tenants[0])
    else FirstCentre(tenants[1..], parent, slug)
  }

  /** A route to a centre through its organisation: the guard, then the centre. */
  function RequireCentre(db: Database, user: nat, slug: string, permission: Permission, publishes: Option<string>, centre: string): Answer {
    match Require(db, user, slug, permission, publishes)
    case Admitted(tenant, role) =>
      (match FirstCentre(db.tenants, tenant.id, centre)
       case None => CentreNotFound
       case Some(found) => Admitted(found, role))
    case refusal => refusal
  }

  // ------------------------------------------------------------------ the database's constraints

  ghost predicate Consistent(db: Database) {
    && (forall i, j :: 0 <= i < j < |db.tenants| ==>
          db.tenants[i].id != db.tenants[j].id && db.tenants[i].slug != db.tenants[j].slug)
    && (forall i, j :: 0 <= i < j < |db.memberships| ==>
          !(db.memberships[i].user == db.memberships[j].user && db.memberships[i].tenant == db.memberships[j].tenant))
  }

  lemma {:induction false} TenantWithIs(tenants: seq<Tenant>, id: nat)
    ensures TenantWith(tenants, id).Some? ==> TenantWith(tenants, id).value in tenants && TenantWith(tenants, id).value.id == id
    ensures TenantWith(tenants, id).None? ==> forall t :: t in tenants ==> t.id != id
  {
    if tenants != [] {
      TenantWithIs(tenants[1..], id);
    }
  }

  lemma SameSlugSameTenant(db: Database, s: Tenant, t: Tenant)
    requires Consistent(db) && s in db.tenants && t in db.tenants && (s.slug == t.slug || s.id == t.id)
    ensures s == t
  {
    var i :| 0 <= i < |db.tenants| && db.tenants[i] == s;
    var j :| 0 <= j < |db.tenants| && db.tenants[j] == t;
  }

  /** At most one membership grants a caller the workspace with a slug. */
  lemma GrantIsUnique(db: Database, m: Membership, n: Membership, user: nat, slug: string)
    requires Consistent(db) && m in db.memberships && n in db.memberships
    requires Grants(db, m, user, slug) && Grants(db, n, user, slug)
    ensures m == n
  {
    TenantWithIs(db.tenants, m.tenant);
    TenantWithIs(db.tenants, n.tenant);
    SameSlugSameTenant(db, TenantWith(db.tenants, m.tenant).value, TenantWith(db.tenants, n.tenant).value);
    var i :| 0 <= i < |db.memberships| && db.memberships[i] == m;
    var j :| 0 <= j < |db.memberships| && db.memberships[j] == n;
  }

  // ------------------------------------------------------------------ admission

  /** The membership that would admit the caller. */
  ghost predicate Entitles(db: Database, m: Membership, user: nat, slug: string, permission: Permission, publishes: Option<string>) {
    && Grants(db, m, user, slug)
    && permission in RolePermissions(m.role)
    && (publishes.Some? ==> CapabilityFor(TenantWith(db.tenants, m.tenant).value, publishes.value) == Some(true))
  }

  lemma DecideAdmits(tenant: Tenant, role: string, permission: Permission, publishes: Option<string>)
    ensures Decide(tenant, role, permission, publishes).Admitted? <==>
            permission in RolePermissions(role) && (publishes.Some? ==> CapabilityFor(tenant, publishes.value) == Some(true))
    ensures Decide(tenant, role, permission, publishes).Admitted? ==>
            Decide(tenant, role, permission, publishes) == Admitted(tenant, role)
  {
    hide RolePermissions, CapabilityFor;
  }

  /** The membership admits the caller to the tenant with its role. */
  ghost predicate AdmittedBy(db: Database, m: Membership, user: nat, slug: string, permission: Permission, publishes: Option<string>, tenant: Tenant, role: string) {
    && m in db.memberships && Entitles(db, m, user, slug, permission, publishes)
    && TenantWith(db.tenants, m.tenant) == Some(tenant) && m.role == role
  }

  lemma FirstGrantDecides(db: Database, m: Membership, user: nat, slug: string, permission: Permission, publishes: Option<string>, tenant: Tenant, role: string)
    requires Consistent(db) && AdmittedBy(db, m, user, slug, permission, publishes, tenant, role)
    ensures Require(db, user, slug, permission, publishes) == Admitted(tenant, role)
  {
    hide RolePermissions, CapabilityFor, Consistent, Decide, IsWorkspace;
    var row := FirstGrant(db, db.memberships, user, slug);
    GrantIsUnique(db, row.value, m, user, slug);
    DecideAdmits(tenant, role, permission, publishes);
  }

  /** A request is admitted exactly when the caller has a membership in a workspace with the slug, whose
      role holds the permission and whose tenant has the capability; and it acts in that tenant with that
      role. */
  lemma AdmittedExactly(db: Database, user: nat, slug: string, permission: Permission, publishes: Option<string>, tenant: Tenant, role: string)
    requires Consistent(db)
    ensures Require(db, user, slug, permission, publishes) == Admitted(tenant, role) <==>
            exists m :: AdmittedBy(db, m, user, slug, permission, publishes, tenant, role)
  {
    hide RolePermissions, CapabilityFor, Consistent, Decide, IsWorkspace;
    if m :| AdmittedBy(db, m, user, slug, permission, publishes, tenant, role) {
      FirstGrantDecides(db, m, user, slug, permission, publishes, tenant, role);
    } else if Require(db, user, slug, permission, publishes) == Admitted(tenant, role) {
      var row := FirstGrant(db, db.memberships, user, slug);
      DecideAdmits(TenantWith(db.tenants, row.value.tenant).value, row.value.role, permission, publishes);
      assert AdmittedBy(db, row.value, user, slug, permission, publishes, tenant, role);
    }
  }

  /** A personal workspace is never acted in: only an employer, a course provider or a training centre is. */
  lemma NeverPersonal(db: Database, user: nat, slug: string, permission: Permission, publishes: Option<string>)
    ensures Require(db, user, slug, permission, publishes).Admitted? ==>
              Require(db, user, slug, permission, publishes).tenant.kind in ["employer", "course_provider", "training_centre"]
    ensures Require(db, user, slug, permission, publishes).Admitted? ==>
              Require(db, user, slug, permission, publishes).tenant.kind != "personal"
  {
  }

  predicate Operates(p: Permission) {
    || p.OpsOrgRead? || p.OpsOrgVerify? || p.OpsProgrammeRead? || p.OpsCandidateVerify? || p.OpsAliasEdit?
    || p.OpsGrievanceRead? || p.OpsGrievanceHandle? || p.OpsReportRead? || p.OpsReportHandle? || p.OpsListingTakedown?
    || p.OpsEnrol?
  }

  lemma OperatorOperates(p: Permission)
    ensures p in OPERATOR <==> Operates(p)
  {
    hide MEMBER, ADMIN, OWNER, MANAGER;
  }

  lemma RolesDoNotOperate(role: string, p: Permission)
    requires p in RolePermissions(role)
    ensures !Operates(p)
  {
    hide SUPPORT_TIER, OPERATOR;
  }

  lemma RolesHoldNoOperatorPermission(role: string)
    ensures RolePermissions(role) !! OPERATOR
  {
    hide RolePermissions, OPERATOR, SUPPORT_TIER, MEMBER, ADMIN, OWNER, MANAGER;
    forall p | p in RolePermissions(role)
      ensures p !in OPERATOR
    {
      RolesDoNotOperate(role, p);
      OperatorOperates(p);
    }
  }

  /** No membership admits anybody to an operator permission. */
  lemma MembershipNeverOperates(db: Database, user: nat, slug: string, permission: Permission, publishes: Option<string>)
    requires permission in OPERATOR
    ensures !Require(db, user, slug, permission, publishes).Admitted?
  {
    var row := FirstGrant(db, db.memberships, user, slug);
    if row.Some? {
      RolesHoldNoOperatorPermission(row.value.role);
      hide RolePermissions, OPERATOR;
      assert permission !in RolePermissions(row.value.role);
    }
  }

  // ------------------------------------------------------------------ operators

  datatype OperatorAnswer = NotForOperators | NoSuchRoute | TierForbids | Operating(permissions: set<Permission>)

  /** The guard of an operator route. A permission no operator holds is refused when the route is
      declared, whoever calls. */
  function RequireOperator(isStaff: bool, tier: Option<string>, permission: Permission): OperatorAnswer {
    if permission !in OPERATOR then NotForOperators
    else if !isStaff then NoSuchRoute
    else
      var granted := TierPermissions(if tier.Some? then tier.value else "");
      if permission !in granted then TierForbids else Operating(granted)
  }

  /** Operator permissions come from the staff flag and the tier, and are nothing but operator
      permissions; the support tier holds strictly fewer than the admin tier. */
  lemma OperatorsOperateOnly(isStaff: bool, tier: Option<string>, permission: Permission)
    ensures var answer := RequireOperator(isStaff, tier, permission);
      && (answer.Operating? <==> isStaff && tier.Some? && permission in TierPermissions(tier.value))
      && (answer.Operating? ==> answer.permissions <= OPERATOR)
      && (answer.NotForOperators? <==> permission !in OPERATOR)
    ensures TierPermissions("support") < TierPermissions("admin") == OPERATOR
  {
    assert OpsEnrol !in SUPPORT_TIER;
    assert TierPermissions("") == {};
  }

  // ------------------------------------------------------------------ what an answer depends on

  /** Two databases that agree on the caller's memberships, on the workspaces they name and on those
      workspaces' centres. */
  ghost predicate AgreeFor(a: Database, b: Database, user: nat) {
    && (forall m: Membership :: m.user == user ==> (m in a.memberships <==> m in b.memberships))
    && (forall m: Membership :: m.user == user && m in a.memberships ==> TenantWith(a.tenants, m.tenant) == TenantWith(b.tenants, m.tenant))
    && (forall m: Membership, t: Tenant, slug: string :: m.user == user && m in a.memberships ==>
          (t in a.tenants && IsCentreOf(t, m.tenant, slug) <==> t in b.tenants && IsCentreOf(t, m.tenant, slug)))
  }

  lemma SameGrant(a: Database, b: Database, user: nat, slug: string)
    requires Consistent(a) && Consistent(b) && AgreeFor(a, b, user)
    ensures FirstGrant(a, a.memberships, user, slug) == FirstGrant(b, b.memberships, user, slug)
  {
    var r, s := FirstGrant(a, a.memberships, user, slug), FirstGrant(b, b.memberships, user, slug);
    if r.Some? {
      assert Grants(b, r.value, user, slug) && r.value in b.memberships;
      GrantIsUnique(b, r.value, s.value, user, slug);
    }
  }

  lemma SameAnswer(a: Database, b: Database, user: nat, slug: string, permission: Permission, publishes: Option<string>)
    requires Consistent(a) && Consistent(b) && AgreeFor(a, b, user)
    ensures Require(a, user, slug, permission, publishes) == Require(b, user, slug, permission, publishes)
  {
    hide FirstGrant, Consistent, Decide, TenantWith, AgreeFor, IsWorkspace;
    SameGrant(a, b, user, slug);
    var row := FirstGrant(a, a.memberships, user, slug);
    if row.Some? {
      SameTenant(a, b, user, row.value);
    }
  }

  /** A guard's answer, refusals included, depends on nothing else: other organisations, other people's
      memberships and other organisations' centres cannot be told from it. */
  lemma AnswersDoNotLeak(a: Database, b: Database, user: nat, slug: string, permission: Permission, publishes: Option<string>, centre: string)
    requires Consistent(a) && Consistent(b) && AgreeFor(a, b, user)
    ensures Require(a, user, slug, permission, publishes) == Require(b, user, slug, permission, publishes)
    ensures RequireCentre(a, user, slug, permission, publishes, centre) == RequireCentre(b, user, slug, permission, publishes, centre)
  {
    hide Require, FirstCentre, Consistent, AgreeFor;
    SameAnswer(a, b, user, slug, permission, publishes);
    var answer := Require(a, user, slug, permission, publishes);
    if answer.Admitted? {
      var m := AdmittingMembership(a, user, slug, permission, publishes);
      SameTenant(a, b, user, m);
      SameCentre(a, b, user, m, centre);
    }
  }

  /** Behind every admission is a membership in the tenant it acts in. */
  lemma AdmittingMembership(db: Database, user: nat, slug: string, permission: Permission, publishes: Option<string>) returns (m: Membership)
    requires Require(db, user, slug, permission, publishes).Admitted?
    ensures m in db.memberships && m.user == user
    ensures TenantWith(db.tenants, m.tenant) == Some(Require(db, user, slug, permission, publishes).tenant)
  {
    hide Decide, IsWorkspace;
    var row := FirstGrant(db, db.memberships, user, slug);
    m := row.value;
    DecideAdmits(TenantWith(db.tenants, m.tenant).value, m.role, permission, publishes);
  }

  lemma SameTenant(a: Database, b: Database, user: nat, m: Membership)
    requires AgreeFor(a, b, user) && m.user == user && m in a.memberships
    ensures TenantWith(a.tenants, m.tenant) == TenantWith(b.tenants, m.tenant)
    ensures TenantWith(a.tenants, m.tenant).Some? ==> TenantWith(a.tenants, m.tenant).value.id == m.tenant
  {
    TenantWithIs(a.tenants, m.tenant);
  }

  lemma SameCentre(a: Database, b: Database, user: nat, m: Membership, slug: string)
    requires Consistent(a) && Consistent(b) && AgreeFor(a, b, user) && m.user == user && m in a.memberships
    ensures FirstCentre(a.tenants, m.tenant, slug) == FirstCentre(b.tenants, m.tenant, slug)
  {
    var r, s := FirstCentre(a.tenants, m.tenant, slug), FirstCentre(b.tenants, m.tenant, slug);
    if r.Some? {
      assert r.value in b.tenants && IsCentreOf(r.value, m.tenant, slug);
      SameSlugSameTenant(b, r.value, s.value);
    }
  }

  /** A centre is reached only through the organisation it belongs to: the caller is entitled in the
      parent, and the centre is the parent's. */
  lemma CentresThroughTheirParent(db: Database, user: nat, slug: string, permission: Permission, publishes: Option<string>, centre: string, found: Tenant, role: string)
    requires Consistent(db)
    ensures RequireCentre(db, user, slug, permission, publishes, centre) == Admitted(found, role) <==>
            exists m, parent :: AdmittedBy(db, m, user, slug, permission, publishes, parent, role)
                                && found in db.tenants && IsCentreOf(found, parent.id, centre)
  {
    hide Consistent, Require, AdmittedBy, FirstCentre, IsCentreOf;
    var answer := Require(db, user, slug, permission, publishes);
    if m, parent :| AdmittedBy(db, m, user, slug, permission, publishes, parent, role)
                    && found in db.tenants && IsCentreOf(found, parent.id, centre) {
      AdmittedExactly(db, user, slug, permission, publishes, parent, role);
      CentreIsUnique(db, parent.id, centre, found);
    } else if RequireCentre(db, user, slug, permission, publishes, centre) == Admitted(found, role) {
      AdmittedExactly(db, user, slug, permission, publishes, answer.tenant, role);
    }
  }

  lemma CentreIsUnique(db: Database, parent: nat, slug: string, found: Tenant)
    requires Consistent(db) && found in db.tenants && IsCentreOf(found, parent, slug)
    ensures FirstCentre(db.tenants, parent, slug) == Some(found)
  {
    SameSlugSameTenant(db, found, FirstCentre(db.tenants, parent, slug).value);
  }
}
