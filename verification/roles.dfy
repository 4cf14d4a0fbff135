/**
 * Role-based access: the CheckRole middleware, the notification,
 * procedure and vehicle policies, and the `admin`, `operator` and
 * `viewer` gates.
 *
 * The source reads a user's role in two incompatible ways. CheckRole and
 * the procedure and vehicle policies compare it with `UserRole` enum
 * cases; the notification policy, the gates and the settings controller
 * compare it with the raw string `'admin'` using `===`. With strict
 * comparison an enum case never equals a string, so whichever form the
 * attribute takes at run time, one family of checks rejects every user.
 * `RoleAttr` keeps both forms (and a null role) so that each predicate can
 * be stated exactly as written.
 */
module Roles {
  import opened Common

  /** The cases of the UserRole enum. */
  datatype UserRole = Admin | Agent | Finance

  /** The enum's backed value. */
  function RoleValue(r: UserRole): string {
    match r
    case Admin => "admin"
    case Agent => "agent"
    case Finance => "finance"
  }

  /** The `role` attribute as PHP sees it: an enum case, a plain string, or null. */
  datatype RoleAttr = EnumRole(role: UserRole) | RawRole(text: string) | NoRole

  /** An authenticated user, as the policies see it. */
  datatype Actor = Actor(id: nat, role: RoleAttr)

  /** `$user->role === '<text>'`: only a plain string can be identical to a string. */
  predicate RoleIsText(a: RoleAttr, text: string) {
    a == RawRole(text)
  }

  /** `$user->role === UserRole::X` (also what a non-strict `in_array` of enum cases amounts to). */
  predicate RoleIsCase(a: RoleAttr, r: UserRole) {
    a == EnumRole(r)
  }

  /** The column value the database stores for a role attribute. */
  function StoredRole(a: RoleAttr): Option<string> {
    match a
    case EnumRole(r) => Some(RoleValue(r))
    case RawRole(s) => Some(s)
    case NoRole => None
  }

  /** `$user->role->value`: defined only for an enum case; on anything else the read fails. */
  function RoleValueRead(a: RoleAttr): Option<string> {
    match a
    case EnumRole(r) => Some(RoleValue(r))
    case _ => None
  }

  // ---------------------------------------------------------------------
  // CheckRole middleware

  /** stringToUserRole. */
  function StringToUserRole(s: string): (r: Option<UserRole>)
    ensures r.Some? <==> s in {"admin", "agent", "finance"}
    ensures r.Some? ==> RoleValue(r.value) == s
  {
    if s == "admin" then Some(Admin)
    else if s == "agent" then Some(Agent)
    else if s == "finance" then Some(Finance)
    else None
  }

  /** `$user->role === $roleEnum`, where the mapped role may be null. */
  predicate SameRole(a: RoleAttr, mapped: Option<UserRole>) {
    match mapped
    case Some(r) => a == EnumRole(r)
    case None => a == NoRole
  }

  /** The foreach loop: some listed string maps to the user's role. */
  function AnyListedRole(a: RoleAttr, roles: seq<string>): bool {
    if |roles| == 0 then false
    else SameRole(a, StringToUserRole(roles[0])) || AnyListedRole(a, roles[1..])
  }

  datatype Decision = Pass | Deny(status: nat)

  /**
   * handle: 401 without a user; pass when no roles are listed or the user
   * is the ADMIN case; otherwise pass iff some listed role string maps to
   * the user's role; else 403.
   */
  function CheckRole(user: Option<Actor>, roles: seq<string>): (d: Decision)
    ensures user.None? ==> d == Deny(StatusUnauthorized)
    ensures user.Some? && (|roles| == 0 || user.value.role == EnumRole(Admin)) ==> d == Pass
    ensures user.Some? ==> (d == Pass <==>
      |roles| == 0 || user.value.role == EnumRole(Admin)
      || exists i :: 0 <= i < |roles| && SameRole(user.value.role, StringToUserRole(roles[i])))
    ensures d != Pass ==> d == Deny(StatusUnauthorized) || d == Deny(StatusForbidden)
    ensures user.Some? && d != Pass ==> d == Deny(StatusForbidden)
  {
    match user
    case None => Deny(StatusUnauthorized)
    case Some(u) =>
      AnyListedRoleIff(u.role, roles);
      if |roles| == 0 || u.role == EnumRole(Admin) then Pass
      else if AnyListedRole(u.role, roles) then Pass
      else Deny(StatusForbidden)
  }

  /** The loop's recursive form grants access iff some position of the list matches. */
  lemma {:induction false} AnyListedRoleIff(a: RoleAttr, roles: seq<string>)
    ensures AnyListedRole(a, roles) <==> exists i :: 0 <= i < |roles| && SameRole(a, StringToUserRole(roles[i]))
  {
    if |roles| > 0 {
      AnyListedRoleIff(a, roles[1..]);
      if AnyListedRole(a, roles[1..]) {
        var j :| 0 <= j < |roles[1..]| && SameRole(a, StringToUserRole(roles[1..][j]));
        assert roles[j + 1] == roles[1..][j];
      }
      forall i | 1 <= i < |roles| && SameRole(a, StringToUserRole(roles[i]))
        ensures AnyListedRole(a, roles[1..])
      {
        assert roles[1..][i - 1] == roles[i];
      }
    }
  }

  /** A string other than admin, agent or finance never grants access to a user whose role is set. */
  lemma UnknownRoleStringGrantsNothing(u: Actor, s: string)
    requires s !in {"admin", "agent", "finance"}
    requires u.role != NoRole
    ensures !SameRole(u.role, StringToUserRole(s))
    ensures u.role != EnumRole(Admin) ==> CheckRole(Some(u), [s]) == Deny(StatusForbidden)
  {
  }

  /** For a user whose role is null, an unknown role string does match: null === null. */
  lemma NullRoleMatchesUnknownString()
    ensures CheckRole(Some(Actor(1, NoRole)), ["operator"]) == Pass
  {
  }

  /** Extending a non-empty role list never revokes access. */
  lemma MoreRolesNeverRevoke(user: Option<Actor>, roles: seq<string>, extra: seq<string>)
    requires |roles| > 0
    ensures CheckRole(user, roles) == Pass ==> CheckRole(user, roles + extra) == Pass
  {
    if user.Some? && CheckRole(user, roles) == Pass && user.value.role != EnumRole(Admin) {
      var i :| 0 <= i < |roles| && SameRole(user.value.role, StringToUserRole(roles[i]));
      assert (roles + extra)[i] == roles[i];
    }
  }

  /** The empty list is the exception: it admits everyone, and adding a role restricts access. */
  lemma EmptyListIsNoRestriction()
    ensures CheckRole(Some(Actor(1, EnumRole(Finance))), []) == Pass
    ensures CheckRole(Some(Actor(1, EnumRole(Finance))), ["agent"]) == Deny(StatusForbidden)
  {
  }

  // ---------------------------------------------------------------------
  // NotificationPolicy (raw-string role comparisons)

  /** A notification's owner: `user_id` is null for notifications addressed to an owner. */
  datatype NoticeRef = NoticeRef(userId: Option<nat>)

  predicate IsOwner(u: Actor, n: NoticeRef) {
    n.userId == Some(u.id)
  }

  predicate NotificationViewAny(u: Actor) { true }
  predicate NotificationView(u: Actor, n: NoticeRef) { IsOwner(u, n) }
  predicate NotificationCreate(u: Actor) { RoleIsText(u.role, "admin") }
  predicate NotificationUpdate(u: Actor, n: NoticeRef) { IsOwner(u, n) }
  predicate NotificationDelete(u: Actor, n: NoticeRef) { IsOwner(u, n) || RoleIsText(u.role, "admin") }
  predicate NotificationRestore(u: Actor, n: NoticeRef) { RoleIsText(u.role, "admin") }
  predicate NotificationForceDelete(u: Actor, n: NoticeRef) { RoleIsText(u.role, "admin") }

  /** The notification policy's relations between its seven abilities. */
  lemma NotificationPolicyFacts(u: Actor, n: NoticeRef)
    ensures NotificationViewAny(u)
    ensures NotificationView(u, n) <==> NotificationUpdate(u, n)
    ensures NotificationUpdate(u, n) ==> NotificationDelete(u, n)
    ensures NotificationRestore(u, n) ==> NotificationDelete(u, n)
    ensures (NotificationCreate(u) <==> NotificationRestore(u, n)) && (NotificationRestore(u, n) <==> NotificationForceDelete(u, n))
    ensures NotificationDelete(u, n) <==> IsOwner(u, n) || NotificationCreate(u)
    ensures n.userId.None? ==> !NotificationView(u, n) && (NotificationDelete(u, n) <==> NotificationCreate(u))
  {
  }

  // ---------------------------------------------------------------------
  // ProcedurePolicy and VehiclePolicy (enum role comparisons)

  predicate AdminOrAgent(u: Actor) { RoleIsCase(u.role, Admin) || RoleIsCase(u.role, Agent) }

  predicate ProcedureViewAny(u: Actor) { true }
  predicate ProcedureView(u: Actor) { true }
  predicate ProcedureCreate(u: Actor) { AdminOrAgent(u) }
  predicate ProcedureUpdate(u: Actor) { AdminOrAgent(u) }
  predicate ProcedureDelete(u: Actor) { RoleIsCase(u.role, Admin) }
  predicate ProcedureRestore(u: Actor) { RoleIsCase(u.role, Admin) }
  predicate ProcedureForceDelete(u: Actor) { RoleIsCase(u.role, Admin) }
  predicate ProcedureManageDocuments(u: Actor) { AdminOrAgent(u) }

  /** Deleting implies updating; finance may only view; an agent may edit but not delete. */
  lemma ProcedurePolicyFacts(u: Actor)
    ensures ProcedureViewAny(u) && ProcedureView(u)
    ensures ProcedureDelete(u) ==> ProcedureUpdate(u)
    ensures (ProcedureCreate(u) <==> ProcedureUpdate(u)) && (ProcedureUpdate(u) <==> ProcedureManageDocuments(u))
    ensures (ProcedureDelete(u) <==> ProcedureRestore(u)) && (ProcedureRestore(u) <==> ProcedureForceDelete(u))
    ensures u.role == EnumRole(Finance) ==>
      !ProcedureCreate(u) && !ProcedureUpdate(u) && !ProcedureDelete(u) && !ProcedureManageDocuments(u)
    ensures u.role == EnumRole(Agent) ==> ProcedureUpdate(u) && !ProcedureDelete(u)
    ensures u.role.RawRole? ==> !ProcedureCreate(u) && !ProcedureDelete(u)
  {
  }

  predicate VehicleViewAny(u: Actor) { true }
  predicate VehicleView(u: Actor) { true }
  predicate VehicleCreate(u: Actor) { AdminOrAgent(u) }
  predicate VehicleUpdate(u: Actor) { AdminOrAgent(u) }
  predicate VehicleDelete(u: Actor) { RoleIsCase(u.role, Admin) }
  predicate VehicleRestore(u: Actor) { RoleIsCase(u.role, Admin) }
  predicate VehicleForceDelete(u: Actor) { RoleIsCase(u.role, Admin) }

  lemma VehiclePolicyFacts(u: Actor)
    ensures VehicleViewAny(u) && VehicleView(u)
    ensures VehicleDelete(u) ==> VehicleUpdate(u)
    ensures VehicleCreate(u) <==> VehicleUpdate(u)
    ensures (VehicleDelete(u) <==> VehicleRestore(u)) && (VehicleRestore(u) <==> VehicleForceDelete(u))
    ensures u.role == EnumRole(Agent) ==> VehicleUpdate(u) && !VehicleDelete(u)
    ensures u.role == EnumRole(Finance) ==> !VehicleCreate(u) && !VehicleUpdate(u) && !VehicleDelete(u)
  {
  }

  // ---------------------------------------------------------------------
  // Gates defined in AuthServiceProvider::boot (raw-string role comparisons)

  predicate AdminGate(u: Actor) { RoleIsText(u.role, "admin") }
  predicate OperatorGate(u: Actor) { RoleIsText(u.role, "operator") || RoleIsText(u.role, "admin") }
  predicate ViewerGate(u: Actor) {
    RoleIsText(u.role, "viewer") || RoleIsText(u.role, "operator") || RoleIsText(u.role, "admin")
  }

  /** The gates are nested; agents, finance users and every enum-typed role pass none of them. */
  lemma GatesNested(u: Actor)
    ensures AdminGate(u) ==> OperatorGate(u)
    ensures OperatorGate(u) ==> ViewerGate(u)
    ensures AdminGate(u) <==> u.role == RawRole("admin")
    ensures OperatorGate(u) <==> u.role in {RawRole("operator"), RawRole("admin")}
    ensures ViewerGate(u) <==> u.role in {RawRole("viewer"), RawRole("operator"), RawRole("admin")}
    ensures u.role.EnumRole? || u.role in {RawRole("agent"), RawRole("finance"), NoRole} ==> !ViewerGate(u)
  {
  }

  /**
   * The inconsistency: no user is an administrator for both families of
   * checks. Whoever may delete a vehicle or procedure cannot create a
   * notification or pass the `admin` gate, and the other way round.
   */
  lemma AdminChecksAreDisjoint(u: Actor)
    ensures !(VehicleDelete(u) && AdminGate(u))
    ensures !(ProcedureDelete(u) && NotificationCreate(u))
    ensures CheckRole(Some(u), ["finance"]) == Pass && u.role != EnumRole(Finance) ==> !AdminGate(u)
  {
  }
}
