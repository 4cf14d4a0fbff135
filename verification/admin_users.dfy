/**
 * The administrators' user management controller: every action first
 * requires the caller's role to be the `admin` enum case; deletion keeps
 * at least one administrator; deactivation keeps at least one active
 * administrator; a password is replaced only when a non-empty one is
 * supplied.
 */
module AdminUsers {
  import opened Common
  import opened Roles

  /** A stored password hash; hashing itself is not modelled, only which plain text was hashed. */
  datatype Password = Hashed(plain: string)

  datatype Account = Account(
    role: RoleAttr,
    isActive: bool,
    hasNotifications: bool,
    hasPayments: bool,
    name: string,
    email: string,
    password: Password
  )

  /** The users table keyed by id. */
  type Directory = map<nat, Account>

  /** Ids whose stored `role` column is `'admin'` (`User::where('role', 'admin')`). */
  function AdminIds(users: Directory): set<nat> {
    set id | id in users && StoredRole(users[id].role) == Some("admin")
  }

  /** Ids of administrators that are also active. */
  function ActiveAdminIds(users: Directory): set<nat> {
    set id | id in users && StoredRole(users[id].role) == Some("admin") && users[id].isActive
  }

  function AdminCount(users: Directory): nat { |AdminIds(users)| }
  function ActiveAdminCount(users: Directory): nat { |ActiveAdminIds(users)| }

  datatype Guard = Allowed | Refused(status: nat)

  /**
   * ensureAdmin: 403 without a user or when the role's enum value is not
   * `admin`. Reading `->value` of a role that is not an enum case raises
   * an error, answered 500.
   */
  function EnsureAdmin(caller: Option<Account>): (g: Guard)
    ensures g == Allowed <==> caller.Some? && caller.value.role == EnumRole(Admin)
    ensures g != Allowed ==> g == Refused(StatusForbidden) || g == Refused(StatusServerError)
    ensures caller.Some? && caller.value.role.RawRole? ==> g == Refused(StatusServerError)
    ensures caller.None? ==> g == Refused(StatusForbidden)
    ensures caller.Some? && caller.value.role.EnumRole? && caller.value.role != EnumRole(Admin) ==>
      g == Refused(StatusForbidden)
    ensures caller.Some? && !caller.value.role.EnumRole? ==> g == Refused(StatusServerError)
  {
    match caller
    case None => Refused(StatusForbidden)
    case Some(u) =>
      match RoleValueRead(u.role)
      case None => Refused(StatusServerError)
      case Some(v) => if v == "admin" then Allowed else Refused(StatusForbidden)
  }

  datatype UsersReply = UsersReply(status: nat, users: Directory)

  lemma AdminIdsWithout(users: Directory, id: nat)
    requires id in users
    ensures AdminIds(users - {id}) == AdminIds(users) - {id}
    ensures ActiveAdminIds(users - {id}) == ActiveAdminIds(users) - {id}
  {
  }

  /**
   * destroy. Route binding answers 404 for an unknown id before the
   * controller runs. An administrator target is refused (422) while at
   * most one administrator exists, counting inactive ones; a user with
   * notifications or payments is refused (422). A target whose role is not
   * an enum case fails on `->value` (500).
   */
  function DestroyUser(caller: Option<Account>, users: Directory, id: nat): (r: UsersReply)
    ensures id !in users ==> r == UsersReply(StatusNotFound, users)
    ensures id in users && EnsureAdmin(caller) != Allowed ==> r == UsersReply(EnsureAdmin(caller).status, users)
    ensures r.status == StatusNoContent ==> r.users == users - {id}
    ensures r.status != StatusNoContent ==> r.users == users
    ensures r.status == StatusNoContent <==>
      && id in users && EnsureAdmin(caller) == Allowed && users[id].role.EnumRole?
      && (users[id].role == EnumRole(Admin) ==> AdminCount(users) > 1)
      && !users[id].hasNotifications && !users[id].hasPayments
    ensures AdminCount(users) >= 1 ==> AdminCount(r.users) >= 1
    ensures id in users && EnsureAdmin(caller) == Allowed && !users[id].role.EnumRole? ==>
      r == UsersReply(StatusServerError, users)
    ensures id in users && EnsureAdmin(caller) == Allowed && users[id].role.EnumRole? && r.status != StatusNoContent ==>
      r == UsersReply(StatusUnprocessable, users)
  {
    if id !in users then UsersReply(StatusNotFound, users)
    else match EnsureAdmin(caller)
      case Refused(s) => UsersReply(s, users)
      case Allowed =>
        var target := users[id];
        match RoleValueRead(target.role)
        case None => UsersReply(StatusServerError, users)
        case Some(v) =>
          if v == "admin" && AdminCount(users) <= 1 then UsersReply(StatusUnprocessable, users)
          else if target.hasNotifications || target.hasPayments then UsersReply(StatusUnprocessable, users)
          else
            AdminIdsWithout(users, id);
            assert AdminIds(users) - {id} == AdminIds(users) || (id in AdminIds(users) && AdminCount(users) > 1);
            UsersReply(StatusNoContent, users - {id})
  }

  /**
   * The guard counts every administrator, active or not: with one active
   * and one inactive administrator, the active one can be deleted and no
   * active administrator remains.
   */
  lemma LastActiveAdminCanBeDeleted()
    ensures var admin := Account(EnumRole(Admin), true, false, false, "a", "a@x", Hashed("p"));
      var dormant := Account(EnumRole(Admin), false, false, false, "b", "b@x", Hashed("q"));
      var users := map[1 := admin, 2 := dormant];
      && ActiveAdminCount(users) == 1
      && DestroyUser(Some(admin), users, 1) == UsersReply(StatusNoContent, map[2 := dormant])
      && ActiveAdminCount(map[2 := dormant]) == 0
  {
    var admin := Account(EnumRole(Admin), true, false, false, "a", "a@x", Hashed("p"));
    var dormant := Account(EnumRole(Admin), false, false, false, "b", "b@x", Hashed("q"));
    var users := map[1 := admin, 2 := dormant];
    assert AdminIds(users) == {1, 2};
    assert ActiveAdminIds(users) == {1};
    assert users - {1} == map[2 := dormant];
    assert ActiveAdminIds(map[2 := dormant]) == {};
  }

  lemma ActiveAdminIdsAfterToggle(users: Directory, id: nat)
    requires id in users
    ensures var t := users[id];
      var after := users[id := t.(isActive := !t.isActive)];
      && AdminIds(after) == AdminIds(users)
      && (StoredRole(t.role) != Some("admin") ==> ActiveAdminIds(after) == ActiveAdminIds(users))
      && (StoredRole(t.role) == Some("admin") && t.isActive ==> ActiveAdminIds(after) == ActiveAdminIds(users) - {id})
      && (StoredRole(t.role) == Some("admin") && !t.isActive ==> ActiveAdminIds(after) == ActiveAdminIds(users) + {id})
  {
  }

  /**
   * toggleActive: an active administrator is not deactivated (400) while
   * at most one active administrator exists; otherwise only `is_active`
   * flips. A target whose role is not an enum case fails on `->value` (500).
   */
  function ToggleActive(caller: Option<Account>, users: Directory, id: nat): (r: UsersReply)
    ensures id !in users ==> r == UsersReply(StatusNotFound, users)
    ensures id in users && EnsureAdmin(caller) != Allowed ==> r == UsersReply(EnsureAdmin(caller).status, users)
    ensures r.status == StatusOk ==> r.users == users[id := users[id].(isActive := !users[id].isActive)]
    ensures r.status != StatusOk ==> r.users == users
    ensures r.status == StatusOk <==>
      && id in users && EnsureAdmin(caller) == Allowed && users[id].role.EnumRole?
      && (users[id].role == EnumRole(Admin) && users[id].isActive ==> ActiveAdminCount(users) > 1)
    ensures ActiveAdminCount(users) >= 1 ==> ActiveAdminCount(r.users) >= 1
    ensures id in users && EnsureAdmin(caller) == Allowed && !users[id].role.EnumRole? ==>
      r == UsersReply(StatusServerError, users)
    ensures id in users && EnsureAdmin(caller) == Allowed && users[id].role.EnumRole? && r.status != StatusOk ==>
      r == UsersReply(StatusBadRequest, users)
  {
    if id !in users then UsersReply(StatusNotFound, users)
    else match EnsureAdmin(caller)
      case Refused(s) => UsersReply(s, users)
      case Allowed =>
        var target := users[id];
        match RoleValueRead(target.role)
        case None => UsersReply(StatusServerError, users)
        case Some(v) =>
          if v == "admin" && target.isActive && ActiveAdminCount(users) <= 1 then UsersReply(StatusBadRequest, users)
          else
            ActiveAdminIdsAfterToggle(users, id);
            var after := users[id := target.(isActive := !target.isActive)];
            assert ActiveAdminIds(after) >= ActiveAdminIds(users) - {id};
            assert ActiveAdminCount(users) >= 1 ==> ActiveAdminCount(after) >= 1 by {
              if ActiveAdminCount(users) >= 1 && id in ActiveAdminIds(users) {
                assert |ActiveAdminIds(users) - {id}| == ActiveAdminCount(users) - 1;
              } else if ActiveAdminCount(users) >= 1 {
                assert ActiveAdminIds(users) - {id} == ActiveAdminIds(users);
              }
              if |ActiveAdminIds(users) - {id}| >= 1 {
                assert ActiveAdminIds(users) - {id} <= ActiveAdminIds(after);
              }
            }
            UsersReply(StatusOk, after)
  }

  /** Two permitted toggles in a row restore the directory. */
  lemma ToggleTwiceRestores(caller: Option<Account>, users: Directory, id: nat)
    requires ToggleActive(caller, users, id).status == StatusOk
    requires ToggleActive(caller, ToggleActive(caller, users, id).users, id).status == StatusOk
    ensures ToggleActive(caller, ToggleActive(caller, users, id).users, id).users == users
  {
  }

  /** The fields an update request may carry; an absent field is `None`. */
  datatype UserUpdate = UserUpdate(
    name: Option<string>,
    email: Option<string>,
    role: Option<RoleAttr>,
    isActive: Option<bool>,
    password: Option<string>
  )

  /** PHP's `empty()` on a string: the empty string and `"0"`. */
  predicate PhpEmpty(s: string) {
    s == "" || s == "0"
  }

  /** The account after `$user->update($data)`, password handled as the controller does. */
  function ApplyUpdate(a: Account, req: UserUpdate): (r: Account)
    ensures req.password.Some? && !PhpEmpty(req.password.value) ==> r.password == Hashed(req.password.value)
    ensures req.password.None? || PhpEmpty(req.password.value) ==> r.password == a.password
    ensures r.name == req.name.GetOr(a.name) && r.email == req.email.GetOr(a.email)
    ensures r.role == req.role.GetOr(a.role) && r.isActive == req.isActive.GetOr(a.isActive)
    ensures r.hasNotifications == a.hasNotifications && r.hasPayments == a.hasPayments
  {
    var pw := if req.password.Some? && !PhpEmpty(req.password.value) then Hashed(req.password.value) else a.password;
    Account(req.role.GetOr(a.role), req.isActive.GetOr(a.isActive), a.hasNotifications, a.hasPayments,
            req.name.GetOr(a.name), req.email.GetOr(a.email), pw)
  }

  /** update: 404, then the admin guard, then the field update. */
  function UpdateUser(caller: Option<Account>, users: Directory, id: nat, req: UserUpdate): (r: UsersReply)
    ensures id !in users ==> r == UsersReply(StatusNotFound, users)
    ensures id in users && EnsureAdmin(caller) != Allowed ==> r == UsersReply(EnsureAdmin(caller).status, users)
    ensures r.status == StatusOk <==> id in users && EnsureAdmin(caller) == Allowed
    ensures r.status == StatusOk ==> r.users == users[id := ApplyUpdate(users[id], req)]
  {
    if id !in users then UsersReply(StatusNotFound, users)
    else match EnsureAdmin(caller)
      case Refused(s) => UsersReply(s, users)
      case Allowed => UsersReply(StatusOk, users[id := ApplyUpdate(users[id], req)])
  }

  /** An update without a usable password keeps the stored hash. */
  lemma UpdateKeepsPasswordUnlessGiven(caller: Option<Account>, users: Directory, id: nat, req: UserUpdate)
    requires id in users
    requires req.password.None? || PhpEmpty(req.password.value)
    ensures UpdateUser(caller, users, id, req).users[id].password == users[id].password
  {
  }

  datatype RolesReply = RolesReply(status: nat, values: seq<string>)

  /** getRoles: the backed values of every UserRole case, for administrators only. */
  function GetRoles(caller: Option<Account>): (r: RolesReply)
    ensures EnsureAdmin(caller) != Allowed ==> r == RolesReply(EnsureAdmin(caller).status, [])
    ensures EnsureAdmin(caller) == Allowed ==>
      && r.status == StatusOk
      && (forall i :: 0 <= i < |r.values| ==>
            StringToUserRole(r.values[i]).Some? && RoleValue(StringToUserRole(r.values[i]).value) == r.values[i])
      && (forall c: UserRole :: RoleValue(c) in r.values)
  {
    match EnsureAdmin(caller)
    case Refused(s) => RolesReply(s, [])
    case Allowed => RolesReply(StatusOk, [RoleValue(Admin), RoleValue(Agent), RoleValue(Finance)])
  }
}
