/**
 * The client's authentication context: the signed-in user as the server
 * sent it (with direct permissions and roles, each optional in the JSON),
 * the API token, their mirror in browser storage, and the permission and
 * role checks the pages use to show or hide actions.
 */
module Auth {
  import opened Wrappers

  datatype PermissionRef = PermissionRef(name: string)

  /** A role as serialised with the user; its permission list may be missing. */
  datatype Role = Role(name: string, permissions: Option<seq<PermissionRef>>)

  /** The user object; either list may be missing from the JSON. */
  datatype ClientUser = ClientUser(id: int, name: string, permissions: Option<seq<PermissionRef>>, roles: Option<seq<Role>>)

  /** Browser storage as a string-to-string map. */
  type Storage = map<string, string>

  const TokenKey := "token"
  const UserKey := "user"

  datatype AuthState = AuthState(user: Option<ClientUser>, token: Option<string>, storage: Storage)

  // ---- the checks -----------------------------------------------------------

  /** JavaScript `.some(p => p.name === name)` over a permission list. */
  function SomeNamed(ps: seq<PermissionRef>, name: string): (b: bool) {
    if ps == [] then false else ps[0].name == name || SomeNamed(ps[1..], name)
  }

  lemma {:induction false} SomeNamedIff(ps: seq<PermissionRef>, name: string)
    ensures SomeNamed(ps, name) <==> exists i :: 0 <= i < |ps| && ps[i].name == name
  {
    if ps != [] {
      SomeNamedIff(ps[1..], name);
      if exists i :: 0 <= i < |ps| && ps[i].name == name {
        var i :| 0 <= i < |ps| && ps[i].name == name;
        if i > 0 { assert ps[1..][i - 1] == ps[i]; }
      }
      if exists i :: 0 <= i < |ps[1..]| && ps[1..][i].name == name {
        var i :| 0 <= i < |ps[1..]| && ps[1..][i].name == name;
        assert ps[i + 1] == ps[1..][i];
      }
    }
  }

  /** The role grants `name` through its own permission list, when it has one. */
  predicate RoleGrants(r: Role, name: string) {
    r.permissions.Some? && SomeNamed(r.permissions.value, name)
  }

  function SomeRoleGrants(rs: seq<Role>, name: string): bool {
    if rs == [] then false else RoleGrants(rs[0], name) || SomeRoleGrants(rs[1..], name)
  }

  lemma {:induction false} SomeRoleGrantsIff(rs: seq<Role>, name: string)
    ensures SomeRoleGrants(rs, name) <==> exists i :: 0 <= i < |rs| && RoleGrants(rs[i], name)
  {
    if rs != [] {
      SomeRoleGrantsIff(rs[1..], name);
      if exists i :: 0 <= i < |rs| && RoleGrants(rs[i], name) {
        var i :| 0 <= i < |rs| && RoleGrants(rs[i], name);
        if i > 0 { assert rs[1..][i - 1] == rs[i]; }
      }
      if exists i :: 0 <= i < |rs[1..]| && RoleGrants(rs[1..][i], name) {
        var i :| 0 <= i < |rs[1..]| && RoleGrants(rs[1..][i], name);
        assert rs[i + 1] == rs[1..][i];
      }
    }
  }

  /** `hasPermission`: no user, no permission; a direct permission; otherwise some role's permission. */
  function HasPermission(user: Option<ClientUser>, name: string): (granted: bool) {
    if user.None? then false
    else if user.value.permissions.Some? && SomeNamed(user.value.permissions.value, name) then true
    else if user.value.roles.Some? then SomeRoleGrants(user.value.roles.value, name)
    else false
  }

  /** Directly held permission names of a user. */
  predicate HoldsDirectly(u: ClientUser, name: string) {
    u.permissions.Some? && exists i :: 0 <= i < |u.permissions.value| && u.permissions.value[i].name == name
  }

  /** Permission names held through one of the user's roles. */
  predicate HoldsThroughRole(u: ClientUser, name: string) {
    u.roles.Some? && exists i :: 0 <= i < |u.roles.value| && RoleGrants(u.roles.value[i], name)
  }

  /** A user has a permission exactly when it holds it directly or through a role. */
  lemma HasPermissionIff(user: Option<ClientUser>, name: string)
    ensures HasPermission(user, name) <==> user.Some? && (HoldsDirectly(user.value, name) || HoldsThroughRole(user.value, name))
  {
    if user.Some? {
      var u := user.value;
      if u.permissions.Some? { SomeNamedIff(u.permissions.value, name); }
      if u.roles.Some? { SomeRoleGrantsIff(u.roles.value, name); }
    }
  }

  function SomeHeld(user: Option<ClientUser>, names: seq<string>): bool {
    if names == [] then false else HasPermission(user, names[0]) || SomeHeld(user, names[1..])
  }

  /** `hasAnyPermission`: anything but an array (here `None`) is refused; otherwise some listed permission is held. */
  function HasAnyPermission(user: Option<ClientUser>, names: Option<seq<string>>): (granted: bool) {
    names.Some? && SomeHeld(user, names.value)
  }

  lemma {:induction false} SomeHeldIff(user: Option<ClientUser>, names: seq<string>)
    ensures SomeHeld(user, names) <==> exists i :: 0 <= i < |names| && HasPermission(user, names[i])
  {
    if names != [] {
      SomeHeldIff(user, names[1..]);
      if exists i :: 0 <= i < |names| && HasPermission(user, names[i]) {
        var i :| 0 <= i < |names| && HasPermission(user, names[i]);
        if i > 0 { assert names[1..][i - 1] == names[i]; }
      }
      if exists i :: 0 <= i < |names[1..]| && HasPermission(user, names[1..][i]) {
        var i :| 0 <= i < |names[1..]| && HasPermission(user, names[1..][i]);
        assert names[i + 1] == names[1..][i];
      }
    }
  }

  /** `hasAnyPermission` is refused for a non-array and for an empty list, and otherwise holds iff some listed name passes `hasPermission`. */
  lemma HasAnyPermissionIff(user: Option<ClientUser>, names: Option<seq<string>>)
    ensures names.None? ==> !HasAnyPermission(user, names)
    ensures names == Some([]) ==> !HasAnyPermission(user, names)
    ensures names.Some? ==> (HasAnyPermission(user, names) <==>
                             exists i :: 0 <= i < |names.value| && HasPermission(user, names.value[i]))
  {
    if names.Some? { SomeHeldIff(user, names.value); }
  }

  function SomeRoleNamed(rs: seq<Role>, name: string): bool {
    if rs == [] then false else rs[0].name == name || SomeRoleNamed(rs[1..], name)
  }

  /** `hasRole`: no user or no role list, no role; otherwise some role carries the name. */
  function HasRole(user: Option<ClientUser>, name: string): (held: bool) {
    user.Some? && user.value.roles.Some? && SomeRoleNamed(user.value.roles.value, name)
  }

  lemma {:induction false} HasRoleIff(user: Option<ClientUser>, name: string)
    ensures HasRole(user, name) <==>
            user.Some? && user.value.roles.Some? &&
            exists i :: 0 <= i < |user.value.roles.value| && user.value.roles.value[i].name == name
  {
    if user.Some? && user.value.roles.Some? {
      SomeRoleNamedIff(user.value.roles.value, name);
    }
  }

  lemma {:induction false} SomeRoleNamedIff(rs: seq<Role>, name: string)
    ensures SomeRoleNamed(rs, name) <==> exists i :: 0 <= i < |rs| && rs[i].name == name
  {
    if rs != [] {
      SomeRoleNamedIff(rs[1..], name);
      if exists i :: 0 <= i < |rs| && rs[i].name == name {
        var i :| 0 <= i < |rs| && rs[i].name == name;
        if i > 0 { assert rs[1..][i - 1] == rs[i]; }
      }
      if exists i :: 0 <= i < |rs[1..]| && rs[1..][i].name == name {
        var i :| 0 <= i < |rs[1..]| && rs[1..][i].name == name;
        assert rs[i + 1] == rs[1..][i];
      }
    }
  }

  /**
   * Holding a role does not by itself grant its permissions when the role
   * arrives without a permission list; a user with a matching direct
   * permission is granted even without roles.
   */
  lemma RoleWithoutListGrantsNothing()
    ensures var u := ClientUser(1, "a", None, Some([Role("admin", None)]));
            HasRole(Some(u), "admin") && !HasPermission(Some(u), "read_project")
    ensures HasPermission(Some(ClientUser(1, "a", Some([PermissionRef("read_project")]), None)), "read_project")
  {
    var u := ClientUser(1, "a", None, Some([Role("admin", None)]));
    assert [Role("admin", None)][1..] == [];
    assert [PermissionRef("read_project")][1..] == [];
  }

  // ---- sign-in state --------------------------------------------------------

  /** JavaScript truthiness of the token: present and non-empty. */
  predicate TokenTruthy(t: Option<string>) {
    t.Some? && t.value != ""
  }

  /** `isAuthenticated`: a truthy token and a user. */
  predicate IsAuthenticated(s: AuthState) {
    TokenTruthy(s.token) && s.user.Some?
  }

  /** `login`: keep the user and token and mirror them to storage; `userJson` is the serialised user. */
  function Login(s: AuthState, user: ClientUser, token: string, userJson: string): (r: AuthState)
    ensures r.user == Some(user) && r.token == Some(token)
    ensures r.storage == s.storage[TokenKey := token][UserKey := userJson]
    ensures IsAuthenticated(r) <==> token != ""
  {
    AuthState(Some(user), Some(token), s.storage[TokenKey := token][UserKey := userJson])
  }

  /** `logout`: forget user and token and remove both storage keys. */
  function Logout(s: AuthState): (r: AuthState)
    ensures r.user.None? && r.token.None? && !IsAuthenticated(r)
    ensures TokenKey !in r.storage && UserKey !in r.storage
    ensures forall k :: k in s.storage && k != TokenKey && k != UserKey ==> k in r.storage && r.storage[k] == s.storage[k]
    ensures forall k :: k in r.storage ==> k in s.storage
  {
    AuthState(None, None, s.storage - {TokenKey, UserKey})
  }

  /** Signing out right after signing in leaves exactly the state signing out alone would. */
  lemma LogoutUndoesLogin(s: AuthState, user: ClientUser, token: string, userJson: string)
    ensures Logout(Login(s, user, token, userJson)) == Logout(s)
  {
    var a := Logout(Login(s, user, token, userJson)).storage;
    var b := Logout(s).storage;
    assert a.Keys == b.Keys;
  }

  /**
   * Start-up: the token comes from storage; when it is truthy and a
   * non-empty user entry exists, the user is parsed from it (`parse` stands
   * for `JSON.parse`, `None` for a parse error, which signs out).
   */
  function Restore(storage: Storage, parse: string -> Option<ClientUser>): (r: AuthState)
    ensures var token := if TokenKey in storage then Some(storage[TokenKey]) else None;
            !TokenTruthy(token) || UserKey !in storage || storage[UserKey] == "" ==> r == AuthState(None, token, storage)
  {
    var token := if TokenKey in storage then Some(storage[TokenKey]) else None;
    var s := AuthState(None, token, storage);
    if TokenTruthy(token) && UserKey in storage && storage[UserKey] != "" then
      match parse(storage[UserKey])
      case Some(u) => s.(user := Some(u))
      case None => Logout(s)
    else s
  }

  /**
   * A reload after a sign-in with a non-empty token restores the same user
   * and token, provided parsing inverts the serialisation, and then counts
   * as authenticated.
   */
  lemma RestoreAfterLogin(s: AuthState, user: ClientUser, token: string, userJson: string, parse: string -> Option<ClientUser>)
    requires token != "" && userJson != "" && parse(userJson) == Some(user)
    ensures var r := Restore(Login(s, user, token, userJson).storage, parse);
            r.user == Some(user) && r.token == Some(token) && IsAuthenticated(r)
  {
  }

  /** A stored user that cannot be parsed signs the browser out. */
  lemma RestoreUnparsableSignsOut(storage: Storage, parse: string -> Option<ClientUser>)
    requires TokenKey in storage && storage[TokenKey] != "" && UserKey in storage && storage[UserKey] != ""
    requires parse(storage[UserKey]).None?
    ensures var r := Restore(storage, parse);
            !IsAuthenticated(r) && TokenKey !in r.storage && UserKey !in r.storage
  {
  }
}
