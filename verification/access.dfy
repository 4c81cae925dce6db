/**
 * The server's permission gate shared by all controllers: a 403 body when
 * the request has no user or the user lacks the permission, nothing
 * otherwise. Which permissions a user holds (directly or through roles) is
 * decided by the role-and-permission library; here it is the set `granted`.
 */
module Access {
  import opened Wrappers
  import Auth

  /** The authenticated user as far as the gate sees it. */
  datatype ServerUser = ServerUser(id: int, granted: set<string>)

  /** The JSON body sent with status 403. */
  datatype Denial = Denial(status: int, message: string, requiredPermission: string)

  const DefaultDenialMessage := "У вас недостаточно прав для выполнения этого действия"

  /** `checkPermission`: `None` lets the action proceed. */
  function CheckPermission(user: Option<ServerUser>, permission: string, message: Option<string>): (r: Option<Denial>)
    ensures r.None? <==> user.Some? && permission in user.value.granted
    ensures r.Some? ==> r.value.status == 403 && r.value.requiredPermission == permission
    ensures r.Some? ==> r.value.message == (if message.Some? then message.value else DefaultDenialMessage)
  {
    if user.None? || permission !in user.value.granted then
      Some(Denial(403, message.GetOr(DefaultDenialMessage), permission))
    else None
  }

  /** Every permission name a client user object carries, directly or through a role's list. */
  function Effective(u: Auth.ClientUser): (names: set<string>)
    ensures forall n :: n in names <==> Auth.HoldsDirectly(u, n) || Auth.HoldsThroughRole(u, n)
  {
    var direct := if u.permissions.Some? then set i | 0 <= i < |u.permissions.value| :: u.permissions.value[i].name else {};
    var viaRoles := if u.roles.Some? then
                      set i, j | 0 <= i < |u.roles.value| && u.roles.value[i].permissions.Some? &&
                                 0 <= j < |u.roles.value[i].permissions.value| :: u.roles.value[i].permissions.value[j].name
                    else {};
    assert forall n :: n in viaRoles <==> Auth.HoldsThroughRole(u, n) by {
      forall n ensures n in viaRoles <==> Auth.HoldsThroughRole(u, n) {
        if Auth.HoldsThroughRole(u, n) {
          var i :| 0 <= i < |u.roles.value| && Auth.RoleGrants(u.roles.value[i], n);
          var ps := u.roles.value[i].permissions.value;
          Auth.SomeNamedIff(ps, n);
          var j :| 0 <= j < |ps| && ps[j].name == n;
          assert n in viaRoles;
        }
        if n in viaRoles {
          var i, j :| 0 <= i < |u.roles.value| && u.roles.value[i].permissions.Some? &&
                      0 <= j < |u.roles.value[i].permissions.value| && u.roles.value[i].permissions.value[j].name == n;
          Auth.SomeNamedIff(u.roles.value[i].permissions.value, n);
          assert Auth.RoleGrants(u.roles.value[i], n);
        }
      }
    }
    direct + viaRoles
  }

  /**
   * When the server's grants are exactly what the client's user object
   * lists, the client's `hasPermission` predicts the server gate: the action
   * is shown exactly when it will not be refused with 403.
   */
  lemma ClientAgreesWithServer(u: Auth.ClientUser, permission: string, message: Option<string>)
    ensures CheckPermission(Some(ServerUser(u.id, Effective(u))), permission, message).None? <==>
            Auth.HasPermission(Some(u), permission)
  {
    Auth.HasPermissionIff(Some(u), permission);
  }

  /** Without a signed-in user both sides refuse. */
  lemma NoUserRefused(permission: string, message: Option<string>)
    ensures CheckPermission(None, permission, message).Some?
    ensures !Auth.HasPermission(None, permission)
  {
  }
}
