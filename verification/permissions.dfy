/**
 * The client's permission catalogue: the 26 permission names the server
 * knows, their grouping per managed entity, membership, and the Russian
 * display names. The catalogue is regular: apart from the two
 * user-management permissions every name is `<action>_<entity>` and every
 * label is "<action noun> <entity, genitive plural>", which is how it is
 * modelled.
 */
module Permissions {
  import opened Wrappers

  datatype Action = Create | Read | Update | Delete

  datatype Entity = Project | Context | Warehouse | WarehouseStock | User | PermissionEntity

  datatype Permission = Crud(action: Action, entity: Entity) | HandleUsersPermissions | HandleUsersRoles

  function ActionWord(a: Action): string {
    match a
    case Create => "create"
    case Read => "read"
    case Update => "update"
    case Delete => "delete"
  }

  function EntityWord(e: Entity): string {
    match e
    case Project => "project"
    case Context => "context"
    case Warehouse => "warehouse"
    case WarehouseStock => "warehouse_stock"
    case User => "user"
    case PermissionEntity => "permission"
  }

  /** The string value the enum stores for a permission. */
  function Value(p: Permission): (s: string)
    ensures |s| > 0
  {
    match p
    case Crud(a, e) => ActionWord(a) + "_" + EntityWord(e)
    case HandleUsersPermissions => "handle_users_permissions"
    case HandleUsersRoles => "handle_users_roles"
  }

  /** The position of the first `c` in `s`, or `|s|` when there is none. */
  function IndexOf(s: string, c: char): (i: nat)
    ensures i <= |s|
  {
    if s == [] || s[0] == c then 0 else 1 + IndexOf(s[1..], c)
  }

  lemma {:induction false} IndexOfAfterFree(w: string, c: char, rest: string)
    requires c !in w
    ensures IndexOf(w + [c] + rest, c) == |w|
  {
    if w != [] {
      assert (w + [c] + rest)[1..] == w[1..] + [c] + rest;
      IndexOfAfterFree(w[1..], c, rest);
    }
  }

  /** Distinct permissions have distinct values: the action word is what precedes the first underscore. */
  lemma ValueInjective(p: Permission, q: Permission)
    requires Value(p) == Value(q)
    ensures p == q
  {
    var s := Value(p);
    if p.Crud? && q.Crud? {
      var a1, a2 := ActionWord(p.action), ActionWord(q.action);
      IndexOfAfterFree(a1, '_', EntityWord(p.entity));
      IndexOfAfterFree(a2, '_', EntityWord(q.entity));
      assert a1 + "_" + EntityWord(p.entity) == a1 + ['_'] + EntityWord(p.entity);
      assert a2 + "_" + EntityWord(q.entity) == a2 + ['_'] + EntityWord(q.entity);
      assert a1 == s[..|a1|] == a2;
      assert EntityWord(p.entity) == s[|a1| + 1..] == EntityWord(q.entity);
    }
  }

  const Actions: seq<Action> := [Create, Read, Update, Delete]

  /** The four permissions of one entity, in create, read, update, delete order. */
  function EntityGroup(e: Entity): (g: seq<Permission>)
    ensures |g| == 4
    ensures forall i :: 0 <= i < 4 ==> g[i] == Crud(Actions[i], e)
  {
    [Crud(Create, e), Crud(Read, e), Crud(Update, e), Crud(Delete, e)]
  }

  /** The management group: the four permission-entity permissions plus the two user-management ones. */
  function ManagementGroup(): (g: seq<Permission>)
    ensures |g| == 6 && HandleUsersPermissions in g && HandleUsersRoles in g
    ensures g[..4] == EntityGroup(PermissionEntity)
  {
    EntityGroup(PermissionEntity) + [HandleUsersPermissions, HandleUsersRoles]
  }

  /** The enum in declaration order, which is the order of `Object.values`. */
  const AllPermissions: seq<Permission> :=
    EntityGroup(Project) + EntityGroup(Context) + EntityGroup(Warehouse) + EntityGroup(WarehouseStock) +
    EntityGroup(User) + ManagementGroup()

  /** `getAllPermissions`: every permission exactly once. */
  lemma AllPermissionsComplete(p: Permission)
    ensures p in AllPermissions
    ensures |AllPermissions| == 26
  {
    var g1, g2, g3 := EntityGroup(Project), EntityGroup(Context), EntityGroup(Warehouse);
    var g4, g5, g6 := EntityGroup(WarehouseStock), EntityGroup(User), ManagementGroup();
    assert AllPermissions == g1 + g2 + g3 + g4 + g5 + g6;
    match p
    case Crud(a, e) =>
      var g := EntityGroup(e);
      assert p in g by {
        match a
        case Create => assert g[0] == p;
        case Read => assert g[1] == p;
        case Update => assert g[2] == p;
        case Delete => assert g[3] == p;
      }
      match e {
        case Project => assert g == g1;
        case Context => assert g == g2;
        case Warehouse => assert g == g3;
        case WarehouseStock => assert g == g4;
        case User => assert g == g5;
        case PermissionEntity => assert g == g6[..4];
      }
    case _ =>
  }

  lemma AllPermissionsDistinct()
    ensures forall i, j :: 0 <= i < j < |AllPermissions| ==> AllPermissions[i] != AllPermissions[j]
  {
  }

  /** Every entity group lists only catalogue permissions. */
  lemma GroupsAreInCatalogue(e: Entity)
    ensures forall p :: p in EntityGroup(e) ==> p in AllPermissions
    ensures forall p :: p in ManagementGroup() ==> p in AllPermissions
  {
    forall p | p in EntityGroup(e) || p in ManagementGroup() ensures p in AllPermissions {
      AllPermissionsComplete(p);
    }
  }

  /** The permission whose value is `s`, searching in catalogue order. */
  function Find(ps: seq<Permission>, s: string): (r: Option<Permission>)
    ensures r.Some? ==> r.value in ps && Value(r.value) == s
    ensures r.None? ==> forall p :: p in ps ==> Value(p) != s
  {
    if ps == [] then None
    else if Value(ps[0]) == s then Some(ps[0])
    else Find(ps[1..], s)
  }

  function FromValue(s: string): (r: Option<Permission>)
    ensures r.Some? ==> Value(r.value) == s
  {
    Find(AllPermissions, s)
  }

  /** Reading a value back gives the permission it came from. */
  lemma FromValueRoundTrip(p: Permission)
    ensures FromValue(Value(p)) == Some(p)
  {
    AllPermissionsComplete(p);
    var r := FromValue(Value(p));
    ValueInjective(r.value, p);
  }

  /** `isValidPermission`: the string is one of the enum's values. */
  predicate IsValidPermission(s: string) {
    FromValue(s).Some?
  }

  lemma IsValidPermissionIff(s: string)
    ensures IsValidPermission(s) <==> exists p :: Value(p) == s
  {
    if exists p :: Value(p) == s {
      var p :| Value(p) == s;
      FromValueRoundTrip(p);
    }
  }

  function ActionLabel(a: Action): string {
    match a
    case Create => "Создание"
    case Read => "Просмотр"
    case Update => "Редактирование"
    case Delete => "Удаление"
  }

  function EntityLabel(e: Entity): string {
    match e
    case Project => "проектов"
    case Context => "контекстов"
    case Warehouse => "складов"
    case WarehouseStock => "складских остатков"
    case User => "пользователей"
    case PermissionEntity => "разрешений"
  }

  function Label(p: Permission): (l: string)
    ensures |l| > 0
  {
    match p
    case Crud(a, e) => ActionLabel(a) + " " + EntityLabel(e)
    case HandleUsersPermissions => "Управление разрешениями пользователей"
    case HandleUsersRoles => "Управление ролями пользователей"
  }

  /** `getPermissionDisplayName`: the label of a known permission, the input itself otherwise. */
  function DisplayName(s: string): (d: string)
    ensures IsValidPermission(s) ==> d == Label(FromValue(s).value)
    ensures !IsValidPermission(s) ==> d == s
  {
    match FromValue(s)
    case Some(p) => Label(p)
    case None => s
  }

  /** Every catalogue value displays as its label, and the label is never the raw value. */
  lemma DisplayNameOfValue(p: Permission)
    ensures DisplayName(Value(p)) == Label(p)
    ensures DisplayName(Value(p)) != Value(p)
  {
    FromValueRoundTrip(p);
    LabelStartsCyrillic(p);
    ValueStartsAscii(p);
  }

  lemma LabelStartsCyrillic(p: Permission)
    ensures Label(p)[0] as int >= 0x400
  {
    match p
    case Crud(a, e) => assert Label(p)[0] == ActionLabel(a)[0];
    case _ =>
  }

  lemma ValueStartsAscii(p: Permission)
    ensures Value(p)[0] as int < 0x80
  {
    match p
    case Crud(a, e) => assert Value(p)[0] == ActionWord(a)[0];
    case _ =>
  }
}
