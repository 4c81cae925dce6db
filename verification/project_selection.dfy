/**
 * The client's current project and context, chosen in the header and
 * mirrored to browser storage so that a reload restores them. Changing the
 * project always drops the context.
 */
module ProjectSelection {
  import opened Wrappers
  import Text

  /** A project or context as the selectors hand it over. */
  datatype Item = Item(id: int, name: string)

  /** A held selection; `id` is `None` when a restored id string is not a number (`NaN`). */
  datatype Sel = Sel(id: Option<int>, name: string)

  type Storage = map<string, string>

  const ProjectIdKey := "selectedProjectId"
  const ProjectNameKey := "selectedProjectName"
  const ContextIdKey := "selectedContextId"
  const ContextNameKey := "selectedContextName"

  /** The four storage keys are distinct: the project's and the context's differ at their ninth character, id and name keys in length. */
  lemma KeysDistinct()
    ensures ProjectIdKey != ProjectNameKey && ContextIdKey != ContextNameKey
    ensures ProjectIdKey != ContextIdKey && ProjectIdKey != ContextNameKey
    ensures ProjectNameKey != ContextIdKey && ProjectNameKey != ContextNameKey
  {
    assert ProjectIdKey[8] != ContextIdKey[8];
    assert ProjectNameKey[8] != ContextNameKey[8];
  }

  datatype State = State(project: Option<Sel>, context: Option<Sel>, storage: Storage)

  function Selected(item: Item): Sel {
    Sel(Some(item.id), item.name)
  }

  /** A selection read back from an id key and a name key: both must be present and non-empty. */
  function RestoreSel(storage: Storage, idKey: string, nameKey: string): (r: Option<Sel>)
    ensures r.Some? <==> idKey in storage && storage[idKey] != "" && nameKey in storage && storage[nameKey] != ""
    ensures r.Some? ==> r.value == Sel(Text.ParseInt(storage[idKey]), storage[nameKey])
  {
    if idKey in storage && storage[idKey] != "" && nameKey in storage && storage[nameKey] != "" then
      Some(Sel(Text.ParseInt(storage[idKey]), storage[nameKey]))
    else None
  }

  /** Start-up: restore each selection independently from its two keys. */
  function Restore(storage: Storage): (s: State)
    ensures s.storage == storage
    ensures s.project == RestoreSel(storage, ProjectIdKey, ProjectNameKey)
    ensures s.context == RestoreSel(storage, ContextIdKey, ContextNameKey)
  {
    State(RestoreSel(storage, ProjectIdKey, ProjectNameKey), RestoreSel(storage, ContextIdKey, ContextNameKey), storage)
  }

  /** `clearContext`: drop the context and its two keys. */
  function ClearContext(s: State): (r: State)
    ensures r.project == s.project && r.context.None?
    ensures r.storage == s.storage - {ContextIdKey, ContextNameKey}
  {
    State(s.project, None, s.storage - {ContextIdKey, ContextNameKey})
  }

  /** `clearProject`: drop the project and its keys, then the context. */
  function ClearProject(s: State): (r: State)
    ensures r.project.None? && r.context.None?
    ensures r.storage == s.storage - {ProjectIdKey, ProjectNameKey, ContextIdKey, ContextNameKey}
  {
    ClearContext(State(None, s.context, s.storage - {ProjectIdKey, ProjectNameKey}))
  }

  /** `selectProject`: a project is held and stored, no project clears it; either way the context is dropped. */
  function SelectProject(s: State, project: Option<Item>): (r: State)
    ensures project.Some? ==> r.project == Some(Selected(project.value))
    ensures project.Some? ==> r.storage == (s.storage[ProjectIdKey := Text.IntToString(project.value.id)]
                                                     [ProjectNameKey := project.value.name]) - {ContextIdKey, ContextNameKey}
    ensures project.None? ==> r == ClearProject(s)
    ensures r.context.None?
  {
    match project
    case Some(p) =>
      ClearContext(State(Some(Selected(p)), s.context,
                         s.storage[ProjectIdKey := Text.IntToString(p.id)][ProjectNameKey := p.name]))
    case None => ClearContext(State(None, s.context, s.storage - {ProjectIdKey, ProjectNameKey}))
  }

  /** `selectContext`: set or clear only the context; the project and its keys are untouched. */
  function SelectContext(s: State, context: Option<Item>): (r: State)
    ensures r.project == s.project
    ensures context.Some? ==> r.context == Some(Selected(context.value)) &&
                              r.storage == s.storage[ContextIdKey := Text.IntToString(context.value.id)][ContextNameKey := context.value.name]
    ensures context.None? ==> r == ClearContext(s)
  {
    match context
    case Some(c) => State(s.project, Some(Selected(c)), s.storage[ContextIdKey := Text.IntToString(c.id)][ContextNameKey := c.name])
    case None => ClearContext(s)
  }

  /** What a reload can bring back of a selection: nothing when its name is empty (an empty string is falsy). */
  function Persisted(sel: Option<Sel>): Option<Sel> {
    if sel.Some? && sel.value.name != "" then sel else None
  }

  /** The storage reproduces the held selections, as far as a reload can. */
  predicate Mirrored(s: State) {
    RestoreSel(s.storage, ProjectIdKey, ProjectNameKey) == Persisted(s.project) &&
    RestoreSel(s.storage, ContextIdKey, ContextNameKey) == Persisted(s.context)
  }

  /** A freshly restored state is mirrored. */
  lemma RestoreIsMirrored(storage: Storage)
    ensures Mirrored(Restore(storage))
  {
  }

  /** A selected item comes back from its own keys after a reload (unless its name is empty). */
  lemma StoredItemReadsBack(storage: Storage, idKey: string, nameKey: string, item: Item)
    requires idKey != nameKey
    ensures RestoreSel(storage[idKey := Text.IntToString(item.id)][nameKey := item.name], idKey, nameKey) ==
            Persisted(Some(Selected(item)))
  {
    Text.ScanIntToString(Text.Js, item.id);
  }

  /** A selection is read from its two keys only. */
  lemma RestoreSelFrame(a: Storage, b: Storage, idKey: string, nameKey: string)
    requires idKey in a <==> idKey in b
    requires nameKey in a <==> nameKey in b
    requires idKey in a ==> a[idKey] == b[idKey]
    requires nameKey in a ==> a[nameKey] == b[nameKey]
    ensures RestoreSel(a, idKey, nameKey) == RestoreSel(b, idKey, nameKey)
  {
  }

  lemma SelectProjectKeepsMirror(s: State, project: Option<Item>)
    requires Mirrored(s)
    ensures Mirrored(SelectProject(s, project))
  {
    var r := SelectProject(s, project);
    if project.Some? {
      var st := s.storage[ProjectIdKey := Text.IntToString(project.value.id)][ProjectNameKey := project.value.name];
      StoredItemReadsBack(s.storage, ProjectIdKey, ProjectNameKey, project.value);
      RestoreSelFrame(r.storage, st, ProjectIdKey, ProjectNameKey);
    }
  }

  lemma SelectContextKeepsMirror(s: State, context: Option<Item>)
    requires Mirrored(s)
    ensures Mirrored(SelectContext(s, context))
  {
    var r := SelectContext(s, context);
    if context.Some? {
      StoredItemReadsBack(s.storage, ContextIdKey, ContextNameKey, context.value);
    }
    RestoreSelFrame(r.storage, s.storage, ProjectIdKey, ProjectNameKey);
  }

  lemma ClearContextKeepsMirror(s: State)
    requires Mirrored(s)
    ensures Mirrored(ClearContext(s))
  {
    RestoreSelFrame(ClearContext(s).storage, s.storage, ProjectIdKey, ProjectNameKey);
  }

  lemma ClearProjectKeepsMirror(s: State)
    requires Mirrored(s)
    ensures Mirrored(ClearProject(s))
  {
  }

  /**
   * Reload after selecting a project and then a context, both with
   * non-empty names: both come back exactly.
   */
  lemma ReloadRestoresSelection(s: State, project: Item, context: Item)
    requires project.name != "" && context.name != ""
    ensures var r := SelectContext(SelectProject(s, Some(project)), Some(context));
            Restore(r.storage).project == Some(Selected(project)) &&
            Restore(r.storage).context == Some(Selected(context))
  {
    var a := SelectProject(s, Some(project));
    var b := SelectContext(a, Some(context));
    var st := s.storage[ProjectIdKey := Text.IntToString(project.id)][ProjectNameKey := project.name];
    KeysDistinct();
    StoredItemReadsBack(s.storage, ProjectIdKey, ProjectNameKey, project);
    StoredItemReadsBack(a.storage, ContextIdKey, ContextNameKey, context);
    RestoreSelFrame(a.storage, st, ProjectIdKey, ProjectNameKey);
    RestoreSelFrame(b.storage, a.storage, ProjectIdKey, ProjectNameKey);
  }

  /** A project whose name is empty is held now but forgotten by a reload. */
  lemma EmptyNameNotRestored(s: State, id: int)
    ensures SelectProject(s, Some(Item(id, ""))).project.Some?
    ensures Restore(SelectProject(s, Some(Item(id, ""))).storage).project.None?
  {
  }
}
