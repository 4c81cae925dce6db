/**
 * The project and context modals of the client. Both edit a name, a key, a
 * description, an active flag and a priority; the context modal also picks
 * the project the context belongs to. Both run the same checks on the shared
 * fields, and the context modal adds one for the project.
 *
 * The priority and project inputs are selects: the empty option is `None`,
 * every other option holds a number.
 */
module EntityForms {
  import opened Wrappers
  import Text
  import FormErrors
  import ProjectSelection

  const NameMessage := "Название обязательно"
  const KeyRequiredMessage := "Ключ обязателен"
  const KeyPatternMessage := "Ключ может содержать только строчные буквы, цифры и дефисы"
  const ProjectMessage := "Выберите проект"
  const PriorityMessage := "Выберите приоритет"

  /** The priority both modals start with, and the one an edited record shows when it has none. */
  const DefaultPriority := 2

  datatype ProjectForm = ProjectForm(name: string, key: string, description: string, status: bool, priority: Option<int>)

  datatype ContextForm =
    ContextForm(name: string, key: string, description: string, projectId: Option<int>, status: bool, priority: Option<int>)
  {
    /** The fields a context shares with a project. */
    function Shared(): ProjectForm {
      ProjectForm(name, key, description, status, priority)
    }
  }

  const InitialProject := ProjectForm("", "", "", true, Some(DefaultPriority))
  const InitialContext := ContextForm("", "", "", None, true, Some(DefaultPriority))

  /** The class `[a-z0-9-]`. */
  predicate KeyChar(c: char) {
    ('a' <= c <= 'z') || ('0' <= c <= '9') || c == '-'
  }

  /** `^[a-z0-9-]+$`, tested on the key as typed. */
  predicate KeyPattern(s: string) {
    |s| > 0 && forall i :: 0 <= i < |s| ==> KeyChar(s[i])
  }

  /** The key's message: "required" when it trims to nothing, "pattern" when it does not match. */
  function KeyMessage(key: string): (m: Option<string>)
    ensures m.None? <==> KeyPattern(key)
    ensures m.Some? ==> m.value == if Text.Trim(key) == [] then KeyRequiredMessage else KeyPatternMessage
  {
    if Text.Trim(key) == [] then
      Text.TrimEmptyIff(key);
      assert key != [] ==> Text.IsJsSpace(key[0]);
      Some(KeyRequiredMessage)
    else if !KeyPattern(key) then Some(KeyPatternMessage)
    else None
  }

  /**
   * The pattern is tested on the key as typed, not on the trimmed key: a key
   * that is not blank but holds whitespace anywhere, such as a padded one,
   * gets the pattern message.
   */
  lemma SpacedKeyFailsPattern(key: string, i: int, j: int)
    requires 0 <= i < |key| && Text.IsJsSpace(key[i])
    requires 0 <= j < |key| && !Text.IsJsSpace(key[j])
    ensures KeyMessage(key) == Some(KeyPatternMessage)
  {
    Text.TrimEmptyIff(key);
  }

  /** `!priority || priority < 1`. */
  predicate PriorityMissing(p: Option<int>) {
    p.None? || p.value < 1
  }

  /** The message `validate` records for one of the shared fields, if any. */
  function SharedMessage(f: ProjectForm, field: string): (m: Option<string>)
    ensures field == "name" ==> (m.Some? <==> Text.Trim(f.name) == [])
    ensures field == "key" ==> m == KeyMessage(f.key)
    ensures field == "priority" ==> (m.Some? <==> PriorityMissing(f.priority))
    ensures field !in SharedFields ==> m.None?
  {
    if field == "name" then (if Text.Trim(f.name) == [] then Some(NameMessage) else None)
    else if field == "key" then KeyMessage(f.key)
    else if field == "priority" then (if PriorityMissing(f.priority) then Some(PriorityMessage) else None)
    else None
  }

  const SharedFields: set<string> := {"name", "key", "priority"}

  /** The messages for the fields both modals share: the project modal's `validate`. */
  function ValidateProject(f: ProjectForm): (errors: FormErrors.Errors<string>)
    ensures "name" in errors <==> Text.Trim(f.name) == []
    ensures "key" in errors <==> !KeyPattern(f.key)
    ensures "key" in errors ==> errors["key"] == if Text.Trim(f.key) == [] then KeyRequiredMessage else KeyPatternMessage
    ensures "priority" in errors <==> PriorityMissing(f.priority)
    ensures errors.Keys <= SharedFields
  {
    map k | k in SharedFields && SharedMessage(f, k).Some? :: SharedMessage(f, k).value
  }

  /** The context modal's `validate`: the shared checks, and a message when no project is chosen. */
  function ValidateContext(f: ContextForm): (errors: FormErrors.Errors<string>)
    ensures "project_id" in errors <==> f.projectId.None?
    ensures forall k :: k != "project_id" ==> (k in errors <==> k in ValidateProject(f.Shared()))
    ensures forall k :: k in errors && k != "project_id" ==> errors[k] == ValidateProject(f.Shared())[k]
  {
    var shared := ValidateProject(f.Shared());
    FormErrors.Record(shared, "project_id", if f.projectId.None? then Some(ProjectMessage) else None)
  }

  /** A context passes exactly when its shared fields pass as a project's would and a project is chosen. */
  lemma ContextValidIffProjectValid(f: ContextForm)
    ensures ValidateContext(f) == map[] <==> ValidateProject(f.Shared()) == map[] && f.projectId.Some?
  {
    var c := ValidateContext(f);
    var p := ValidateProject(f.Shared());
    if p == map[] && f.projectId.Some? {
      assert forall k :: k !in c;
    }
  }

  /** What the project modal saves: every field as held, with the priority parsed to a number. */
  datatype ProjectPayload = ProjectPayload(name: string, key: string, description: string, status: bool, priority: int)

  /** What the context modal saves: the project's fields plus the parsed project id. */
  datatype ContextPayload =
    ContextPayload(name: string, key: string, description: string, projectId: int, status: bool, priority: int)

  /** The project modal's `handleSubmit`: the messages when there are any, otherwise the payload. */
  function SubmitProject(f: ProjectForm): (r: Result<ProjectPayload, FormErrors.Errors<string>>)
    ensures r.Err? <==> ValidateProject(f) != map[]
    ensures r.Err? ==> r.error == ValidateProject(f)
    ensures r.Ok? ==> && r.value.priority >= 1 && KeyPattern(r.value.key) && Text.Trim(r.value.name) != []
                      && Some(r.value.priority) == f.priority
                      && r.value.name == f.name && r.value.key == f.key && r.value.description == f.description
                      && r.value.status == f.status
  {
    var errors := ValidateProject(f);
    if errors != map[] then Err(errors)
    else
      assert "priority" !in errors && "key" !in errors;
      Ok(ProjectPayload(f.name, f.key, f.description, f.status, f.priority.value))
  }

  /** The context modal's `handleSubmit`. */
  function SubmitContext(f: ContextForm): (r: Result<ContextPayload, FormErrors.Errors<string>>)
    ensures r.Err? <==> ValidateContext(f) != map[]
    ensures r.Err? ==> r.error == ValidateContext(f)
    ensures r.Ok? ==> && r.value.priority >= 1 && KeyPattern(r.value.key) && Text.Trim(r.value.name) != []
                      && Some(r.value.projectId) == f.projectId && Some(r.value.priority) == f.priority
                      && r.value.name == f.name && r.value.key == f.key && r.value.description == f.description
                      && r.value.status == f.status
  {
    var errors := ValidateContext(f);
    if errors != map[] then Err(errors)
    else
      assert "priority" !in errors && "key" !in errors && "project_id" !in errors;
      assert "priority" !in ValidateProject(f.Shared()) && "key" !in ValidateProject(f.Shared());
      Ok(ContextPayload(f.name, f.key, f.description, f.projectId.value, f.status, f.priority.value))
  }

  /** A stored project or context as the modal receives it for editing. */
  datatype Stored = Stored(name: Option<string>, key: Option<string>, description: Option<string>,
                           projectId: Option<int>, status: Option<bool>, priority: Option<int>)

  /** `value || ''` for text. */
  function TextOrEmpty(s: Option<string>): (r: string)
    ensures s.Some? ==> r == s.value
    ensures s.None? ==> r == ""
  {
    s.GetOr("")
  }

  /** `priority || 2`: a missing priority and a priority of 0 both show as 2. */
  function PriorityOrDefault(p: Option<int>): (r: Option<int>)
    ensures r.Some?
    ensures r.value == if p.Some? && p.value != 0 then p.value else DefaultPriority
  {
    if p.Some? && p.value != 0 then p else Some(DefaultPriority)
  }

  /** The project modal filled from a stored project; `status ?? true` keeps a stored `false`. */
  function PrefillProject(p: Stored): (f: ProjectForm)
    ensures f.status == p.status.GetOr(true)
    ensures f.priority == PriorityOrDefault(p.priority)
    ensures f.name == TextOrEmpty(p.name) && f.key == TextOrEmpty(p.key) && f.description == TextOrEmpty(p.description)
  {
    ProjectForm(TextOrEmpty(p.name), TextOrEmpty(p.key), TextOrEmpty(p.description), p.status.GetOr(true),
                PriorityOrDefault(p.priority))
  }

  /** The context modal filled from a stored context; `project_id || ''` empties a project id of 0. */
  function PrefillContext(c: Stored): (f: ContextForm)
    ensures f.Shared() == PrefillProject(c)
    ensures f.projectId.Some? <==> c.projectId.Some? && c.projectId.value != 0
    ensures f.projectId.Some? ==> f.projectId == c.projectId
  {
    var p := PrefillProject(c);
    ContextForm(p.name, p.key, p.description,
                if c.projectId.Some? && c.projectId.value != 0 then c.projectId else None,
                p.status, p.priority)
  }

  /** A new context takes the selected project's id; an id of 0 or one that did not parse is falsy and counts as none. */
  function WithSelectedProject(f: ContextForm, selected: ProjectSelection.Sel): (r: ContextForm)
    ensures r.Shared() == f.Shared()
    ensures r.projectId.Some? <==> selected.id.Some? && selected.id.value != 0
    ensures r.projectId.Some? ==> r.projectId == selected.id
  {
    f.(projectId := if selected.id.Some? && selected.id.value != 0 then selected.id else None)
  }

  /** An edited record fails the priority check only when its stored priority is negative. */
  lemma PrefilledPriorityFailsOnlyWhenNegative(p: Stored)
    ensures PriorityMissing(PrefillProject(p).priority) <==> p.priority.Some? && p.priority.value < 0
  {
  }

  /** An edit event: text inputs give their text, the checkbox its `checked` flag, the selects their option. */
  datatype Change = Name(text: string) | Key(text: string) | Description(text: string)
                  | Status(checked: bool) | Priority(choice: Option<int>) | Project(choice: Option<int>)
  {
    /** The input's `name` attribute. */
    function Field(): string {
      match this
      case Name(_) => "name"
      case Key(_) => "key"
      case Description(_) => "description"
      case Status(_) => "status"
      case Priority(_) => "priority"
      case Project(_) => "project_id"
    }
  }

  /** The form field an edit writes; the checkbox writes its flag, not a text value. */
  function ApplyContext(f: ContextForm, c: Change): (r: ContextForm)
    ensures c.Status? ==> r.status == c.checked && r.(status := f.status) == f
    ensures c.Name? ==> r.name == c.text && r.(name := f.name) == f
    ensures c.Key? ==> r.key == c.text && r.(key := f.key) == f
    ensures c.Description? ==> r.description == c.text && r.(description := f.description) == f
    ensures c.Priority? ==> r.priority == c.choice && r.(priority := f.priority) == f
    ensures c.Project? ==> r.projectId == c.choice && r.(projectId := f.projectId) == f
  {
    match c
    case Name(t) => f.(name := t)
    case Key(t) => f.(key := t)
    case Description(t) => f.(description := t)
    case Status(b) => f.(status := b)
    case Priority(p) => f.(priority := p)
    case Project(p) => f.(projectId := p)
  }

  /** The project modal has no project select, so it never sees a `Project` edit. */
  function ApplyProject(f: ProjectForm, c: Change): (r: ProjectForm)
    requires !c.Project?
    ensures r == ApplyContext(ContextForm(f.name, f.key, f.description, None, f.status, f.priority), c).Shared()
  {
    match c
    case Name(t) => f.(name := t)
    case Key(t) => f.(key := t)
    case Description(t) => f.(description := t)
    case Status(b) => f.(status := b)
    case Priority(p) => f.(priority := p)
  }

  /** `handleChange` in the context modal: write the field and blank its message only. */
  function HandleContextChange(f: ContextForm, errors: FormErrors.Errors<string>, c: Change)
    : (r: (ContextForm, FormErrors.Errors<string>))
    ensures r.0 == ApplyContext(f, c)
    ensures FormErrors.Showing(r.1, FormErrors.Shown) == FormErrors.Showing(errors, FormErrors.Shown) - {c.Field()}
    ensures r.1.Keys == errors.Keys
  {
    FormErrors.ClearErrorHidesOnlyThatField(errors, c.Field(), FormErrors.Shown, "");
    (ApplyContext(f, c), FormErrors.ClearError(errors, c.Field(), FormErrors.Shown, ""))
  }

  /** `handleChange` in the project modal. */
  function HandleProjectChange(f: ProjectForm, errors: FormErrors.Errors<string>, c: Change)
    : (r: (ProjectForm, FormErrors.Errors<string>))
    requires !c.Project?
    ensures r.0 == ApplyProject(f, c)
    ensures FormErrors.Showing(r.1, FormErrors.Shown) == FormErrors.Showing(errors, FormErrors.Shown) - {c.Field()}
    ensures r.1.Keys == errors.Keys
  {
    FormErrors.ClearErrorHidesOnlyThatField(errors, c.Field(), FormErrors.Shown, "");
    (ApplyProject(f, c), FormErrors.ClearError(errors, c.Field(), FormErrors.Shown, ""))
  }

  /** Choosing a project clears the "choose a project" message and leaves the others standing. */
  lemma ChoosingProjectFixesOnlyThatMessage(f: ContextForm, id: int)
    requires f.projectId.None?
    ensures var r := HandleContextChange(f, ValidateContext(f), Project(Some(id)));
            "project_id" !in ValidateContext(r.0) &&
            FormErrors.Showing(r.1, FormErrors.Shown) == FormErrors.Showing(ValidateContext(f), FormErrors.Shown) - {"project_id"}
  {
  }
}
